/** `icarus::ns::util::BinningSpecs`: a binning of fixed width whose upper
 *  limit is stretched to a whole number of bins, and the helpers that align a
 *  binning to zero or to a chosen boundary. */
module BinningSpecs {
  import opened RealMath

  datatype BinningSpecs = BinningSpecs(lower: real, width: real, nBins: nat, upper: real)
  {
    /** What the constructor establishes. */
    predicate Valid()
    {
      width > 0.0 && upper == lower + nBins as real * width
    }

    /** `range()`. */
    function Range(): (r: real)
      requires Valid()
      ensures r == nBins as real * width && r >= 0.0
    {
      upper - lower
    }

    /** `binWith()`: the index of the bin holding `value`. */
    function BinWith(value: real): (i: int)
      requires Valid()
      ensures BinBorders(i).0 <= value < BinBorders(i).1
    {
      FloorOfQuotient(value - lower, width, Floor((value - lower) / width));
      Floor((value - lower) / width)
    }

    /** `binBorders()`: lower and upper border of bin `i`. */
    function BinBorders(i: int): (borders: (real, real))
      ensures borders.1 - borders.0 == width
    {
      var low := lower + width * i as real;
      (low, low + width)
    }

    /** `value` is the border between two bins. */
    ghost predicate IsBorder(value: real)
    {
      exists k: int :: BinBorders(k).0 == value
    }
  }

  /** `NBinsFor()`: the fewest bins of `width` covering `[lower, upper]`. */
  function NBinsFor(lower: real, upper: real, width: real): (n: nat)
    requires lower <= upper && width > 0.0
    ensures upper - lower <= n as real * width
    ensures n > 0 ==> (n - 1) as real * width < upper - lower
    ensures n == 0 <==> lower == upper
  {
    var n := Ceil((upper - lower) / width);
    CeilOfQuotient(upper - lower, width, n);
    n
  }

  /** The constructor: the lower limit is kept and the upper limit moves up
   *  to the end of the last bin. */
  function Make(lower: real, upper: real, width: real): (b: BinningSpecs)
    requires lower <= upper && width > 0.0
    ensures b.Valid() && b.lower == lower && b.width == width
    ensures upper <= b.upper < upper + width
  {
    var n := NBinsFor(lower, upper, width);
    BinningSpecs(lower, width, n, lower + n as real * width)
  }

  /** A value is in bin `i` exactly when it lies between that bin's borders. */
  lemma {:induction false} BinWithIffBetweenBorders(b: BinningSpecs, value: real, i: int)
    requires b.Valid()
    ensures b.BinWith(value) == i <==> b.BinBorders(i).0 <= value < b.BinBorders(i).1
  {
    FloorOfQuotient(value - b.lower, b.width, i);
  }

  /** The lower limit falls in bin 0 and the upper limit in bin `nBins()`. */
  lemma {:induction false} LimitsBins(b: BinningSpecs)
    requires b.Valid()
    ensures b.BinWith(b.lower) == 0
    ensures b.BinWith(b.upper) == b.nBins
  {
    BinWithIffBetweenBorders(b, b.lower, 0);
    BinWithIffBetweenBorders(b, b.upper, b.nBins);
  }

  /** `floorMult()`: the largest multiple of `factor` not above `value`. */
  function FloorMult(value: real, factor: real): (m: real)
    requires factor > 0.0
    ensures m <= value < m + factor
    ensures Integral(m / factor)
  {
    var k := Floor(value / factor);
    FloorOfQuotient(value, factor, k);
    assert (k as real * factor) / factor == k as real;
    k as real * factor
  }

  /** `makeBinningAlignedTo0()`: the lower limit is moved down to a multiple
   *  of the width, so that zero is a bin border. */
  function MakeBinningAlignedTo0(lower: real, upper: real, width: real): (b: BinningSpecs)
    requires lower <= upper && width > 0.0
    ensures b.Valid() && b.width == width
    ensures b.lower <= lower < b.lower + width && upper <= b.upper
    ensures b.IsBorder(0.0)
  {
    var m := FloorMult(lower, width);
    var b := Make(m, upper, width);
    var k := (m / width).Floor;
    assert m == k as real * width;
    assert b.BinBorders(-k).0 == 0.0;
    b
  }

  /** `alignBinningTo()` as written: when `boundary` is nearer the upper
   *  border of its bin, the shift comes out as that border itself. */
  function AlignBinningToAsWritten(binning: BinningSpecs, boundary: real, extendCoverage: bool): (b: BinningSpecs)
    requires binning.Valid()
    ensures b.Valid() && b.width == binning.width
  {
    var borders := binning.BinBorders(binning.BinWith(boundary));
    var shift := boundary - (
      if boundary - borders.0 <= borders.1 - boundary then borders.0
      else boundary - borders.1);
    Shifted(binning, shift, extendCoverage)
  }

  /** `alignBinningTo()` with the shift the function is for: the distance
   *  from the nearest border of the boundary's bin to the boundary. */
  function AlignBinningTo(binning: BinningSpecs, boundary: real, extendCoverage: bool): (b: BinningSpecs)
    requires binning.Valid()
    ensures b.Valid() && b.width == binning.width
    ensures b.IsBorder(boundary)
    ensures extendCoverage ==> b.lower <= binning.lower && binning.upper <= b.upper
  {
    var k := binning.BinWith(boundary);
    var borders := binning.BinBorders(k);
    var nearest := if boundary - borders.0 <= borders.1 - boundary then borders.0 else borders.1;
    AlignedOnBoundary(binning, boundary, k, nearest, extendCoverage);
    Shifted(binning, boundary - nearest, extendCoverage)
  }

  /** Shifting by the distance from a border of the boundary's bin makes the
   *  boundary a border, and with `extendCoverage` the old range stays
   *  covered. */
  lemma {:induction false} AlignedOnBoundary(binning: BinningSpecs, boundary: real, k: int, nearest: real, extendCoverage: bool)
    requires binning.Valid()
    requires binning.BinBorders(k).0 <= boundary < binning.BinBorders(k).1
    requires nearest == binning.BinBorders(k).0 || boundary - binning.BinBorders(k).0 > binning.BinBorders(k).1 - boundary
    requires nearest == binning.BinBorders(k).0 || nearest == binning.BinBorders(k).1
    ensures Shifted(binning, boundary - nearest, extendCoverage).IsBorder(boundary)
    ensures extendCoverage ==>
              && Shifted(binning, boundary - nearest, extendCoverage).lower <= binning.lower
              && binning.upper <= Shifted(binning, boundary - nearest, extendCoverage).upper
  {
    var j := if nearest == binning.BinBorders(k).0 then k else k + 1;
    assert binning.BinBorders(j).0 == nearest by {
      if j == k + 1 {
        assert binning.width * j as real == binning.width * k as real + binning.width;
      }
    }
    ShiftedBorder(binning, boundary - nearest, extendCoverage, j);
    ShiftedCovers(binning, boundary - nearest, extendCoverage);
  }

  /** Bin border `j` of a binning, moved by `shift`, is a border of the
   *  shifted binning. */
  lemma {:induction false} ShiftedBorder(binning: BinningSpecs, shift: real, extendCoverage: bool, j: int)
    requires binning.Valid()
    ensures Shifted(binning, shift, extendCoverage).IsBorder(binning.BinBorders(j).0 + shift)
  {
    var b := Shifted(binning, shift, extendCoverage);
    BorderAfterShift(binning, b, shift, extendCoverage && shift > 0.0, j);
  }

  /** Border `j` of a binning, moved by `shift`, is border `j + 1` of a
   *  binning of the same width started one bin further down, or border `j`
   *  of the binning moved as it is. */
  lemma {:induction false} BorderAfterShift(binning: BinningSpecs, b: BinningSpecs, shift: real, moved: bool, j: int)
    requires b.width == binning.width
    requires b.lower == binning.lower + shift - (if moved then binning.width else 0.0)
    ensures b.IsBorder(binning.BinBorders(j).0 + shift)
  {
    var i := if moved then j + 1 else j;
    if moved {
      assert binning.width * i as real == binning.width * j as real + binning.width;
    }
    assert b.BinBorders(i).0 == binning.BinBorders(j).0 + shift;
  }

  /** A shift by less than one bin keeps the old range covered when the
   *  coverage is extended. */
  lemma {:induction false} ShiftedCovers(binning: BinningSpecs, shift: real, extendCoverage: bool)
    requires binning.Valid() && -binning.width < shift < binning.width
    ensures extendCoverage ==>
              && Shifted(binning, shift, extendCoverage).lower <= binning.lower
              && binning.upper <= Shifted(binning, shift, extendCoverage).upper
  {
  }

  /** The common tail of `alignBinningTo()`: move both limits by `shift` and,
   *  when asked to keep the old coverage, add one bin on the side the shift
   *  left uncovered. */
  function Shifted(binning: BinningSpecs, shift: real, extendCoverage: bool): (b: BinningSpecs)
    requires binning.Valid()
    ensures b.Valid() && b.width == binning.width
    ensures b.lower == binning.lower + shift - (if extendCoverage && shift > 0.0 then binning.width else 0.0)
    ensures b.upper >= binning.upper + shift
    ensures extendCoverage && shift < 0.0 ==> b.upper >= binning.upper + shift + binning.width
  {
    var width := binning.width;
    var lower := binning.lower + shift;
    var upper := binning.upper + shift;
    var limits :=
      if extendCoverage && shift != 0.0 then
        (if shift > 0.0 then (lower - width, upper) else (lower, upper + width))
      else (lower, upper);
    Make(limits.0, limits.1, width)
  }

  /** The constructor on (-5, 8, 2): seven bins up to 9. */
  lemma {:induction false} ConstructorExample()
    ensures Make(-5.0, 8.0, 2.0).nBins == 7 && Make(-5.0, 8.0, 2.0).upper == 9.0
  {
    CeilOfQuotient(13.0, 2.0, 7);
  }

  /** Aligning (-5, 8, 2) to zero moves the lower limit to -6. */
  lemma {:induction false} AlignedTo0Example()
    ensures MakeBinningAlignedTo0(-5.0, 8.0, 2.0).lower == -6.0
    ensures MakeBinningAlignedTo0(-5.0, 8.0, 2.0).nBins == 7
  {
    FloorOfQuotient(-5.0, 2.0, -3);
    CeilOfQuotient(14.0, 2.0, 7);
  }

  /** On bins of width 2 from 0, a boundary at 1.5 is nearer the upper
   *  border 2 of its bin; the written shift is then 2, the binning moves to
   *  start at 0 again (2, less one bin) and 1.5 is still not a border. */
  lemma {:induction false} AlignBinningToMissesBoundary()
    ensures var b := AlignBinningToAsWritten(Make(0.0, 10.0, 2.0), 1.5, true);
      b.lower == 0.0 && b.width == 2.0 && !b.IsBorder(1.5)
  {
    var binning := Make(0.0, 10.0, 2.0);
    BinWithIffBetweenBorders(binning, 1.5, 0);
    var b := AlignBinningToAsWritten(binning, 1.5, true);
    assert b.lower == 0.0;
    forall k: int
      ensures b.BinBorders(k).0 != 1.5
    {
      if k <= 0 {
        assert k as real * 2.0 <= 0.0;
      } else {
        assert k as real * 2.0 >= 2.0;
      }
    }
  }
}
