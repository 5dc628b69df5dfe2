/** `util::Binner`: a fixed-step binning of a real range.  The range is
 *  stretched upward to a whole number of steps; bin indices are unbounded
 *  integers, with the capped variants clamping them. */
module Binner {
  import opened RealMath

  datatype Binner = Binner(lower: real, step: real, nBins: nat, upper: real)
  {
    /** What the constructor guarantees. */
    predicate Valid()
    {
      step > 0.0 && upper == LowerEdge(nBins)
    }

    /** `relative()`: the value in units of steps from the lower bound. */
    function Relative(value: real): real
      requires step > 0.0
    {
      (value - lower) / step
    }

    /** `bin()`: the bin holding `value`, unbounded on both sides. */
    function Bin(value: real): (i: int)
      requires step > 0.0
      ensures LowerEdge(i) <= value < UpperEdge(i)
    {
      FloorOfQuotient(value - lower, step, Floor(Relative(value)));
      Floor(Relative(value))
    }

    /** `cappedBin(value, min, max)`: `std::clamp` of the bin index, which
     *  demands `min <= max`. */
    function CappedBinWithin(value: real, min: int, max: int): (i: int)
      requires step > 0.0 && min <= max
      ensures min <= i <= max
      ensures min <= Bin(value) <= max ==> i == Bin(value)
      ensures Bin(value) < min ==> i == min
      ensures Bin(value) > max ==> i == max
    {
      var b := Bin(value);
      if b < min then min else if max < b then max else b
    }

    /** `cappedBin(value)`: always a valid bin index. */
    function CappedBin(value: real): (i: int)
      requires Valid() && nBins > 0
      ensures 0 <= i < nBins
      ensures Contains(value) ==> i == Bin(value)
      ensures value < lower ==> i == 0
      ensures value >= upper ==> i == nBins - 1
    {
      ContainsIffBinInRange(this, value);
      CappedBinWithin(value, 0, nBins - 1)
    }

    /** `cappedBinWithOverflows(value)`: `-1` collects the underflow and
     *  `nBins()` the overflow. */
    function CappedBinWithOverflows(value: real): (i: int)
      requires Valid()
      ensures -1 <= i <= nBins
      ensures Contains(value) ==> i == Bin(value)
      ensures value < lower <==> i == -1
      ensures value >= upper <==> i == nBins
    {
      ContainsIffBinInRange(this, value);
      CappedBinWithin(value, -1, nBins)
    }

    /** `contains()`: the lower bound is included, the upper one is not,
     *  so only a non-empty range contains anything. */
    predicate Contains(value: real)
      ensures Contains(value) ==> lower < upper
      ensures value == lower ==> (Contains(value) <==> lower < upper)
    {
      lower <= value < upper
    }

    /** `lowerEdge()`: the lower edge of bin `i` lies exactly `i` steps
     *  above the lower bound. */
    function LowerEdge(i: int): (e: real)
      ensures step > 0.0 ==> Relative(e) == i as real
    {
      lower + step * i as real
    }

    /** `upperEdge()`: the lower edge of the next bin. */
    function UpperEdge(i: int): (e: real)
      ensures e == LowerEdge(i) + step
    {
      LowerEdge(i + 1)
    }

    /** `binCenter()`: half a step above the lower edge. */
    function BinCenter(i: int): (c: real)
      ensures c - LowerEdge(i) == UpperEdge(i) - c
      ensures step > 0.0 ==> LowerEdge(i) < c < UpperEdge(i) && Bin(c) == i
    {
      var c := LowerEdge(i) + step / 2.0;
      if step > 0.0 then BinOfEdges(this, c, i); c else c
    }
  }

  /** The constructor: as many steps as cover `[lower, upper]`, the upper
   *  bound moved to the last edge. */
  function Make(lower: real, upper: real, step: real): (b: Binner)
    requires lower <= upper && step > 0.0
    ensures b.Valid() && b.lower == lower && b.step == step
    ensures upper <= b.upper < upper + step
    ensures b.nBins == 0 <==> lower == upper
  {
    var n := Ceil((upper - lower) / step);
    CeilOfQuotient(upper - lower, step, n);
    var b := Binner(lower, step, n, lower + step * n as real);
    b
  }

  /** A value lies in bin `i` exactly when it lies between that bin's edges. */
  lemma {:induction false} BinOfEdges(b: Binner, value: real, i: int)
    requires b.step > 0.0
    ensures b.Bin(value) == i <==> b.LowerEdge(i) <= value < b.UpperEdge(i)
  {
    FloorOfQuotient(value - b.lower, b.step, i);
  }

  /** A value is in the range exactly when its bin index is a valid one. */
  lemma {:induction false} ContainsIffBinInRange(b: Binner, value: real)
    requires b.Valid()
    ensures b.Contains(value) <==> 0 <= b.Bin(value) < b.nBins
    ensures value < b.lower <==> b.Bin(value) < 0
    ensures value >= b.upper <==> b.Bin(value) >= b.nBins
  {
    var i := b.Bin(value);
    if i < 0 {
      EdgesRise(b, i + 1, 0);
    } else {
      EdgesRise(b, 0, i);
    }
    if i < b.nBins {
      EdgesRise(b, i + 1, b.nBins);
    } else {
      EdgesRise(b, b.nBins, i);
    }
  }

  /** Bin edges rise with the bin index. */
  lemma {:induction false} EdgesRise(b: Binner, i: int, j: int)
    requires b.step > 0.0 && i <= j
    ensures b.LowerEdge(i) <= b.LowerEdge(j)
  {
    ScalingKeepsOrder(i as real, j as real, b.step);
  }
}
