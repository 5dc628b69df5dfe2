/** `util::SampledFunction`: a function sampled at `size` regular steps from
 *  `lower`, repeated for `nSubsamples` starting points that split the first
 *  step evenly.  The samples of each subsample are stored contiguously, the
 *  whole first subsample first.
 *
 *  Coordinates and values are reals; the sampled function and the stopping
 *  rule are function-typed parameters. */
module SampledFunction {
  import opened RealMath
  import opened IntMath
  import opened Wrappers

  /** `Range_t`: the sampled range as worked out before sampling. */
  datatype Range = Range(lower: real, upper: real, step: real, nSamples: int)

  /** `subsampleOffset(n)`: where subsample `n` starts, `n` substeps above
   *  `lower`. */
  function SubsampleOffset(lower: real, step: real, nSubsamples: nat, n: int): real
    requires nSubsamples > 0
  {
    lower + (step / nSubsamples as real) * n as real
  }

  /** The samples of subsample `n`: the function at each of `size` steps
   *  from the subsample's offset. */
  function Row(f: real -> real, lower: real, step: real, size: nat, nSubsamples: nat, n: nat): (row: seq<real>)
    requires nSubsamples > 0
    ensures |row| == size
  {
    seq(size, i requires 0 <= i < size => f(SamplePoint(lower, step, nSubsamples, n, i)))
  }

  /** Where sample `i` of subsample `n` is taken. */
  function SamplePoint(lower: real, step: real, nSubsamples: nat, n: int, i: int): real
    requires nSubsamples > 0
  {
    SubsampleOffset(lower, step, nSubsamples, n) + i as real * step
  }

  /** The storage of the first `m` subsamples, one after the other. */
  function Layout(f: real -> real, lower: real, step: real, size: nat, nSubsamples: nat, m: nat): (s: seq<real>)
    requires nSubsamples > 0
    ensures |s| == Multiple(m, size)
  {
    if m == 0 then [] else Layout(f, lower, step, size, nSubsamples, m - 1) + Row(f, lower, step, size, nSubsamples, m - 1)
  }

  /** Subsample `n` occupies the `size` places from `n * size` on. */
  lemma {:induction false} LayoutSlice(f: real -> real, lower: real, step: real, size: nat, nSubsamples: nat, m: nat, n: nat)
    requires nSubsamples > 0 && n < m
    ensures Multiple(n + 1, size) <= Multiple(m, size)
    ensures Layout(f, lower, step, size, nSubsamples, m)[Multiple(n, size)..Multiple(n + 1, size)]
            == Row(f, lower, step, size, nSubsamples, n)
  {
    var before := Layout(f, lower, step, size, nSubsamples, m - 1);
    var row := Row(f, lower, step, size, nSubsamples, m - 1);
    if n < m - 1 {
      LayoutSlice(f, lower, step, size, nSubsamples, m - 1, n);
      assert (before + row)[Multiple(n, size)..Multiple(n + 1, size)] == before[Multiple(n, size)..Multiple(n + 1, size)];
    } else {
      assert (before + row)[|before|..] == row;
    }
  }

  /** `Multiple` grows with its first argument. */
  lemma {:induction false} MultipleMono(a: nat, b: nat, w: nat)
    requires a <= b
    ensures Multiple(a, w) <= Multiple(b, w)
    decreases b
  {
    if a < b {
      MultipleMono(a, b - 1, w);
    }
  }

  /** `std::vector::resize`: keeps the first `n` elements and pads with
   *  zeros. */
  function Resize(s: seq<real>, n: nat): (r: seq<real>)
    ensures |r| == n
    ensures forall k :: 0 <= k < n && k < |s| ==> r[k] == s[k]
    ensures forall k :: |s| <= k < n ==> r[k] == 0.0
  {
    if n <= |s| then s[..n] else s + seq(n - |s|, _ => 0.0)
  }

  /** The loops of `fillSamples`: resizes `storage` to `nSubsamples * size`
   *  and writes every subsample in turn, each step in turn, through one
   *  cursor. */
  method Sample(f: real -> real, lower: real, step: real, size: nat, nSubsamples: nat, storage: seq<real>)
    returns (data: seq<real>)
    requires nSubsamples > 0
    ensures data == Layout(f, lower, step, size, nSubsamples, nSubsamples)
  {
    var dataSize := nSubsamples * size;
    MultipleIsProduct(nSubsamples, size);
    data := Resize(storage, dataSize);
    var iValue := 0;
    for iSubsample := 0 to nSubsamples
      invariant |data| == dataSize
      invariant iValue == Multiple(iSubsample, size) <= dataSize
      invariant data[..iValue] == Layout(f, lower, step, size, nSubsamples, iSubsample)
    {
      var offset := SubsampleOffset(lower, step, nSubsamples, iSubsample);
      ghost var row := Row(f, lower, step, size, nSubsamples, iSubsample);
      MultipleMono(iSubsample + 1, nSubsamples, size);
      for iStep := 0 to size
        invariant |data| == dataSize
        invariant iValue == Multiple(iSubsample, size) + iStep
        invariant data[..iValue] == Layout(f, lower, step, size, nSubsamples, iSubsample) + row[..iStep]
      {
        var x := offset + iStep as real * step;
        var y := f(x);
        assert x == SamplePoint(lower, step, nSubsamples, iSubsample, iStep);
        assert row[..iStep + 1] == row[..iStep] + [y];
        data := data[iValue := y];
        iValue := iValue + 1;
      }
      assert row[..size] == row;
    }
    assert data[..iValue] == data;
  }

  class SampledFunction {
    var lower: real
    var upper: real
    var nSamples: int
    var nSubsamples: int
    var step: real
    var allSamples: seq<real>

    /** The function the samples were taken of (the source does not keep
     *  it). */
    ghost var sampled: real -> real

    /** Every sample in its place, taken from the configured range. */
    ghost predicate Valid()
      reads this
    {
      nSamples > 0 && nSubsamples > 0 && step > 0.0 && lower <= upper
      && allSamples == Layout(sampled, lower, step, nSamples, nSubsamples, nSubsamples)
    }

    /** The constructor from a range: stores the range and samples
     *  `function` over it.  A positive sample count, subsample count and
     *  step and `lower <= upper` are asserted by the source. */
    constructor (f: real -> real, range: Range, subsamples: int)
      requires range.nSamples > 0 && subsamples > 0
      requires range.lower <= range.upper && range.step > 0.0
      ensures lower == range.lower && upper == range.upper && step == range.step
      ensures nSamples == range.nSamples && nSubsamples == subsamples
      ensures this.sampled == f && Valid()
    {
      lower := range.lower;
      upper := range.upper;
      nSamples := range.nSamples;
      nSubsamples := subsamples;
      step := range.step;
      allSamples := Resize([], range.nSamples * subsamples);
      this.sampled := f;
      new;
      FillSamples(f);
    }

    /** The constructor from `lower`, `upper` and a sample count: the step
     *  divides the range evenly. */
    constructor FromBounds(f: real -> real, lower: real, upper: real, nSamples: int, subsamples: int)
      requires nSamples > 0 && subsamples > 0 && lower < upper
      ensures this.lower == lower && this.upper == upper && this.nSamples == nSamples
      ensures step == (upper - lower) / nSamples as real && nSubsamples == subsamples
      ensures this.sampled == f && Valid()
    {
      this.lower := lower;
      this.upper := upper;
      this.nSamples := nSamples;
      nSubsamples := subsamples;
      step := (upper - lower) / nSamples as real;
      allSamples := Resize([], nSamples * subsamples);
      this.sampled := f;
      new;
      FillSamples(f);
    }

    /** `fillSamples`: resizes the storage to `nSubsamples * size` and writes
     *  every subsample in turn, each step in turn. */
    method FillSamples(f: real -> real)
      requires nSamples > 0 && nSubsamples > 0 && lower <= upper && step > 0.0
      requires f == this.sampled
      modifies this
      ensures Valid()
      ensures lower == old(lower) && upper == old(upper) && step == old(step)
      ensures nSamples == old(nSamples) && nSubsamples == old(nSubsamples)
      ensures this.sampled == old(this.sampled)
    {
      allSamples := Sample(f, lower, step, nSamples, nSubsamples, allSamples);
    }

    /** `value(iSample, n)`: the stored sample `iSample` of subsample `n`,
     *  the function at `iSample` steps from the subsample's offset. */
    function Value(iSample: int, n: int): (y: real)
      reads this
      requires Valid() && 0 <= n < nSubsamples && 0 <= iSample < nSamples
      ensures y == sampled(SamplePoint(lower, step, nSubsamples, n, iSample))
    {
      Subsample(n)[iSample]
    }

    /** `subsample(n)`: the `size` samples of subsample `n`. */
    function Subsample(n: int): (data: seq<real>)
      reads this
      requires Valid() && 0 <= n < nSubsamples
      ensures data == Row(sampled, lower, step, nSamples, nSubsamples, n)
    {
      LayoutSlice(sampled, lower, step, nSamples, nSubsamples, nSubsamples, n);
      MultipleIsProduct(n, nSamples);
      allSamples[nSamples * n .. nSamples * n + nSamples]
    }

    /** `substepSize()`: the distance between the offsets of consecutive
     *  subsamples; `nSubsamples` substeps make one step. */
    function SubstepSize(): (d: real)
      reads this
      requires nSubsamples > 0
      ensures d * nSubsamples as real == step
      ensures forall n :: SubsampleOffset(lower, step, nSubsamples, n) == lower + d * n as real
    {
      step / nSubsamples as real
    }

    /** `rangeSize()`: the length of the sampled range, never negative. */
    function RangeSize(): (size: real)
      reads this
      ensures Valid() ==> size >= 0.0
      ensures size == 0.0 <==> lower == upper
    {
      upper - lower
    }

    /** `stepIndex(x, n)`: the step of subsample `n` that holds `x`, counted
     *  from the subsample's offset; it may lie outside the sampled steps. */
    function StepIndex(x: real, n: int): (k: int)
      reads this
      requires nSubsamples > 0 && step > 0.0
      ensures k as real * step <= x - SubsampleOffset(lower, step, nSubsamples, n) < (k + 1) as real * step
    {
      var dx := x - SubsampleOffset(lower, step, nSubsamples, n);
      FloorOfQuotient(dx, step, Floor(dx / step));
      Floor(dx / step)
    }

    /** `isValidStepIndex(k)`: `k` indexes the samples of a subsample. */
    predicate IsValidStepIndex(k: int): (valid: bool)
      reads this
      ensures Valid() ==> (valid <==> 0 <= k < |Subsample(0)|)
    {
      0 <= k < nSamples
    }
  }

  /** A step holding `x` is the step `stepIndex` names: the index is
   *  unique. */
  lemma {:induction false} StepIndexUnique(sf: SampledFunction, x: real, n: int, k: int)
    requires sf.nSubsamples > 0 && sf.step > 0.0
    requires k as real * sf.step <= x - SubsampleOffset(sf.lower, sf.step, sf.nSubsamples, n) < (k + 1) as real * sf.step
    ensures sf.StepIndex(x, n) == k
  {
    FloorOfQuotient(x - SubsampleOffset(sf.lower, sf.step, sf.nSubsamples, n), sf.step, k);
  }

  /** `x` falls in a sampled step of subsample `n` exactly when it lies in
   *  the `size` steps from the subsample's offset. */
  lemma {:induction false} StepIndexValid(sf: SampledFunction, x: real, n: int)
    requires sf.nSubsamples > 0 && sf.step > 0.0
    ensures sf.IsValidStepIndex(sf.StepIndex(x, n))
            <==> 0.0 <= x - SubsampleOffset(sf.lower, sf.step, sf.nSubsamples, n) < sf.nSamples as real * sf.step
  {
    InSteps(x - SubsampleOffset(sf.lower, sf.step, sf.nSubsamples, n), sf.step, sf.StepIndex(x, n), sf.nSamples);
  }

  /** A distance in step `k` lies within the first `count` steps exactly
   *  when `k` is one of them. */
  lemma {:induction false} InSteps(dx: real, step: real, k: int, count: int)
    requires step > 0.0 && k as real * step <= dx < (k + 1) as real * step
    ensures 0 <= k < count <==> 0.0 <= dx < count as real * step
  {
    var lo, hi, end := k as real * step, (k + 1) as real * step, count as real * step;
    ScalingKeepsOrder(0.0, k as real, step);
    ScalingKeepsOrder(0.0, (k + 1) as real, step);
    assert 0.0 * step == 0.0;
    ScalingKeepsOrder((k + 1) as real, count as real, step);
    ScalingKeepsOrder(k as real, count as real, step);
    if 0 <= k < count {
      assert 0.0 <= lo && hi <= end;
    }
    if 0.0 <= dx < end {
      assert 0.0 < hi && lo < end;
    }
  }

  /** The range constructor's step makes the `nSamples` steps end exactly at
   *  `upper`. */
  lemma {:induction false} BoundsCovered(lower: real, upper: real, nSamples: int)
    requires nSamples > 0
    ensures lower + nSamples as real * ((upper - lower) / nSamples as real) == upper
  {
  }

  /** The end of the range after `k` steps. */
  function EndStep(lower: real, step: real, k: int): real
  {
    lower + step * k as real
  }

  /** `until` asks to stop at the end of step `k`. */
  predicate Stops(f: real -> real, until: (real, real) -> bool, lower: real, step: real, k: int)
  {
    until(EndStep(lower, step, k), f(EndStep(lower, step, k)))
  }

  /** The fewest steps that reach `minUpper`. */
  function StartSamples(lower: real, minUpper: real, step: real): int
    requires step > 0.0
  {
    Ceil((minUpper - lower) / step)
  }

  /** `n` steps is the extension `extendRange` settles on: at least the steps
   *  reaching `minUpper`, `until` accepting every end after those, and
   *  stopping at the next. */
  ghost predicate IsExtension(f: real -> real, until: (real, real) -> bool, lower: real, minUpper: real, step: real, n: int)
    requires step > 0.0
  {
    var start := StartSamples(lower, minUpper, step);
    start <= n && Stops(f, until, lower, step, n + 1)
    && forall k :: start < k <= n ==> !Stops(f, until, lower, step, k)
  }

  /** `extendRange`: from the fewest steps reaching `minUpper`, adds one step
   *  at a time while `until` accepts the end of the next step.  The source
   *  loops as long as `until` says so; `fuel` bounds the steps added here,
   *  and `None` means it ran out. */
  method ExtendRange(f: real -> real, lower: real, minUpper: real, step: real, until: (real, real) -> bool, fuel: nat)
    returns (r: Option<Range>)
    requires minUpper >= lower && step > 0.0
    ensures r.Some? ==> r.value == Range(lower, EndStep(lower, step, r.value.nSamples), step, r.value.nSamples)
    ensures r.Some? ==> IsExtension(f, until, lower, minUpper, step, r.value.nSamples)
    ensures r.None? ==> forall k :: StartSamples(lower, minUpper, step) < k <= StartSamples(lower, minUpper, step) + fuel + 1
                                   ==> !Stops(f, until, lower, step, k)
  {
    var startSamples := Ceil((minUpper - lower) / step);
    var range := Range(lower, EndStep(lower, step, startSamples), step, startSamples);
    var left := fuel;
    while !until(range.upper + range.step, f(range.upper + range.step))
      invariant range == Range(lower, EndStep(lower, step, range.nSamples), step, range.nSamples)
      invariant startSamples <= range.nSamples == startSamples + (fuel - left)
      invariant forall k :: startSamples < k <= range.nSamples ==> !Stops(f, until, lower, step, k)
      decreases left
    {
      assert range.upper + range.step == EndStep(lower, step, range.nSamples + 1);
      if left == 0 {
        return None;
      }
      left := left - 1;
      var nSamples := range.nSamples + 1;
      range := range.(nSamples := nSamples, upper := EndStep(lower, step, nSamples));
    }
    assert range.upper + range.step == EndStep(lower, step, range.nSamples + 1);
    r := Some(range);
  }

  /** The extension covers `minUpper`. */
  lemma {:induction false} ExtensionCovers(f: real -> real, until: (real, real) -> bool, lower: real, minUpper: real, step: real, n: int)
    requires step > 0.0 && IsExtension(f, until, lower, minUpper, step, n)
    ensures minUpper <= EndStep(lower, step, n)
  {
    var start := StartSamples(lower, minUpper, step);
    CeilOfQuotient(minUpper - lower, step, start);
    assert start <= n;
    assert minUpper - lower <= start as real * step;
    ScalingKeepsOrder(start as real, n as real, step);
    assert EndStep(lower, step, n) == lower + n as real * step;
  }

  /** There is only one extension: the result does not depend on how the
   *  loop gets there. */
  lemma {:induction false} ExtensionUnique(f: real -> real, until: (real, real) -> bool, lower: real, minUpper: real, step: real, n: int, m: int)
    requires step > 0.0
    requires IsExtension(f, until, lower, minUpper, step, n) && IsExtension(f, until, lower, minUpper, step, m)
    ensures n == m
  {
    assert n < m ==> !Stops(f, until, lower, step, n + 1);
    assert m < n ==> !Stops(f, until, lower, step, m + 1);
  }

  function Identity(x: real): real
  {
    x
  }

  /** The stopping rule of the example: a negative value, or one at 8.2 or
   *  above. */
  predicate OutsideTest(x: real, y: real)
  {
    y < 0.0 || y >= 8.2
  }

  /** Sampling the identity from -2 in steps of 0.5, covering at least up to
   *  1 and stopping before the function reaches 8.2, takes 20 steps. */
  lemma {:induction false} ExtendedRangeExample(n: int)
    requires IsExtension(Identity, OutsideTest, -2.0, 1.0, 0.5, n)
    ensures n == 20
  {
    CeilOfQuotient(1.0 - -2.0, 0.5, 6);
    assert StartSamples(-2.0, 1.0, 0.5) == 6;
    assert Stops(Identity, OutsideTest, -2.0, 0.5, n + 1);
    assert n > 20 ==> !Stops(Identity, OutsideTest, -2.0, 0.5, 21);
  }

  /** `wrapUp`: adds `range` until `value` is not negative.  The source
   *  calls it with a positive step as `range`. */
  method WrapUp(value: real, range: real) returns (r: real)
    requires range > 0.0
    ensures 0.0 <= r
    ensures value < 0.0 ==> r < range
    ensures r == value + WrapCount(value, range) as real * range
  {
    r := value;
    while r < 0.0
      invariant r == value + WrapCount(value, range) as real * range - WrapCount(r, range) as real * range
      invariant value < 0.0 ==> r < range
      decreases WrapCount(r, range)
    {
      WrapCountStep(r, range);
      r := r + range;
    }
  }

  /** How many times `wrapUp` adds `range` to `value`. */
  function WrapCount(value: real, range: real): (n: nat)
    requires range > 0.0
  {
    if value >= 0.0 then 0 else Ceil(-value / range)
  }

  lemma {:induction false} WrapCountStep(value: real, range: real)
    requires range > 0.0 && value < 0.0
    ensures WrapCount(value + range, range) == WrapCount(value, range) - 1
  {
    var n := Ceil(-value / range);
    CeilOfQuotient(-value, range, n);
    if value + range >= 0.0 {
      CeilOfQuotient(-value, range, 1);
    } else {
      CeilOfQuotient(-(value + range), range, n - 1);
    }
  }
}
