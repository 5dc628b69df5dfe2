/** `opdet::SharedWaveformBaseline`: one common baseline for a group of PMT
 *  waveforms, learned from the first `nSample` samples of each.
 *
 *  ADC samples are integers; averages and RMS values are reals.  The RMS of
 *  a portion (a square root) comes in as the function `rms`. */
module SharedWaveformBaseline {
  import opened Sorting
  import opened RealMath

  /** `Params_t`. */
  datatype Params = Params(nSample: nat, nRMS: real, nExcessSamples: nat)

  /** `BaselineInfo_t::NoInfo`, the largest finite `double`. */
  const NoInfo: real := 179769313486231570814527423731704356798070567525844996598917476803157260780028538760589558632766878171540458953514382464234321326889464182768467546703537516986049910576551282076245490090389328944075868508455133942304583236903222948165808559332123348274797826204144723168738177180919299881250404026184124858368.0

  /** `BaselineInfo_t`; `nSamples == 0` marks the median-of-medians
   *  fallback. */
  datatype BaselineInfo = BaselineInfo(baseline: real, rms: real, nWaveforms: nat, nSamples: nat)

  /** A default-constructed `BaselineInfo_t`. */
  const NoBaseline: BaselineInfo := BaselineInfo(NoInfo, NoInfo, 0, 0)

  type Waveform = seq<int>

  // ---------------------------------------------------------------------------
  // Medians, maxima, sums

  function Reals(s: seq<int>): (r: seq<real>)
    ensures |r| == |s| && forall i :: 0 <= i < |s| ==> r[i] == s[i] as real
  {
    seq(|s|, i requires 0 <= i < |s| => s[i] as real)
  }

  /** `median()` on ADC counts: the sample `std::nth_element` leaves at
   *  position `size/2`. */
  function Median(s: seq<int>): (m: int)
    requires |s| > 0
    ensures m in s
    ensures m as real == MedianAt(Reals(s))
  {
    MedianIsSample(s);
    Floor(MedianAt(Reals(s)))
  }

  lemma {:induction false} MedianIsSample(s: seq<int>)
    requires |s| > 0
    ensures exists i :: 0 <= i < |s| && s[i] as real == MedianAt(Reals(s))
  {
    var r := Reals(s);
    assert MedianAt(r) in multiset(r);
    assert MedianAt(r) in r;
  }

  /** `collectionMaximum()`. */
  function Maximum(s: seq<int>): (m: int)
    requires |s| > 0
    ensures m in s && forall i :: 0 <= i < |s| ==> s[i] <= m
  {
    if |s| == 1 then s[0]
    else
      var m := Maximum(s[..|s| - 1]);
      assert forall i :: 0 <= i < |s| - 1 ==> s[..|s| - 1][i] == s[i];
      if s[|s| - 1] > m then s[|s| - 1] else m
  }

  function Sum(s: seq<int>): int
  {
    if s == [] then 0 else Sum(s[..|s| - 1]) + s[|s| - 1]
  }

  /** `StatCollector::Average()` of the samples. */
  function Average(s: seq<int>): real
    requires |s| > 0
  {
    Sum(s) as real / |s| as real
  }

  /** An average lies between the smallest and the largest sample. */
  lemma {:induction false} SumBounds(s: seq<int>, lo: int, hi: int)
    requires forall i :: 0 <= i < |s| ==> lo <= s[i] <= hi
    ensures |s| * lo <= Sum(s) <= |s| * hi
  {
    if s != [] {
      SumBounds(s[..|s| - 1], lo, hi);
    }
  }

  lemma {:induction false} AverageBounds(s: seq<int>, lo: int, hi: int)
    requires |s| > 0 && forall i :: 0 <= i < |s| ==> lo <= s[i] <= hi
    ensures lo as real <= Average(s) <= hi as real
  {
    SumBounds(s, lo, hi);
    var n := |s| as real;
    var total := Sum(s) as real;
    assert n * lo as real <= total <= n * hi as real by {
      ProductAsReal(|s|, lo);
      ProductAsReal(|s|, hi);
    }
    QuotientBounds(total, n, lo as real, hi as real);
  }

  lemma {:induction false} ProductAsReal(a: int, b: int)
    ensures (a * b) as real == a as real * b as real
  {
  }

  /** Bounds on `n` times a value bound the value. */
  lemma {:induction false} QuotientBounds(x: real, n: real, a: real, b: real)
    requires n > 0.0 && n * a <= x <= n * b
    ensures a <= x / n <= b
  {
    ScaledBound(x / n, x, n, a);
    ScaledBound(x / n, x, n, b);
  }

  /** `std::round`: to the nearest integer, halfway cases away from zero. */
  function Round(x: real): (n: int)
    ensures n as real - 0.5 <= x <= n as real + 0.5
    ensures x >= 0.0 ==> x - 0.5 < n as real
    ensures x < 0.0 ==> n as real < x + 0.5
  {
    if x >= 0.0 then Floor(x + 0.5) else -Floor(-x + 0.5)
  }

  /** Rounding keeps the order. */
  lemma {:induction false} RoundMonotonic(x: real, y: real)
    requires x <= y
    ensures Round(x) <= Round(y)
  {
    if 0.0 <= x {
      FloorMonotonic(x + 0.5, y + 0.5);
    } else if y < 0.0 {
      FloorMonotonic(-y + 0.5, -x + 0.5);
    }
  }

  lemma {:induction false} FloorMonotonic(a: real, b: real)
    requires a <= b
    ensures Floor(a) <= Floor(b)
  {
  }

  // ---------------------------------------------------------------------------
  // `findOutOfBoundary`

  /** How many samples in a row above `upper` end at `j`. */
  function AboveRun(s: seq<int>, upper: int, j: int): (n: nat)
    requires j < |s|
  {
    if j < 0 || s[j] <= upper then 0 else AboveRun(s, upper, j - 1) + 1
  }

  /** How many samples in a row below `lower` end at `j`. */
  function BelowRun(s: seq<int>, lower: int, j: int): (n: nat)
    requires j < |s|
  {
    if j < 0 || s[j] >= lower then 0 else BelowRun(s, lower, j - 1) + 1
  }

  /** The `m` samples ending at `j` are all above `upper`. */
  predicate AllAbove(s: seq<int>, upper: int, j: int, m: nat)
    requires j < |s|
  {
    m <= j + 1 && forall k :: j - m < k <= j ==> s[k] > upper
  }

  /** The `m` samples ending at `j` are all below `lower`. */
  predicate AllBelow(s: seq<int>, lower: int, j: int, m: nat)
    requires j < |s|
  {
    m <= j + 1 && forall k :: j - m < k <= j ==> s[k] < lower
  }

  lemma {:induction false} AboveRunMeans(s: seq<int>, upper: int, j: int, m: nat)
    requires -1 <= j < |s|
    ensures AboveRun(s, upper, j) >= m <==> AllAbove(s, upper, j, m)
    decreases m
  {
    if m == 0 || j < 0 {
    } else if s[j] <= upper {
      assert !AllAbove(s, upper, j, m);
    } else {
      AboveRunMeans(s, upper, j - 1, m - 1);
      assert AllAbove(s, upper, j, m) <==> AllAbove(s, upper, j - 1, m - 1);
    }
  }

  lemma {:induction false} BelowRunMeans(s: seq<int>, lower: int, j: int, m: nat)
    requires -1 <= j < |s|
    ensures BelowRun(s, lower, j) >= m <==> AllBelow(s, lower, j, m)
    decreases m
  {
    if m == 0 || j < 0 {
    } else if s[j] >= lower {
      assert !AllBelow(s, lower, j, m);
    } else {
      BelowRunMeans(s, lower, j - 1, m - 1);
      assert AllBelow(s, lower, j, m) <==> AllBelow(s, lower, j - 1, m - 1);
    }
  }

  /** An excess run ends at sample `j`: `maxUpper` samples above `upper` or
   *  `maxLower` samples below `lower` in a row. */
  predicate ExcessEndsAt(s: seq<int>, lower: int, upper: int, maxLower: nat, maxUpper: nat, j: int)
    requires 0 <= j < |s|
  {
    AllAbove(s, upper, j, maxUpper) || AllBelow(s, lower, j, maxLower)
  }

  /** No excess run anywhere in `s`. */
  predicate InBoundary(s: seq<int>, lower: int, upper: int, maxLower: nat, maxUpper: nat)
  {
    forall j :: 0 <= j < |s| ==> !ExcessEndsAt(s, lower, upper, maxLower, maxUpper, j)
  }

  /** `findOutOfBoundary`: counts samples in a row above `upper` and below
   *  `lower` (an in-range sample resets both counts, an out-of-range one the
   *  opposite count) and returns where the first run of `maxUpper` samples
   *  above, or of `maxLower` below, starts; `|s|` if there is none. */
  method FindOutOfBoundary(s: seq<int>, lower: int, upper: int, maxLower: nat, maxUpper: nat) returns (r: nat)
    requires lower <= upper && maxLower > 0 && maxUpper > 0
    ensures r <= |s|
    ensures r == |s| <==> InBoundary(s, lower, upper, maxLower, maxUpper)
    ensures r < |s| ==> exists j :: r <= j < |s| && ExcessEndsAt(s, lower, upper, maxLower, maxUpper, j)
                          && (forall i :: 0 <= i < j ==> !ExcessEndsAt(s, lower, upper, maxLower, maxUpper, i))
                          && r == (if s[j] > upper then j - maxUpper + 1 else j - maxLower + 1)
  {
    var nAbove, nBelow := 0, 0;
    for i := 0 to |s|
      invariant nAbove == AboveRun(s, upper, i - 1) < maxUpper
      invariant nBelow == BelowRun(s, lower, i - 1) < maxLower
      invariant forall j :: 0 <= j < i ==> !ExcessEndsAt(s, lower, upper, maxLower, maxUpper, j)
    {
      AboveRunMeans(s, upper, i, maxUpper);
      BelowRunMeans(s, lower, i, maxLower);
      if s[i] > upper {
        nAbove := nAbove + 1;
        if nAbove >= maxUpper {
          assert ExcessEndsAt(s, lower, upper, maxLower, maxUpper, i);
          return i - maxUpper + 1;
        }
        nBelow := 0;
        continue;
      }
      if s[i] < lower {
        nBelow := nBelow + 1;
        if nBelow >= maxLower {
          assert ExcessEndsAt(s, lower, upper, maxLower, maxUpper, i);
          return i - maxLower + 1;
        }
        nAbove := 0;
        continue;
      }
      nAbove, nBelow := 0, 0;
    }
    return |s|;
  }

  /** Runs count on one side at a time: samples alternating above and below
   *  the range are never an excess run, however many there are. */
  lemma {:induction false} AlternatingIsInBoundary()
    ensures InBoundary([10, -10, 10, -10], -1, 1, 2, 2)
  {
    var s := [10, -10, 10, -10];
    forall j | 0 <= j < 4
      ensures !ExcessEndsAt(s, -1, 1, 2, 2, j)
    {
      if j > 0 {
        assert !(s[j - 1] > 1 && s[j] > 1) && !(s[j - 1] < -1 && s[j] < -1);
      }
    }
  }

  // ---------------------------------------------------------------------------
  // The two passes

  /** The first `nSample` samples of each waveform long enough to have
   *  them, in order (the portions `acceptanceRange` learns from). */
  function Portions(ws: seq<Waveform>, nSample: nat): (ps: seq<Waveform>)
    ensures forall i :: 0 <= i < |ps| ==> |ps[i]| == nSample
  {
    if ws == [] then []
    else
      var w := ws[|ws| - 1];
      Portions(ws[..|ws| - 1], nSample) + (if |w| < nSample then [] else [w[..nSample]])
  }

  /** The waveforms' samples one after the other. */
  function Joined(ws: seq<Waveform>): seq<int>
  {
    if ws == [] then [] else Joined(ws[..|ws| - 1]) + ws[|ws| - 1]
  }

  /** Joined portions of `nSample` samples each hold `nSample` samples per
   *  portion. */
  lemma {:induction false} JoinedSize(ps: seq<Waveform>, nSample: nat)
    requires forall i :: 0 <= i < |ps| ==> |ps[i]| == nSample
    ensures |Joined(ps)| == |ps| * nSample
    ensures ps != [] ==> |Joined(ps)| >= nSample
  {
    if ps != [] {
      var init := ps[..|ps| - 1];
      JoinedSize(init, nSample);
      assert |Joined(ps)| == |Joined(init)| + nSample;
      OneMorePortion(|init|, nSample);
    }
  }

  lemma {:induction false} OneMorePortion(n: nat, nSample: nat)
    ensures n * nSample + nSample == (n + 1) * nSample
  {
  }

  /** The RMS of each portion, in order. */
  function RMSs(ps: seq<Waveform>, rms: seq<int> -> real): (rs: seq<real>)
    ensures |rs| == |ps|
    ensures forall i :: 0 <= i < |ps| ==> rs[i] == rms(ps[i])
  {
    if ps == [] then [] else RMSs(ps[..|ps| - 1], rms) + [rms(ps[|ps| - 1])]
  }

  /** `acceptanceRange`: the median of the samples in the first `nSample`
   *  samples of every waveform that has that many, and the median of their
   *  RMS values.  The source asserts that there is some sample to take the
   *  median of. */
  method AcceptanceRange(nSample: nat, ws: seq<Waveform>, rms: seq<int> -> real) returns (med: int, medRMS: real)
    requires nSample > 0 && exists w :: w in ws && |w| >= nSample
    ensures |Joined(Portions(ws, nSample))| > 0 && med == Median(Joined(Portions(ws, nSample)))
    ensures medRMS == MedianAt(RMSs(Portions(ws, nSample), rms))
  {
    var samples: seq<int> := [];
    var rmss: seq<real> := [];
    ghost var portions: seq<Waveform> := [];
    for i := 0 to |ws|
      invariant portions == Portions(ws[..i], nSample)
      invariant samples == Joined(portions)
      invariant rmss == RMSs(portions, rms)
    {
      assert ws[..i + 1][..i] == ws[..i];
      var w := ws[i];
      if |w| < nSample {
        continue;
      }
      var portion := w[..nSample];
      rmss := rmss + [rms(portion)];
      samples := samples + portion;
      assert (portions + [portion])[..|portions|] == portions;
      portions := portions + [portion];
    }
    assert ws[..|ws|] == ws;
    var k :| 0 <= k < |ws| && |ws[k]| >= nSample;
    PortionsNonEmpty(ws, nSample, k);
    JoinedSize(portions, nSample);
    med := Median(samples);
    medRMS := MedianAt(rmss);
  }

  lemma {:induction false} PortionsNonEmpty(ws: seq<Waveform>, nSample: nat, k: nat)
    requires k < |ws| && |ws[k]| >= nSample
    ensures |Portions(ws, nSample)| > 0
  {
    if k < |ws| - 1 {
      PortionsNonEmpty(ws[..|ws| - 1], nSample, k);
    }
  }

  /** Every waveform of a nonempty list holding `nSample > 0` samples leaves
   *  samples to take the median of. */
  lemma {:induction false} PortionSamples(ws: seq<Waveform>, nSample: nat)
    requires ws != [] && nSample > 0
    requires forall i :: 0 <= i < |ws| ==> |ws[i]| >= nSample
    ensures |Joined(Portions(ws, nSample))| > 0
  {
    PortionsNonEmpty(ws, nSample, 0);
    JoinedSize(Portions(ws, nSample), nSample);
  }

  /** The centre of the acceptance range. */
  function AcceptanceMedian(ws: seq<Waveform>, nSample: nat): int
    requires ws != [] && nSample > 0
    requires forall i :: 0 <= i < |ws| ==> |ws[i]| >= nSample
  {
    PortionSamples(ws, nSample);
    Median(Joined(Portions(ws, nSample)))
  }

  /** The median RMS, the unit of the acceptance range's half width. */
  function AcceptanceRMS(ws: seq<Waveform>, nSample: nat, rms: seq<int> -> real): (r: real)
    requires ws != [] && nSample > 0
    requires forall i :: 0 <= i < |ws| ==> |ws[i]| >= nSample
    requires forall p :: rms(p) >= 0.0
    ensures r >= 0.0
  {
    PortionsNonEmpty(ws, nSample, 0);
    var rs := RMSs(Portions(ws, nSample), rms);
    assert MedianAt(rs) in rs;
    MedianAt(rs)
  }

  /** The acceptance range around `med`, `nRMS` times `medRMS` wide on
   *  either side, both ends `std::round`ed. */
  function RangeAround(med: int, medRMS: real, nRMS: real): (int, int)
    requires medRMS >= 0.0 && nRMS >= 0.0
  {
    var halfWidth := HalfWidth(medRMS, nRMS);
    (Round(med as real - halfWidth), Round(med as real + halfWidth))
  }

  /** The range is never inverted: its half width is not negative. */
  lemma {:induction false} RangeNotInverted(med: int, medRMS: real, nRMS: real)
    requires medRMS >= 0.0 && nRMS >= 0.0
    ensures RangeAround(med, medRMS, nRMS).0 <= RangeAround(med, medRMS, nRMS).1
  {
    var halfWidth := HalfWidth(medRMS, nRMS);
    RoundMonotonic(med as real - halfWidth, med as real + halfWidth);
  }

  /** The lowest sample inside the acceptance range, `std::round`ed. */
  function LowerThreshold(params: Params, ws: seq<Waveform>, rms: seq<int> -> real): int
    requires ws != [] && params.nSample > 0 && params.nRMS >= 0.0
    requires forall i :: 0 <= i < |ws| ==> |ws[i]| >= params.nSample
    requires forall p :: rms(p) >= 0.0
  {
    RangeAround(AcceptanceMedian(ws, params.nSample), AcceptanceRMS(ws, params.nSample, rms), params.nRMS).0
  }

  /** The highest sample inside the acceptance range, `std::round`ed. */
  function UpperThreshold(params: Params, ws: seq<Waveform>, rms: seq<int> -> real): int
    requires ws != [] && params.nSample > 0 && params.nRMS >= 0.0
    requires forall i :: 0 <= i < |ws| ==> |ws[i]| >= params.nSample
    requires forall p :: rms(p) >= 0.0
  {
    RangeAround(AcceptanceMedian(ws, params.nSample), AcceptanceRMS(ws, params.nSample, rms), params.nRMS).1
  }

  /** The thresholds of a set of waveforms are never inverted. */
  lemma {:induction false} ThresholdsOrdered(params: Params, ws: seq<Waveform>, rms: seq<int> -> real)
    requires ws != [] && params.nSample > 0 && params.nRMS >= 0.0
    requires forall i :: 0 <= i < |ws| ==> |ws[i]| >= params.nSample
    requires forall p :: rms(p) >= 0.0
    ensures LowerThreshold(params, ws, rms) <= UpperThreshold(params, ws, rms)
  {
    RangeNotInverted(AcceptanceMedian(ws, params.nSample), AcceptanceRMS(ws, params.nSample, rms), params.nRMS);
  }

  /** How far the acceptance range reaches on either side of its centre:
   *  `nRMS` times the median RMS. */
  function HalfWidth(medRMS: real, nRMS: real): (w: real)
    requires medRMS >= 0.0 && nRMS >= 0.0
    ensures w >= 0.0
  {
    ProductNonNegative(medRMS, nRMS);
    medRMS * nRMS
  }

  lemma {:induction false} ProductNonNegative(a: real, b: real)
    requires a >= 0.0 && b >= 0.0
    ensures a * b >= 0.0
  {
    if b > 0.0 {
      ScalingKeepsOrder(0.0, a, b);
    }
  }

  /** The portions of the waveforms with no excess run in them, in order: the
   *  ones the baseline is averaged from. */
  function Used(ws: seq<Waveform>, nSample: nat, lower: int, upper: int, nExcess: nat): (us: seq<Waveform>)
    requires forall i :: 0 <= i < |ws| ==> |ws[i]| >= nSample
    ensures |us| <= |ws|
    ensures forall i :: 0 <= i < |us| ==> |us[i]| == nSample && InBoundary(us[i], lower, upper, nExcess, nExcess)
  {
    if ws == [] then []
    else
      var p := ws[|ws| - 1][..nSample];
      Used(ws[..|ws| - 1], nSample, lower, upper, nExcess)
        + (if InBoundary(p, lower, upper, nExcess, nExcess) then [p] else [])
  }

  lemma {:induction false} SumConcat(a: seq<int>, b: seq<int>)
    ensures Sum(a + b) == Sum(a) + Sum(b)
  {
    if b != [] {
      assert (a + b)[..|a + b| - 1] == a + b[..|b| - 1];
      SumConcat(a, b[..|b| - 1]);
    } else {
      assert a + b == a;
    }
  }

  /** The second pass of `operator()`: the first `nSample` samples of every
   *  waveform with no excess run in them, summed and counted. */
  method CollectSamples(ws: seq<Waveform>, nSample: nat, belowThreshold: int, aboveThreshold: int, nExcess: nat)
    returns (sum: int, nSamples: nat, nUsedWaveforms: nat)
    requires belowThreshold <= aboveThreshold && nExcess > 0
    requires forall i :: 0 <= i < |ws| ==> |ws[i]| >= nSample
    ensures nUsedWaveforms == |Used(ws, nSample, belowThreshold, aboveThreshold, nExcess)|
    ensures sum == Sum(Joined(Used(ws, nSample, belowThreshold, aboveThreshold, nExcess)))
    ensures nSamples == |Joined(Used(ws, nSample, belowThreshold, aboveThreshold, nExcess))|
  {
    sum, nSamples, nUsedWaveforms := 0, 0, 0;
    ghost var used: seq<Waveform> := [];
    for i := 0 to |ws|
      invariant used == Used(ws[..i], nSample, belowThreshold, aboveThreshold, nExcess)
      invariant nUsedWaveforms == |used|
      invariant sum == Sum(Joined(used)) && nSamples == |Joined(used)|
    {
      assert ws[..i + 1][..i] == ws[..i];
      var portion := ws[i][..nSample];
      var firstExcess := FindOutOfBoundary(portion, belowThreshold, aboveThreshold, nExcess, nExcess);
      if firstExcess != |portion| {
        continue;
      }
      nUsedWaveforms := nUsedWaveforms + 1;
      SumConcat(Joined(used), portion);
      sum, nSamples := sum + Sum(portion), nSamples + |portion|;
      assert (used + [portion])[..|used|] == used;
      used := used + [portion];
    }
    assert ws[..|ws|] == ws;
  }

  /** `operator()`: the common baseline of `ws`.
   *
   *  Learns the acceptance range, then averages the first `nSample` samples
   *  of every waveform with no excess run in them; if none qualifies, falls
   *  back to the median of the waveforms' medians and reports no samples.
   *  An empty list gives the default `BaselineInfo_t`.  The source reads
   *  the first `nSample` samples of every waveform and asserts that the
   *  range is not inverted and that an excess run is at least one sample. */
  method Baseline(params: Params, ws: seq<Waveform>, rms: seq<int> -> real) returns (info: BaselineInfo)
    requires params.nExcessSamples > 0 && params.nRMS >= 0.0
    requires forall p :: rms(p) >= 0.0
    requires ws != [] ==> params.nSample > 0
    requires forall i :: 0 <= i < |ws| ==> |ws[i]| >= params.nSample
    ensures ws == [] ==> info == NoBaseline
    ensures ws != [] ==> info.rms == AcceptanceRMS(ws, params.nSample, rms)
    ensures ws != [] ==>
      BaselineOf(info, ws, params.nSample,
                 Used(ws, params.nSample, LowerThreshold(params, ws, rms), UpperThreshold(params, ws, rms), params.nExcessSamples))
  {
    if ws == [] {
      return NoBaseline;
    }
    var belowThreshold, aboveThreshold, medRMS := Thresholds(params, ws, rms);
    var sum, nSamples, nUsedWaveforms := CollectSamples(ws, params.nSample, belowThreshold, aboveThreshold, params.nExcessSamples);
    ghost var used := Used(ws, params.nSample, belowThreshold, aboveThreshold, params.nExcessSamples);
    if nSamples > 0 {
      info := BaselineInfo(sum as real / nSamples as real, medRMS, nUsedWaveforms, nSamples);
      AveragedBaseline(info, ws, params.nSample, used);
    } else {
      assert ws[0] != [];
      var medianOfMedians := MedianOfMedians(ws);
      info := BaselineInfo(medianOfMedians as real, medRMS, |ws|, 0);
      FallbackBaseline(info, ws, params.nSample, used);
    }
  }

  lemma {:induction false} AveragedBaseline(info: BaselineInfo, ws: seq<Waveform>, nSample: nat, used: seq<Waveform>)
    requires forall i :: 0 <= i < |used| ==> |used[i]| == nSample
    requires info.nSamples == |Joined(used)| > 0 && info.nWaveforms == |used|
    requires info.baseline == Sum(Joined(used)) as real / |Joined(used)| as real
    ensures BaselineOf(info, ws, nSample, used)
  {
    JoinedSize(used, nSample);
  }

  lemma {:induction false} FallbackBaseline(info: BaselineInfo, ws: seq<Waveform>, nSample: nat, used: seq<Waveform>)
    requires nSample > 0 && forall i :: 0 <= i < |used| ==> |used[i]| == nSample
    requires info.nSamples == |Joined(used)| == 0 && info.nWaveforms == |ws|
    requires |Medians(ws)| > 0 && info.baseline == Median(Medians(ws)) as real
    ensures BaselineOf(info, ws, nSample, used)
  {
    JoinedSize(used, nSample);
  }

  /** The first pass of `operator()`: the acceptance range around the
   *  median sample, `nRMS` median RMS wide on either side, rounded. */
  method Thresholds(params: Params, ws: seq<Waveform>, rms: seq<int> -> real)
    returns (belowThreshold: int, aboveThreshold: int, medRMS: real)
    requires ws != [] && params.nSample > 0 && params.nRMS >= 0.0
    requires forall i :: 0 <= i < |ws| ==> |ws[i]| >= params.nSample
    requires forall p :: rms(p) >= 0.0
    ensures belowThreshold == LowerThreshold(params, ws, rms) && aboveThreshold == UpperThreshold(params, ws, rms)
    ensures belowThreshold <= aboveThreshold
    ensures medRMS == AcceptanceRMS(ws, params.nSample, rms)
  {
    assert ws[0] in ws;
    var med;
    med, medRMS := AcceptanceRange(params.nSample, ws, rms);
    var range := RangeAround(med, medRMS, params.nRMS);
    belowThreshold, aboveThreshold := range.0, range.1;
    RangeNotInverted(med, medRMS, params.nRMS);
  }

  /** `info` reports the average of the `used` portions of `nSample`
   *  samples each, or, when there are none, the median of the waveforms'
   *  medians with no samples. */
  ghost predicate BaselineOf(info: BaselineInfo, ws: seq<Waveform>, nSample: nat, used: seq<Waveform>)
  {
    && info.nSamples == |used| * nSample
    && (info.nSamples == 0 <==> used == [])
    && (used != [] ==> |Joined(used)| > 0 && info.nWaveforms == |used| && info.baseline == Average(Joined(used)))
    && (used == [] ==> info.nWaveforms == |ws| && |Medians(ws)| > 0 && info.baseline == Median(Medians(ws)) as real)
  }

  /** With runs of a single sample excluded, every averaged sample lies in
   *  the acceptance range, and so does the baseline. */
  lemma {:induction false} SingleExcessKeepsBaselineInRange(ws: seq<Waveform>, nSample: nat, lower: int, upper: int)
    requires forall i :: 0 <= i < |ws| ==> |ws[i]| >= nSample
    requires Used(ws, nSample, lower, upper, 1) != [] && nSample > 0
    ensures lower as real <= Average(Joined(Used(ws, nSample, lower, upper, 1))) <= upper as real
  {
    var used := Used(ws, nSample, lower, upper, 1);
    JoinedSize(used, nSample);
    forall i | 0 <= i < |used|
      ensures forall k :: 0 <= k < |used[i]| ==> lower <= used[i][k] <= upper
    {
      forall k | 0 <= k < |used[i]|
        ensures lower <= used[i][k] <= upper
      {
        assert !ExcessEndsAt(used[i], lower, upper, 1, 1, k);
      }
    }
    JoinedInRange(used, lower, upper);
    AverageBounds(Joined(used), lower, upper);
  }

  lemma {:induction false} JoinedInRange(ws: seq<Waveform>, lower: int, upper: int)
    requires forall i :: 0 <= i < |ws| ==> forall k :: 0 <= k < |ws[i]| ==> lower <= ws[i][k] <= upper
    ensures forall k :: 0 <= k < |Joined(ws)| ==> lower <= Joined(ws)[k] <= upper
  {
    if ws != [] {
      JoinedInRange(ws[..|ws| - 1], lower, upper);
      var a, b := Joined(ws[..|ws| - 1]), ws[|ws| - 1];
      assert forall k :: |a| <= k < |a + b| ==> (a + b)[k] == b[k - |a|];
    }
  }

  /** The median of each nonempty waveform, in order. */
  function Medians(ws: seq<Waveform>): (ms: seq<int>)
    ensures |ms| <= |ws|
  {
    if ws == [] then []
    else
      var w := ws[|ws| - 1];
      Medians(ws[..|ws| - 1]) + (if w == [] then [] else [Median(w)])
  }

  /** A nonempty waveform has a median among them. */
  lemma {:induction false} MediansNonEmpty(ws: seq<Waveform>, k: nat)
    requires k < |ws| && ws[k] != []
    ensures |Medians(ws)| > 0
  {
    if k < |ws| - 1 {
      MediansNonEmpty(ws[..|ws| - 1], k);
    }
  }

  /** One more waveform adds its median, unless it is empty. */
  lemma {:induction false} MediansStep(ws: seq<Waveform>, i: nat)
    requires i < |ws|
    ensures Medians(ws[..i + 1]) == Medians(ws[..i]) + (if ws[i] == [] then [] else [Median(ws[i])])
  {
    assert ws[..i + 1][..i] == ws[..i];
  }

  /** `waveformMedians`: the median of each waveform, skipping empty ones. */
  method WaveformMedians(ws: seq<Waveform>) returns (medians: seq<int>)
    ensures medians == Medians(ws)
  {
    medians := [];
    for i := 0 to |ws|
      invariant medians == Medians(ws[..i])
    {
      MediansStep(ws, i);
      if ws[i] == [] {
        continue;
      }
      medians := medians + [Median(ws[i])];
    }
    assert ws[..|ws|] == ws;
  }

  /** `medianOfMedians`.  The source asserts there is a median to take. */
  method MedianOfMedians(ws: seq<Waveform>) returns (m: int)
    requires exists k :: 0 <= k < |ws| && ws[k] != []
    ensures |Medians(ws)| > 0 && m == Median(Medians(ws))
    ensures m in Medians(ws)
  {
    var k :| 0 <= k < |ws| && ws[k] != [];
    MediansNonEmpty(ws, k);
    var medians := WaveformMedians(ws);
    m := Median(medians);
  }

  /** `maximumOfMedians`: the largest of the waveform medians.  The source
   *  asserts there is one. */
  method MaximumOfMedians(ws: seq<Waveform>) returns (m: int)
    requires exists k :: 0 <= k < |ws| && ws[k] != []
    ensures |Medians(ws)| > 0 && m in Medians(ws)
    ensures forall i :: 0 <= i < |Medians(ws)| ==> Medians(ws)[i] <= m
  {
    var k :| 0 <= k < |ws| && ws[k] != [];
    MediansNonEmpty(ws, k);
    var medians := WaveformMedians(ws);
    m := Maximum(medians);
  }

  /** The largest sample of each nonempty waveform, in order. */
  function Maxima(ws: seq<Waveform>): (ms: seq<int>)
    ensures |ms| <= |ws|
  {
    if ws == [] then []
    else
      var w := ws[|ws| - 1];
      Maxima(ws[..|ws| - 1]) + (if w == [] then [] else [Maximum(w)])
  }

  /** One more waveform adds its largest sample, unless it is empty. */
  lemma {:induction false} MaximaStep(ws: seq<Waveform>, i: nat)
    requires i < |ws|
    ensures Maxima(ws[..i + 1]) == Maxima(ws[..i]) + (if ws[i] == [] then [] else [Maximum(ws[i])])
  {
    assert ws[..i + 1][..i] == ws[..i];
  }

  lemma {:induction false} MaximaNonEmpty(ws: seq<Waveform>, k: nat)
    requires k < |ws| && ws[k] != []
    ensures |Maxima(ws)| > 0
  {
    if k < |ws| - 1 {
      MaximaNonEmpty(ws[..|ws| - 1], k);
    }
  }

  /** `maximaMedian`: the median of the largest sample of each nonempty
   *  waveform.  The source asserts there is one. */
  method MaximaMedian(ws: seq<Waveform>) returns (m: int)
    requires exists k :: 0 <= k < |ws| && ws[k] != []
    ensures |Maxima(ws)| > 0 && m == Median(Maxima(ws))
  {
    var k :| 0 <= k < |ws| && ws[k] != [];
    MaximaNonEmpty(ws, k);
    var maxima := [];
    for i := 0 to |ws|
      invariant maxima == Maxima(ws[..i])
    {
      MaximaStep(ws, i);
      if ws[i] == [] {
        continue;
      }
      maxima := maxima + [Maximum(ws[i])];
    }
    assert ws[..|ws|] == ws;
    m := Median(maxima);
  }

  // ---------------------------------------------------------------------------
  // The samples `acceptanceRange` takes the median of

  /** As written, `acceptanceRange` copies the whole of every waveform long
   *  enough into the samples it takes the median of, not only the first
   *  `nSample` samples it computes the RMS on. */
  function SamplesAsWritten(ws: seq<Waveform>, nSample: nat): seq<int>
  {
    if ws == [] then []
    else
      var w := ws[|ws| - 1];
      SamplesAsWritten(ws[..|ws| - 1], nSample) + (if |w| < nSample then [] else w)
  }

  /** A waveform starting at 0 and settling at 10: learning from its first
   *  sample, the median is 0, while the whole waveform's median is 10. */
  lemma {:induction false} WholeWaveformShiftsMedian()
    ensures Median(SamplesAsWritten([[0, 10, 10]], 1)) == 10
    ensures Median(Joined(Portions([[0, 10, 10]], 1))) == 0
  {
    MedianAsWrittenOfSettling();
    MedianOfFirstSample();
  }

  lemma {:induction false} MedianAsWrittenOfSettling()
    ensures Median(SamplesAsWritten([[0, 10, 10]], 1)) == 10
  {
    var whole := SamplesAsWritten([[0, 10, 10]], 1);
    WholeSettlingWaveform();
    assert Reals(whole) == [0.0, 10.0, 10.0];
    MedianOfSettling();
  }

  lemma {:induction false} MedianOfFirstSample()
    ensures Median(Joined(Portions([[0, 10, 10]], 1))) == 0
  {
    var first := Joined(Portions([[0, 10, 10]], 1));
    FirstSampleOfSettling();
    assert Reals(first) == [0.0];
    MedianOfOne();
  }

  /** The samples the source learns from are the whole waveform. */
  lemma {:induction false} WholeSettlingWaveform()
    ensures SamplesAsWritten([[0, 10, 10]], 1) == [0, 10, 10]
  {
    var ws: seq<Waveform> := [[0, 10, 10]];
    assert ws[..0] == [];
  }

  /** The samples meant to be learnt from are the first one only. */
  lemma {:induction false} FirstSampleOfSettling()
    ensures Joined(Portions([[0, 10, 10]], 1)) == [0]
  {
    var ws: seq<Waveform> := [[0, 10, 10]];
    assert ws[..0] == [];
    assert ws[0][..1] == [0];
    assert Portions(ws, 1) == [[0]];
    assert [[0]][..0] == [];
  }

  /** The median of the samples 0, 10, 10 is 10. */
  lemma {:induction false} MedianOfSettling()
    ensures MedianAt([0.0, 10.0, 10.0]) == 10.0
  {
    var m := MedianAt([0.0, 10.0, 10.0]);
    assert m in [0.0, 10.0, 10.0];
    SettlingCounts();
  }

  /** The median of the single sample 0 is 0. */
  lemma {:induction false} MedianOfOne()
    ensures MedianAt([0.0]) == 0.0
  {
    assert MedianAt([0.0]) in [0.0];
  }

  /** Only one of the samples 0, 10, 10 is at most 0. */
  lemma {:induction false} SettlingCounts()
    ensures CountAtMost([0.0, 10.0, 10.0], 0.0) == 1
  {
    assert [0.0, 10.0, 10.0][1..] == [10.0, 10.0];
    assert [10.0, 10.0][1..] == [10.0];
    assert [10.0][1..] == [];
  }
}
