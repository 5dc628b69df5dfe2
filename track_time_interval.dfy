/** Time ranges of tracks from their hits (`TrackTimeInterval`): ranges with
 *  possibly undefined bounds, their intersection, the merge of the two drift
 *  volumes around a cathode and the reduction over TPC sets and cryostats.
 *
 *  Electronics times are reals; the source's `UndefinedTime` (the lowest
 *  representable time) is the `Undefined` constructor, ordered below every
 *  defined time exactly as the lowest value is. */
module TrackTimeInterval {
  import opened Wrappers
  import TimeIntervals

  datatype Time = Undefined | At(t: real)

  /** `a < b` on the source's representation. */
  predicate Less(a: Time, b: Time)
  {
    match (a, b)
    case (Undefined, At(_)) => true
    case (At(x), At(y)) => x < y
    case _ => false
  }

  /** `std::min`. */
  function LowerOf(a: Time, b: Time): (r: Time)
    ensures r == a || r == b
    ensures !Less(a, r) && !Less(b, r)
  {
    if Less(b, a) then b else a
  }

  /** `std::max`. */
  function HigherOf(a: Time, b: Time): (r: Time)
    ensures r == a || r == b
    ensures !Less(r, a) && !Less(r, b)
  {
    if Less(a, b) then b else a
  }

  datatype TimeRange = TimeRange(start: Time, stop: Time)
  {
    /** A range is valid when at least one bound is defined: only the
     *  default range, with neither bound, is invalid. */
    predicate IsValid()
      ensures !IsValid() <==> this == InvalidRange
    {
      start.At? || stop.At?
    }

    /** Containment with margins: an undefined bound does not constrain its
     *  side; otherwise `start - startMargin <= time < stop + stopMargin`. */
    predicate ContainsWithin(time: real, startMargin: real, stopMargin: real)
      ensures start.At? && stop.At? ==>
        (ContainsWithin(time, startMargin, stopMargin) <==>
         TimeIntervals.Interval(start.t - startMargin, stop.t + stopMargin).Contains(time))
    {
      (start.Undefined? || time >= start.t - startMargin)
        && (stop.Undefined? || time < stop.t + stopMargin)
    }

    /** Containment with one margin on both sides; a non-negative margin
     *  only widens the range. */
    predicate Contains(time: real, margin: real)
      ensures margin >= 0.0 && ContainsWithin(time, 0.0, 0.0) ==> Contains(time, margin)
    {
      ContainsWithin(time, margin, margin)
    }

    /** `empty()` as written: `start >= stop` on the raw representation. */
    predicate EmptyAsWritten() { !Less(start, stop) }

    /** Emptiness as the range's meaning requires it: two defined bounds in
     *  the wrong order. */
    predicate Empty()
      ensures Empty() <==> Duration().Some? && Duration().value <= 0.0
    {
      start.At? && stop.At? && start.t >= stop.t
    }

    /** `duration()`; only defined bounds give a meaningful difference. */
    function Duration(): (d: Option<real>)
      ensures d.Some? <==> start.At? && stop.At?
      ensures d.Some? ==> start.t + d.value == stop.t
    {
      if start.At? && stop.At? then Some(stop.t - start.t) else None
    }

    /** `intersect`: the later defined start and the earlier defined stop; an
     *  undefined bound on this side takes the other range's bound. */
    function Intersection(other: TimeRange): (r: TimeRange)
      ensures forall time, sm, stm :: r.ContainsWithin(time, sm, stm) <==>
        ContainsWithin(time, sm, stm) && other.ContainsWithin(time, sm, stm)
      ensures r.IsValid() <==> IsValid() || other.IsValid()
    {
      TimeRange(
        if start.Undefined? || (other.start.At? && other.start.t > start.t) then other.start else start,
        if stop.Undefined? || (other.stop.At? && other.stop.t < stop.t) then other.stop else stop)
    }
  }

  /** The default-constructed range: invalid, and containing every time. */
  const InvalidRange := TimeRange(Undefined, Undefined)

  lemma {:induction false} InvalidRangeContainsAll(time: real, margin: real)
    ensures !InvalidRange.IsValid() && InvalidRange.Contains(time, margin)
  {
  }

  /** A range with defined bounds is empty exactly when it contains no time,
   *  and a range with an undefined bound always contains some time. */
  lemma {:induction false} EmptyIffContainsNothing(r: TimeRange)
    ensures r.Empty() <==> forall time :: !r.Contains(time, 0.0)
  {
    if !r.Empty() {
      match (r.start, r.stop)
      case (At(a), At(b)) => assert r.Contains(a, 0.0);
      case (At(a), Undefined) => assert r.Contains(a, 0.0);
      case (Undefined, At(b)) => assert r.Contains(b - 1.0, 0.0);
      case (Undefined, Undefined) => assert r.Contains(0.0, 0.0);
    }
  }

  /** The written `empty()` calls a range that starts at 5 and never stops
   *  empty, although it contains 6; the default range too is "empty". */
  lemma {:induction false} EmptyAsWrittenMisjudgesOpenRanges()
    ensures TimeRange(At(5.0), Undefined).EmptyAsWritten()
    ensures TimeRange(At(5.0), Undefined).Contains(6.0, 0.0)
    ensures !TimeRange(At(5.0), Undefined).Empty()
    ensures InvalidRange.EmptyAsWritten() && InvalidRange.Contains(0.0, 0.0)
  {
  }

  /** Both notions agree on ranges with two defined bounds. */
  lemma {:induction false} EmptyAgreesWhenBounded(r: TimeRange)
    requires r.start.At? && r.stop.At?
    ensures r.Empty() == r.EmptyAsWritten()
  {
  }

  /** Intersecting into the default range yields the other range. */
  lemma {:induction false} IntersectionWithInvalid(r: TimeRange)
    ensures InvalidRange.Intersection(r) == r
  {
  }

  /** `timeRange(tick, plane)`: from the time the drift would have taken to
   *  the hit time; `driftTime` is the plane's drift distance over the drift
   *  velocity. */
  function TimeRangeOfHitTime(time: real, driftTime: real): (r: TimeRange)
    ensures r.IsValid() && r.Duration() == Some(driftTime)
    ensures driftTime > 0.0 ==> r.Contains(time - driftTime, 0.0) && !r.Contains(time, 0.0)
  {
    TimeRange(At(time - driftTime), At(time))
  }

  /** A hit: the TPC holding its wire, and its time and drift time. */
  datatype Hit = Hit(cryostat: nat, tpc: nat, time: real, driftTime: real)

  function HitRange(h: Hit): TimeRange
  {
    TimeRangeOfHitTime(h.time, h.driftTime)
  }

  /** `timeRange(ptr)`: a null pointer gives the invalid range. */
  function TimeRangeOfPointer(hit: Option<Hit>): (r: TimeRange)
    ensures hit.None? <==> !r.IsValid()
  {
    if hit.None? then InvalidRange else HitRange(hit.value)
  }

  /** `mergeCathodeRanges`: with one side invalid, the other side; otherwise
   *  the span between the two start times. */
  function MergeCathodeRanges(range1: TimeRange, range2: TimeRange): (r: TimeRange)
    ensures !range2.IsValid() ==> r == range1
    ensures range2.IsValid() && !range1.IsValid() ==> r == range2
    ensures range1.IsValid() && range2.IsValid() ==>
      (r.start == range1.start || r.start == range2.start)
      && (r.stop == range1.start || r.stop == range2.start)
      && !Less(range1.start, r.start) && !Less(range2.start, r.start)
      && !Less(r.stop, range1.start) && !Less(r.stop, range2.start)
  {
    if !range2.IsValid() then range1
    else if !range1.IsValid() then range2
    else TimeRange(LowerOf(range1.start, range2.start), HigherOf(range1.start, range2.start))
  }

  /** A TPC set container: ranges indexed by cryostat, then TPC set, all
   *  cryostats with `maxSets` entries. */
  predicate Rectangular(ranges: seq<seq<TimeRange>>, maxSets: nat)
  {
    forall c :: 0 <= c < |ranges| ==> |ranges[c]| == maxSets
  }

  /** The range stored for a TPC set, or the invalid one when the container
   *  does not have that TPC set. */
  function RangeOrInvalid(ranges: seq<seq<TimeRange>>, c: nat, s: nat): TimeRange
  {
    if c < |ranges| && s < |ranges[c]| then ranges[c][s] else InvalidRange
  }

  /** The range of one cryostat: its two drift volumes merged at the cathode. */
  function CryostatRange(ranges: seq<seq<TimeRange>>, c: nat): TimeRange
  {
    MergeCathodeRanges(RangeOrInvalid(ranges, c, 0), RangeOrInvalid(ranges, c, 1))
  }

  /** Intersection of the first `n` cryostat ranges, starting from the
   *  invalid range. */
  function MergedOverCryostats(ranges: seq<seq<TimeRange>>, n: nat): TimeRange
    requires n <= |ranges|
  {
    if n == 0 then InvalidRange
    else MergedOverCryostats(ranges, n - 1).Intersection(CryostatRange(ranges, n - 1))
  }

  /** The merged range contains a time exactly when every cryostat's range
   *  does. */
  lemma {:induction false} MergedContainsIffEveryCryostat(ranges: seq<seq<TimeRange>>, n: nat, time: real, margin: real)
    requires n <= |ranges|
    ensures MergedOverCryostats(ranges, n).Contains(time, margin) <==>
      forall c :: 0 <= c < n ==> CryostatRange(ranges, c).Contains(time, margin)
  {
    if n > 0 {
      MergedContainsIffEveryCryostat(ranges, n - 1, time, margin);
    }
  }

  /** `mergeTPCsetRanges_SBN`: one cathode per cryostat (asserted), then the
   *  intersection across cryostats. */
  method MergeTPCsetRanges(ranges: seq<seq<TimeRange>>, maxSets: nat) returns (merged: TimeRange)
    requires Rectangular(ranges, maxSets)
    requires (maxSets + 1) / 2 == 1
    ensures merged == MergedOverCryostats(ranges, |ranges|)
  {
    var cryoRanges: seq<TimeRange> := [];
    var c := 0;
    while c < |ranges|
      invariant 0 <= c <= |ranges|
      invariant |cryoRanges| == c
      invariant forall k :: 0 <= k < c ==> cryoRanges[k] == CryostatRange(ranges, k)
    {
      var cryoRange := InvalidRange;
      var range1 := if 0 < maxSets then ranges[c][0] else InvalidRange;
      var range2 := if 1 < maxSets then ranges[c][1] else InvalidRange;
      cryoRange := cryoRange.Intersection(MergeCathodeRanges(range1, range2));
      IntersectionWithInvalid(MergeCathodeRanges(range1, range2));
      cryoRanges := cryoRanges + [cryoRange];
      c := c + 1;
    }
    merged := InvalidRange;
    var k := 0;
    while k < |cryoRanges|
      invariant 0 <= k <= |cryoRanges|
      invariant merged == MergedOverCryostats(ranges, k)
    {
      merged := merged.Intersection(cryoRanges[k]);
      k := k + 1;
    }
  }

  /** A TPC-to-set map: for each cryostat and TPC, the TPC set holding it. */
  datatype SetRef = SetRef(cryostat: nat, tpcset: nat)

  datatype TpcRef = TpcRef(cryostat: nat, tpc: nat)

  const NotInMapError := "TPC not in the TPC-to-set map"
  const NoTPCsetError := "TPC listed in no TPC set"

  /** Every mapped TPC set exists in a container with `nCryostats` cryostats
   *  of `maxSets` sets. */
  predicate MapFitsSets(tpcToSet: seq<seq<Option<SetRef>>>, nCryostats: nat, maxSets: nat)
  {
    forall c, t :: 0 <= c < |tpcToSet| && 0 <= t < |tpcToSet[c]| && tpcToSet[c][t].Some? ==>
      tpcToSet[c][t].value.cryostat < nCryostats && tpcToSet[c][t].value.tpcset < maxSets
  }

  function Blank(nCryostats: nat, maxSets: nat): (ranges: seq<seq<TimeRange>>)
    ensures |ranges| == nCryostats && Rectangular(ranges, maxSets)
    ensures forall c, s :: 0 <= c < nCryostats && 0 <= s < maxSets ==> ranges[c][s] == InvalidRange
  {
    seq(nCryostats, _ => seq(maxSets, _ => InvalidRange))
  }

  /** The hit's TPC is in the map (`TPCtoSet.at` does not throw). */
  predicate HitMapped(h: Hit, tpcToSet: seq<seq<Option<SetRef>>>)
  {
    h.cryostat < |tpcToSet| && h.tpc < |tpcToSet[h.cryostat]|
  }

  /** The hit's TPC is in the map and some TPC set lists it.  A TPC that no
   *  set lists keeps the default, invalid TPC set ID in the map. */
  predicate HitAssigned(h: Hit, tpcToSet: seq<seq<Option<SetRef>>>)
  {
    HitMapped(h, tpcToSet) && tpcToSet[h.cryostat][h.tpc].Some?
  }

  /** The per-TPC-set ranges after intersecting the first `n` hits, or the
   *  error of the first hit whose TPC is not in the map (the `at` throws)
   *  or is in the map with the invalid TPC set ID (the code then indexes
   *  the per-set container with that invalid ID). */
  function PerSetRanges(hits: seq<Hit>, n: nat, tpcToSet: seq<seq<Option<SetRef>>>, nCryostats: nat, maxSets: nat)
    : (r: Result<seq<seq<TimeRange>>>)
    requires n <= |hits|
    requires MapFitsSets(tpcToSet, nCryostats, maxSets)
    ensures r.Ok? ==> |r.value| == nCryostats && Rectangular(r.value, maxSets)
    ensures r.Ok? <==> forall k :: 0 <= k < n ==> HitAssigned(hits[k], tpcToSet)
    ensures r.Err? && (forall k :: 0 <= k < n ==> HitMapped(hits[k], tpcToSet)) ==> r.error == NoTPCsetError
  {
    if n == 0 then Ok(Blank(nCryostats, maxSets))
    else match PerSetRanges(hits, n - 1, tpcToSet, nCryostats, maxSets)
      case Err(e) => Err(e)
      case Ok(ranges) =>
        var h := hits[n - 1];
        if !HitMapped(h, tpcToSet) then Err(NotInMapError)
        else if tpcToSet[h.cryostat][h.tpc].None? then Err(NoTPCsetError)
        else
          var target := tpcToSet[h.cryostat][h.tpc].value;
          Ok(ranges[target.cryostat := ranges[target.cryostat][target.tpcset := ranges[target.cryostat][target.tpcset].Intersection(HitRange(h))]])
  }

  /** After the hits are folded in, each TPC set's range contains a time
   *  exactly when the range of every hit on that set does. */
  lemma {:induction false} PerSetRangeContainsIffEveryHit(
    hits: seq<Hit>, n: nat, tpcToSet: seq<seq<Option<SetRef>>>, nCryostats: nat, maxSets: nat,
    c: nat, s: nat, time: real, margin: real)
    requires n <= |hits|
    requires MapFitsSets(tpcToSet, nCryostats, maxSets)
    requires c < nCryostats && s < maxSets
    requires PerSetRanges(hits, n, tpcToSet, nCryostats, maxSets).Ok?
    ensures PerSetRanges(hits, n, tpcToSet, nCryostats, maxSets).value[c][s].Contains(time, margin) <==>
      forall k :: 0 <= k < n && tpcToSet[hits[k].cryostat][hits[k].tpc] == Some(SetRef(c, s)) ==>
        HitRange(hits[k]).Contains(time, margin)
  {
    if n > 0 {
      PerSetRangeContainsIffEveryHit(hits, n - 1, tpcToSet, nCryostats, maxSets, c, s, time, margin);
    }
  }

  /** `timeRangeOfHits`: intersect per TPC set, then merge. */
  method TimeRangeOfHits(hits: seq<Hit>, tpcToSet: seq<seq<Option<SetRef>>>, nCryostats: nat, maxSets: nat)
    returns (r: Result<TimeRange>)
    requires MapFitsSets(tpcToSet, nCryostats, maxSets)
    requires (maxSets + 1) / 2 == 1
    ensures r.Ok? <==> PerSetRanges(hits, |hits|, tpcToSet, nCryostats, maxSets).Ok?
    ensures r.Err? ==> r.error == PerSetRanges(hits, |hits|, tpcToSet, nCryostats, maxSets).error
    ensures r.Ok? ==> r.value == MergedOverCryostats(
      PerSetRanges(hits, |hits|, tpcToSet, nCryostats, maxSets).value, nCryostats)
  {
    var ranges: seq<seq<TimeRange>> := Blank(nCryostats, maxSets);
    var i := 0;
    while i < |hits|
      invariant 0 <= i <= |hits|
      invariant PerSetRanges(hits, i, tpcToSet, nCryostats, maxSets) == Ok(ranges)
    {
      var h := hits[i];
      if !HitAssigned(h, tpcToSet) {
        assert !PerSetRanges(hits, i + 1, tpcToSet, nCryostats, maxSets).Ok?;
        NoRecovery(hits, i + 1, |hits|, tpcToSet, nCryostats, maxSets);
        return Err(if !HitMapped(h, tpcToSet) then NotInMapError else NoTPCsetError);
      }
      var target := tpcToSet[h.cryostat][h.tpc].value;
      ranges := ranges[target.cryostat := ranges[target.cryostat][target.tpcset := ranges[target.cryostat][target.tpcset].Intersection(HitRange(h))]];
      i := i + 1;
    }
    var merged := MergeTPCsetRanges(ranges, maxSets);
    return Ok(merged);
  }

  /** The first failing hit decides the error: later hits keep it. */
  lemma {:induction false} NoRecovery(hits: seq<Hit>, m: nat, n: nat, tpcToSet: seq<seq<Option<SetRef>>>, nCryostats: nat, maxSets: nat)
    requires m <= n <= |hits|
    requires MapFitsSets(tpcToSet, nCryostats, maxSets)
    requires PerSetRanges(hits, m, tpcToSet, nCryostats, maxSets).Err?
    ensures PerSetRanges(hits, n, tpcToSet, nCryostats, maxSets) == PerSetRanges(hits, m, tpcToSet, nCryostats, maxSets)
    decreases n - m
  {
    if m < n {
      NoRecovery(hits, m + 1, n, tpcToSet, nCryostats, maxSets);
    }
  }

  /** With no hits the track time is unconstrained: the invalid range. */
  lemma {:induction false} NoHitsGiveInvalidRange(tpcToSet: seq<seq<Option<SetRef>>>, nCryostats: nat, maxSets: nat)
    requires MapFitsSets(tpcToSet, nCryostats, maxSets)
    ensures PerSetRanges([], 0, tpcToSet, nCryostats, maxSets).Ok?
    ensures !MergedOverCryostats(PerSetRanges([], 0, tpcToSet, nCryostats, maxSets).value, nCryostats).IsValid()
  {
    var ranges := Blank(nCryostats, maxSets);
    var n := nCryostats;
    NoHitsInvalid(ranges, n, maxSets);
  }

  lemma {:induction false} NoHitsInvalid(ranges: seq<seq<TimeRange>>, n: nat, maxSets: nat)
    requires n <= |ranges| && Rectangular(ranges, maxSets)
    requires forall c, s :: 0 <= c < |ranges| && 0 <= s < maxSets ==> ranges[c][s] == InvalidRange
    ensures !MergedOverCryostats(ranges, n).IsValid()
  {
    if n > 0 { NoHitsInvalid(ranges, n - 1, maxSets); }
  }

  /** A dense TPC-to-set map with `nCryostats` rows of `maxTPCs` entries. */
  predicate MapShaped(m: seq<seq<Option<SetRef>>>, nCryostats: nat, maxTPCs: nat)
  {
    |m| == nCryostats && forall c :: 0 <= c < nCryostats ==> |m[c]| == maxTPCs
  }

  predicate TpcFits(t: TpcRef, nCryostats: nat, maxTPCs: nat)
  {
    t.cryostat < nCryostats && t.tpc < maxTPCs
  }

  /** Every TPC listed by the TPC sets has a place in the map. */
  predicate ListsFit(tpcsetTPCs: seq<seq<seq<TpcRef>>>, nCryostats: nat, maxTPCs: nat)
  {
    forall c, s, k :: 0 <= c < |tpcsetTPCs| && 0 <= s < |tpcsetTPCs[c]| && 0 <= k < |tpcsetTPCs[c][s]| ==>
      TpcFits(tpcsetTPCs[c][s][k], nCryostats, maxTPCs)
  }

  /** The map after assigning the first `k` TPCs of `list` to `target`. */
  function AssignList(m: seq<seq<Option<SetRef>>>, list: seq<TpcRef>, target: SetRef, k: nat,
                      ghost nCryostats: nat, ghost maxTPCs: nat): (r: seq<seq<Option<SetRef>>>)
    requires k <= |list| && MapShaped(m, nCryostats, maxTPCs)
    requires forall j :: 0 <= j < |list| ==> TpcFits(list[j], nCryostats, maxTPCs)
    ensures MapShaped(r, nCryostats, maxTPCs)
  {
    if k == 0 then m
    else
      var before := AssignList(m, list, target, k - 1, nCryostats, maxTPCs);
      var t := list[k - 1];
      before[t.cryostat := before[t.cryostat][t.tpc := Some(target)]]
  }

  /** The map after the first `s` sets of cryostat `c`. */
  function AssignSets(m: seq<seq<Option<SetRef>>>, tpcsetTPCs: seq<seq<seq<TpcRef>>>, c: nat, s: nat,
                      ghost nCryostats: nat, ghost maxTPCs: nat): (r: seq<seq<Option<SetRef>>>)
    requires c < |tpcsetTPCs| && s <= |tpcsetTPCs[c]| && MapShaped(m, nCryostats, maxTPCs)
    requires ListsFit(tpcsetTPCs, nCryostats, maxTPCs)
    ensures MapShaped(r, nCryostats, maxTPCs)
  {
    if s == 0 then m
    else AssignList(AssignSets(m, tpcsetTPCs, c, s - 1, nCryostats, maxTPCs),
                    tpcsetTPCs[c][s - 1], SetRef(c, s - 1), |tpcsetTPCs[c][s - 1]|, nCryostats, maxTPCs)
  }

  /** The map after the first `c` cryostats. */
  function AssignCryostats(m: seq<seq<Option<SetRef>>>, tpcsetTPCs: seq<seq<seq<TpcRef>>>, c: nat,
                           ghost nCryostats: nat, ghost maxTPCs: nat): (r: seq<seq<Option<SetRef>>>)
    requires c <= |tpcsetTPCs| && MapShaped(m, nCryostats, maxTPCs)
    requires ListsFit(tpcsetTPCs, nCryostats, maxTPCs)
    ensures MapShaped(r, nCryostats, maxTPCs)
  {
    if c == 0 then m
    else AssignSets(AssignCryostats(m, tpcsetTPCs, c - 1, nCryostats, maxTPCs),
                    tpcsetTPCs, c - 1, |tpcsetTPCs[c - 1]|, nCryostats, maxTPCs)
  }

  /** `t` is listed by one of the first `s` sets of cryostat `c`. */
  predicate ListedInSets(tpcsetTPCs: seq<seq<seq<TpcRef>>>, t: TpcRef, c: nat, s: nat)
    requires c < |tpcsetTPCs| && s <= |tpcsetTPCs[c]|
  {
    s > 0 && (ListedInSets(tpcsetTPCs, t, c, s - 1) || t in tpcsetTPCs[c][s - 1])
  }

  /** `t` is listed by some set of the first `c` cryostats. */
  predicate ListedInCryostats(tpcsetTPCs: seq<seq<seq<TpcRef>>>, t: TpcRef, c: nat)
    requires c <= |tpcsetTPCs|
  {
    c > 0 && (ListedInCryostats(tpcsetTPCs, t, c - 1) || ListedInSets(tpcsetTPCs, t, c - 1, |tpcsetTPCs[c - 1]|))
  }

  /** Each assigned entry names a set of `tpcsetTPCs` that lists its TPC. */
  predicate PointsToLists(m: seq<seq<Option<SetRef>>>, tpcsetTPCs: seq<seq<seq<TpcRef>>>)
  {
    forall i, t :: 0 <= i < |m| && 0 <= t < |m[i]| && m[i][t].Some? ==>
      m[i][t].value.cryostat < |tpcsetTPCs| && m[i][t].value.tpcset < |tpcsetTPCs[m[i][t].value.cryostat]|
      && TpcRef(i, t) in tpcsetTPCs[m[i][t].value.cryostat][m[i][t].value.tpcset]
  }

  lemma {:induction false} AssignListMeaning(m: seq<seq<Option<SetRef>>>, list: seq<TpcRef>, target: SetRef, k: nat,
                                             nCryostats: nat, maxTPCs: nat, i: nat, t: nat)
    requires k <= |list| && MapShaped(m, nCryostats, maxTPCs)
    requires forall j :: 0 <= j < |list| ==> TpcFits(list[j], nCryostats, maxTPCs)
    requires i < nCryostats && t < maxTPCs
    ensures AssignList(m, list, target, k, nCryostats, maxTPCs)[i][t] ==
      if TpcRef(i, t) in list[..k] then Some(target) else m[i][t]
  {
    if k > 0 {
      AssignListMeaning(m, list, target, k - 1, nCryostats, maxTPCs, i, t);
      assert list[..k] == list[..k - 1] + [list[k - 1]];
    }
  }

  lemma {:induction false} AssignSetsMeaning(m: seq<seq<Option<SetRef>>>, tpcsetTPCs: seq<seq<seq<TpcRef>>>, c: nat, s: nat,
                                             nCryostats: nat, maxTPCs: nat, i: nat, t: nat)
    requires c < |tpcsetTPCs| && s <= |tpcsetTPCs[c]| && MapShaped(m, nCryostats, maxTPCs)
    requires ListsFit(tpcsetTPCs, nCryostats, maxTPCs)
    requires i < nCryostats && t < maxTPCs
    ensures var r := AssignSets(m, tpcsetTPCs, c, s, nCryostats, maxTPCs);
      (r[i][t].Some? <==> m[i][t].Some? || ListedInSets(tpcsetTPCs, TpcRef(i, t), c, s))
      && (r[i][t] == m[i][t] || (r[i][t].Some? && r[i][t].value.cryostat == c && r[i][t].value.tpcset < s
            && TpcRef(i, t) in tpcsetTPCs[c][r[i][t].value.tpcset]))
  {
    if s > 0 {
      AssignSetsMeaning(m, tpcsetTPCs, c, s - 1, nCryostats, maxTPCs, i, t);
      var before := AssignSets(m, tpcsetTPCs, c, s - 1, nCryostats, maxTPCs);
      var list := tpcsetTPCs[c][s - 1];
      AssignListMeaning(before, list, SetRef(c, s - 1), |list|, nCryostats, maxTPCs, i, t);
      assert list[..|list|] == list;
    }
  }

  lemma {:induction false} AssignCryostatsMeaning(m: seq<seq<Option<SetRef>>>, tpcsetTPCs: seq<seq<seq<TpcRef>>>, c: nat,
                                                  nCryostats: nat, maxTPCs: nat, i: nat, t: nat)
    requires c <= |tpcsetTPCs| && MapShaped(m, nCryostats, maxTPCs)
    requires ListsFit(tpcsetTPCs, nCryostats, maxTPCs)
    requires i < nCryostats && t < maxTPCs
    ensures var r := AssignCryostats(m, tpcsetTPCs, c, nCryostats, maxTPCs);
      (r[i][t].Some? <==> m[i][t].Some? || ListedInCryostats(tpcsetTPCs, TpcRef(i, t), c))
      && (r[i][t] == m[i][t] || (r[i][t].Some? && r[i][t].value.cryostat < c
            && r[i][t].value.tpcset < |tpcsetTPCs[r[i][t].value.cryostat]|
            && TpcRef(i, t) in tpcsetTPCs[r[i][t].value.cryostat][r[i][t].value.tpcset]))
  {
    if c > 0 {
      AssignCryostatsMeaning(m, tpcsetTPCs, c - 1, nCryostats, maxTPCs, i, t);
      var before := AssignCryostats(m, tpcsetTPCs, c - 1, nCryostats, maxTPCs);
      AssignSetsMeaning(before, tpcsetTPCs, c - 1, |tpcsetTPCs[c - 1]|, nCryostats, maxTPCs, i, t);
    }
  }

  /** `extractTPCtoSetMap`: starting from an all-unassigned map, every TPC
   *  listed by a TPC set is mapped to a set listing it, and no other TPC is
   *  mapped (`tpcsetTPCs[c][s]` lists the TPCs of set `s` of cryostat `c`). */
  method ExtractTPCtoSetMap(tpcsetTPCs: seq<seq<seq<TpcRef>>>, nCryostats: nat, maxTPCs: nat)
    returns (m: seq<seq<Option<SetRef>>>)
    requires ListsFit(tpcsetTPCs, nCryostats, maxTPCs)
    ensures MapShaped(m, nCryostats, maxTPCs) && PointsToLists(m, tpcsetTPCs)
    ensures forall c, t :: 0 <= c < nCryostats && 0 <= t < maxTPCs ==>
      (m[c][t].Some? <==> ListedInCryostats(tpcsetTPCs, TpcRef(c, t), |tpcsetTPCs|))
  {
    var blank: seq<seq<Option<SetRef>>> := seq(nCryostats, _ => seq(maxTPCs, _ => None));
    m := blank;
    var c := 0;
    while c < |tpcsetTPCs|
      invariant 0 <= c <= |tpcsetTPCs|
      invariant m == AssignCryostats(blank, tpcsetTPCs, c, nCryostats, maxTPCs)
    {
      var s := 0;
      while s < |tpcsetTPCs[c]|
        invariant 0 <= s <= |tpcsetTPCs[c]|
        invariant m == AssignSets(AssignCryostats(blank, tpcsetTPCs, c, nCryostats, maxTPCs), tpcsetTPCs, c, s, nCryostats, maxTPCs)
      {
        var k := 0;
        ghost var before := m;
        while k < |tpcsetTPCs[c][s]|
          invariant 0 <= k <= |tpcsetTPCs[c][s]|
          invariant m == AssignList(before, tpcsetTPCs[c][s], SetRef(c, s), k, nCryostats, maxTPCs)
        {
          var tpc := tpcsetTPCs[c][s][k];
          m := m[tpc.cryostat := m[tpc.cryostat][tpc.tpc := Some(SetRef(c, s))]];
          k := k + 1;
        }
        s := s + 1;
      }
      c := c + 1;
    }
    forall i, t | 0 <= i < nCryostats && 0 <= t < maxTPCs
      ensures (m[i][t].Some? <==> ListedInCryostats(tpcsetTPCs, TpcRef(i, t), |tpcsetTPCs|))
      ensures m[i][t].Some? ==> (m[i][t].value.cryostat < |tpcsetTPCs|
        && m[i][t].value.tpcset < |tpcsetTPCs[m[i][t].value.cryostat]|
        && TpcRef(i, t) in tpcsetTPCs[m[i][t].value.cryostat][m[i][t].value.tpcset])
    {
      AssignCryostatsMeaning(blank, tpcsetTPCs, |tpcsetTPCs|, nCryostats, maxTPCs, i, t);
    }
  }

  /** String form: `<invalid>`, or `[ start ; stop ]` with `...` for an
   *  undefined bound; `fmt` renders a defined time. */
  function Format(r: TimeRange, fmt: real -> string): (s: string)
    ensures !r.IsValid() ==> s == "<invalid>"
    ensures r.IsValid() ==> |s| >= 5 && s[0] == '[' && s[|s| - 1] == ']'
    ensures r.IsValid() && r.start.Undefined? ==> s[..5] == "[ ..."
  {
    if !r.IsValid() then "<invalid>"
    else
      var from := if r.start.Undefined? then "..." else fmt(r.start.t);
      var to := if r.stop.Undefined? then "..." else fmt(r.stop.t);
      "[ " + from + " ; " + to + " ]"
  }
}
