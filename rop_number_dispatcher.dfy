/** `ROPnumberDispatcher`: assigns readout plane numbers within a TPC set in
 *  blocks by view.  The blocks are booked from a reference TPC set: the
 *  first readout plane of each view books as many numbers as that view has
 *  readout planes, first come, first served; every TPC set then hands out
 *  the numbers of each view's block in order. */
module ROPnumberDispatching {
  import opened Wrappers
  import opened GeoTypes

  predicate AllOfView(planes: seq<Plane>, v: View)
  {
    forall i :: 0 <= i < |planes| ==> planes[i].view == v
  }

  /** The view shared by all `planes`; `Unknown` when there are none or
   *  they disagree. */
  function CommonView(planes: seq<Plane>): View
  {
    if planes == [] then Unknown
    else if AllOfView(planes, planes[0].view) then planes[0].view
    else Unknown
  }

  /** A known view is the common view exactly when there are planes and
   *  all of them are on it. */
  lemma {:induction false} CommonViewMeans(planes: seq<Plane>, v: View)
    requires v != Unknown
    ensures CommonView(planes) == v <==> planes != [] && AllOfView(planes, v)
  {
    if planes != [] && AllOfView(planes, v) {
      assert planes[0].view == v;
    }
  }

  /** `ROPview`: stops at the first plane on another view. */
  method ROPview(planes: seq<Plane>) returns (view: View)
    ensures view == CommonView(planes)
  {
    if |planes| == 0 {
      return Unknown;
    }
    view := planes[0].view;
    var i := 1;
    while i < |planes|
      invariant 1 <= i <= |planes|
      invariant AllOfView(planes[..i], view)
    {
      if planes[i].view != view {
        assert !AllOfView(planes, view);
        return Unknown;
      }
      i := i + 1;
    }
    assert planes[..i] == planes;
  }

  // ---------------------------------------------------------------------------
  // Counting the readout planes of each view

  /** The number of non-empty readout planes of `rops` on view `v`. */
  function CountOfView(rops: seq<seq<Plane>>, v: View): nat
  {
    if rops == [] then 0
    else
      var last := rops[|rops| - 1];
      CountOfView(rops[..|rops| - 1], v) + (if last != [] && CommonView(last) == v then 1 else 0)
  }

  /** The counts `ViewROPcounts` collects, one readout plane at a time. */
  function ViewCounts(rops: seq<seq<Plane>>): map<View, nat>
  {
    if rops == [] then map[]
    else
      var counts := ViewCounts(rops[..|rops| - 1]);
      var last := rops[|rops| - 1];
      if last == [] then counts
      else
        var v := CommonView(last);
        counts[v := (if v in counts then counts[v] else 0) + 1]
  }

  /** A view has a count exactly when some non-empty readout plane is on
   *  it, and the count is the number of those readout planes. */
  lemma {:induction false} ViewCountsAreCounts(rops: seq<seq<Plane>>, v: View)
    ensures v in ViewCounts(rops) <==> CountOfView(rops, v) > 0
    ensures v in ViewCounts(rops) ==> ViewCounts(rops)[v] == CountOfView(rops, v)
  {
    if rops != [] {
      ViewCountsAreCounts(rops[..|rops| - 1], v);
    }
  }

  /** `ViewROPcounts`: empty readout planes are skipped. */
  method ViewROPcounts(rops: seq<seq<Plane>>) returns (counts: map<View, nat>)
    ensures counts == ViewCounts(rops)
  {
    counts := map[];
    for i := 0 to |rops|
      invariant counts == ViewCounts(rops[..i])
    {
      assert rops[..i + 1][..i] == rops[..i];
      if rops[i] != [] {
        var view := ROPview(rops[i]);
        counts := counts[view := (if view in counts then counts[view] else 0) + 1];
      }
    }
    assert rops[..|rops|] == rops;
  }

  // ---------------------------------------------------------------------------
  // Booking a block of numbers per view

  /** The first number booked by each view so far, and the next free one. */
  datatype Booking = Booking(first: map<View, nat>, next: nat)

  /** `PreferredROPrangesByView`, one readout plane at a time: a view seen
   *  for the first time books `counts[view]` numbers from `next`; looking
   *  up the count of a view without one (`std::map::at`) fails. */
  function Book(rops: seq<seq<Plane>>, counts: map<View, nat>): Result<Booking>
  {
    if rops == [] then Ok(Booking(map[], 0))
    else
      match Book(rops[..|rops| - 1], counts)
      case Err(e) => Err(e)
      case Ok(b) =>
        var v := CommonView(rops[|rops| - 1]);
        if v in b.first then Ok(b)
        else if v !in counts then Err("std::out_of_range: map::at")
        else Ok(Booking(b.first[v := b.next], b.next + counts[v]))
  }

  /** The first number of each view's block, booked from `rops`. */
  function PreferredRanges(rops: seq<seq<Plane>>): Result<map<View, nat>>
  {
    match Book(rops, ViewCounts(rops))
    case Ok(b) => Ok(b.first)
    case Err(e) => Err(e)
  }

  /** `PreferredROPrangesByView`. */
  method PreferredROPrangesByView(rops: seq<seq<Plane>>) returns (r: Result<map<View, nat>>)
    ensures r == PreferredRanges(rops)
  {
    var viewROPcounts := ViewROPcounts(rops);
    var firstROPno: map<View, nat> := map[];
    var nextAvailable: nat := 0;
    for i := 0 to |rops|
      invariant Book(rops[..i], viewROPcounts) == Ok(Booking(firstROPno, nextAvailable))
    {
      assert rops[..i + 1][..i] == rops[..i];
      var view := ROPview(rops[i]);
      if view !in firstROPno {
        firstROPno := firstROPno[view := nextAvailable];
        if view !in viewROPcounts {
          assert Book(rops[..i + 1], viewROPcounts).Err?;
          BookStaysFailed(rops, viewROPcounts, i + 1);
          assert rops[..|rops|] == rops;
          return Err("std::out_of_range: map::at");
        }
        nextAvailable := nextAvailable + viewROPcounts[view];
      }
    }
    assert rops[..|rops|] == rops;
    return Ok(firstROPno);
  }

  /** Once a lookup failed, booking more readout planes fails too. */
  lemma {:induction false} BookStaysFailed(rops: seq<seq<Plane>>, counts: map<View, nat>, n: nat)
    requires n <= |rops|
    requires Book(rops[..n], counts).Err?
    ensures Book(rops, counts) == Err("std::out_of_range: map::at")
    decreases |rops| - n
  {
    if n == |rops| {
      assert rops[..n] == rops;
      BookErrIsAt(rops, counts);
    } else {
      assert rops[..|rops| - 1][..n] == rops[..n];
      BookStaysFailed(rops[..|rops| - 1], counts, n);
    }
  }

  lemma {:induction false} BookErrIsAt(rops: seq<seq<Plane>>, counts: map<View, nat>)
    requires Book(rops, counts).Err?
    ensures Book(rops, counts) == Err("std::out_of_range: map::at")
  {
    if rops != [] && Book(rops[..|rops| - 1], counts).Err? {
      BookErrIsAt(rops[..|rops| - 1], counts);
    }
  }

  /** The booked blocks: every view seen has one, sized by its count, lying
   *  below `next`; blocks of different views do not overlap. */
  ghost predicate Blocks(b: Booking, counts: map<View, nat>)
  {
    (forall v :: v in b.first ==> v in counts && b.first[v] + counts[v] <= b.next)
    && (forall v, w :: v in b.first && w in b.first && v != w ==>
          b.first[v] + counts[v] <= b.first[w] || b.first[w] + counts[w] <= b.first[v])
  }

  /** Booking gives each view of `rops` its own block. */
  lemma {:induction false} BookingBlocks(rops: seq<seq<Plane>>, counts: map<View, nat>)
    requires Book(rops, counts).Ok?
    ensures Blocks(Book(rops, counts).value, counts)
  {
    if rops != [] {
      BookingBlocks(rops[..|rops| - 1], counts);
    }
  }

  /** The views with a block are exactly the views of the readout planes. */
  lemma {:induction false} BookingViews(rops: seq<seq<Plane>>, counts: map<View, nat>)
    requires Book(rops, counts).Ok?
    ensures forall i :: 0 <= i < |rops| ==> CommonView(rops[i]) in Book(rops, counts).value.first
    ensures forall v :: v in Book(rops, counts).value.first ==> exists i :: 0 <= i < |rops| && CommonView(rops[i]) == v
  {
    if rops != [] {
      var init := rops[..|rops| - 1];
      BookingViews(init, counts);
      var b := Book(init, counts).value;
      var b' := Book(rops, counts).value;
      assert b.first.Keys <= b'.first.Keys;
      forall i | 0 <= i < |rops|
        ensures CommonView(rops[i]) in b'.first
      {
        if i < |init| {
          assert CommonView(init[i]) in b.first;
        }
      }
      forall w | w in b'.first
        ensures exists i :: 0 <= i < |rops| && CommonView(rops[i]) == w
      {
        if w in b.first {
          var i :| 0 <= i < |init| && CommonView(init[i]) == w;
          assert CommonView(rops[i]) == w;
        } else {
          assert CommonView(rops[|rops| - 1]) == w;
        }
      }
    }
  }

  /** The view of the first readout plane books the block starting at 0,
   *  and a booked block never moves. */
  lemma {:induction false} BookingFirstAtZero(rops: seq<seq<Plane>>, counts: map<View, nat>)
    requires Book(rops, counts).Ok?
    requires |rops| > 0
    ensures CommonView(rops[0]) in Book(rops, counts).value.first
    ensures Book(rops, counts).value.first[CommonView(rops[0])] == 0
  {
    if |rops| > 1 {
      var init := rops[..|rops| - 1];
      BookingFirstAtZero(init, counts);
      assert init[0] == rops[0];
    } else {
      assert rops[..0] == [];
    }
  }

  /** Without empty readout planes every view has a count, so booking
   *  cannot fail. */
  lemma {:induction false} BookingSucceeds(rops: seq<seq<Plane>>)
    requires forall i :: 0 <= i < |rops| ==> rops[i] != []
    ensures Book(rops, ViewCounts(rops)).Ok?
  {
    var counts := ViewCounts(rops);
    forall i | 0 <= i < |rops|
      ensures CommonView(rops[i]) in counts
    {
      CountedView(rops, i);
    }
    BookingWithCounts(rops, counts, |rops|);
    assert rops[..|rops|] == rops;
  }

  lemma {:induction false} CountedView(rops: seq<seq<Plane>>, i: nat)
    requires i < |rops| && rops[i] != []
    ensures CommonView(rops[i]) in ViewCounts(rops)
  {
    if i < |rops| - 1 {
      CountedView(rops[..|rops| - 1], i);
    }
  }

  lemma {:induction false} BookingWithCounts(rops: seq<seq<Plane>>, counts: map<View, nat>, n: nat)
    requires n <= |rops|
    requires forall i :: 0 <= i < |rops| ==> CommonView(rops[i]) in counts
    ensures Book(rops[..n], counts).Ok?
  {
    if n > 0 {
      BookingWithCounts(rops, counts, n - 1);
      assert rops[..n][..n - 1] == rops[..n - 1];
    }
  }

  // ---------------------------------------------------------------------------
  // Handing out numbers within a TPC set

  /** The numbers handed out to `rops` one at a time, and the next free
   *  number of each view afterwards. */
  function Assigned(first: map<View, nat>, rops: seq<seq<Plane>>): Result<(seq<nat>, map<View, nat>)>
  {
    if rops == [] then Ok(([], first))
    else
      match Assigned(first, rops[..|rops| - 1])
      case Err(e) => Err(e)
      case Ok(state) =>
        var (ids, available) := state;
        var v := CommonView(rops[|rops| - 1]);
        if v !in available then Err("std::out_of_range: map::at")
        else Ok((ids + [available[v]], available[v := available[v] + 1]))
  }

  /** Each view hands out consecutive numbers from the start of its block. */
  ghost predicate HandedOut(first: map<View, nat>, rops: seq<seq<Plane>>, ids: seq<nat>, available: map<View, nat>)
  {
    |ids| == |rops|
    && available.Keys == first.Keys
    && (forall v :: v in first ==> available[v] == first[v] + CountOfView(rops, v))
    && (forall i :: 0 <= i < |rops| ==> CommonView(rops[i]) in first && first[CommonView(rops[i])] <= ids[i] < available[CommonView(rops[i])])
    && (forall i, j :: 0 <= i < j < |rops| && CommonView(rops[i]) == CommonView(rops[j]) ==> ids[i] < ids[j])
  }

  lemma {:induction false} AssignedHandsOut(first: map<View, nat>, rops: seq<seq<Plane>>)
    requires forall i :: 0 <= i < |rops| ==> rops[i] != []
    requires Assigned(first, rops).Ok?
    ensures HandedOut(first, rops, Assigned(first, rops).value.0, Assigned(first, rops).value.1)
  {
    if rops != [] {
      var init, last := rops[..|rops| - 1], rops[|rops| - 1];
      AssignedLast(first, rops);
      AssignedHandsOut(first, init);
      var (ids, available) := Assigned(first, init).value;
      assert rops == init + [last];
      HandOutOne(first, init, last, ids, available);
    }
  }

  /** The last readout plane takes the next free number of its view. */
  lemma {:induction false} AssignedLast(first: map<View, nat>, rops: seq<seq<Plane>>)
    requires rops != [] && Assigned(first, rops).Ok?
    ensures var init, v := rops[..|rops| - 1], CommonView(rops[|rops| - 1]);
            Assigned(first, init).Ok? && v in Assigned(first, init).value.1
            && var (ids, available) := Assigned(first, init).value;
               Assigned(first, rops).value == (ids + [available[v]], available[v := available[v] + 1])
  {
  }

  /** Handing the next number of its view to one more readout plane keeps
   *  the numbers handed out consecutive, view by view. */
  lemma {:induction false} HandOutOne(first: map<View, nat>, init: seq<seq<Plane>>, last: seq<Plane>, ids: seq<nat>, available: map<View, nat>)
    requires HandedOut(first, init, ids, available)
    requires last != [] && CommonView(last) in available
    ensures var v := CommonView(last);
            HandedOut(first, init + [last], ids + [available[v]], available[v := available[v] + 1])
  {
    var rops := init + [last];
    var v := CommonView(last);
    var ids' := ids + [available[v]];
    var available' := available[v := available[v] + 1];
    assert rops[..|rops| - 1] == init;
    assert forall w :: CountOfView(rops, w) == CountOfView(init, w) + (if v == w then 1 else 0);
    forall i | 0 <= i < |rops|
      ensures CommonView(rops[i]) in first && first[CommonView(rops[i])] <= ids'[i] < available'[CommonView(rops[i])]
    {
      if i < |init| {
        assert rops[i] == init[i];
      }
    }
    forall i, j | 0 <= i < j < |rops| && CommonView(rops[i]) == CommonView(rops[j])
      ensures ids'[i] < ids'[j]
    {
      assert rops[i] == init[i];
      if j < |init| {
        assert rops[j] == init[j];
      }
    }
  }

  /** Within a TPC set whose readout planes are non-empty and no more, view
   *  by view, than those of the reference, no two readout planes get the
   *  same number. */
  lemma {:induction false} DistinctNumbersInTPCset(reference: seq<seq<Plane>>, rops: seq<seq<Plane>>)
    requires Book(reference, ViewCounts(reference)).Ok?
    requires forall i :: 0 <= i < |rops| ==> rops[i] != []
    requires forall v :: CountOfView(rops, v) <= CountOfView(reference, v)
    requires Assigned(Book(reference, ViewCounts(reference)).value.first, rops).Ok?
    ensures var ids := Assigned(Book(reference, ViewCounts(reference)).value.first, rops).value.0;
            forall i, j :: 0 <= i < j < |ids| ==> ids[i] != ids[j]
  {
    var counts := ViewCounts(reference);
    var b := Book(reference, counts).value;
    BookingBlocks(reference, counts);
    AssignedHandsOut(b.first, rops);
    var (ids, available) := Assigned(b.first, rops).value;
    forall i, j | 0 <= i < j < |ids|
      ensures ids[i] != ids[j]
    {
      var v, w := CommonView(rops[i]), CommonView(rops[j]);
      if v != w {
        ViewCountsAreCounts(reference, v);
        ViewCountsAreCounts(reference, w);
        assert b.first[v] + counts[v] <= b.first[w] || b.first[w] + counts[w] <= b.first[v];
      }
    }
  }

  // ---------------------------------------------------------------------------
  // Counting lemmas

  /** A non-empty readout plane counts for its view. */
  lemma {:induction false} CountPositive(rops: seq<seq<Plane>>, i: nat)
    requires i < |rops| && rops[i] != []
    ensures CountOfView(rops, CommonView(rops[i])) > 0
  {
    if i < |rops| - 1 {
      CountPositive(rops[..|rops| - 1], i);
    }
  }

  /** A view with a positive count has a non-empty readout plane on it. */
  lemma {:induction false} CountWitness(rops: seq<seq<Plane>>, v: View)
    requires CountOfView(rops, v) > 0
    ensures exists i :: 0 <= i < |rops| && rops[i] != [] && CommonView(rops[i]) == v
  {
    var init := rops[..|rops| - 1];
    if CountOfView(init, v) > 0 {
      CountWitness(init, v);
      var i :| 0 <= i < |init| && init[i] != [] && CommonView(init[i]) == v;
      assert rops[i] == init[i];
    }
  }

  lemma {:induction false} CountOfViewConcat(a: seq<seq<Plane>>, b: seq<seq<Plane>>, v: View)
    ensures CountOfView(a + b, v) == CountOfView(a, v) + CountOfView(b, v)
  {
    if b == [] {
      assert a + b == a;
    } else {
      assert (a + b)[..|a + b| - 1] == a + b[..|b| - 1];
      CountOfViewConcat(a, b[..|b| - 1], v);
    }
  }

  /** Counting is blind to the order of the readout planes. */
  lemma {:induction false} CountOfViewPermutation(a: seq<seq<Plane>>, b: seq<seq<Plane>>, v: View)
    requires multiset(a) == multiset(b)
    ensures CountOfView(a, v) == CountOfView(b, v)
    decreases |a|
  {
    if a == [] {
      assert |b| == |multiset(b)| == 0;
    } else {
      var k := MatchOfLast(a, b);
      CountWithout(b, k, v);
      CountOfViewPermutation(a[..|a| - 1], b[..k] + b[k + 1..], v);
    }
  }

  /** The last element of `a` sits somewhere in its permutation `b`, and
   *  the rest of `a` is a permutation of the rest of `b`. */
  lemma {:induction false} MatchOfLast<T>(a: seq<T>, b: seq<T>) returns (k: nat)
    requires a != [] && multiset(a) == multiset(b)
    ensures k < |b| && b[k] == a[|a| - 1]
    ensures multiset(a[..|a| - 1]) == multiset(b[..k] + b[k + 1..])
  {
    var init, x := a[..|a| - 1], a[|a| - 1];
    assert a == init + [x];
    assert x in multiset(b);
    k :| 0 <= k < |b| && b[k] == x;
    var before, after := b[..k], b[k + 1..];
    assert b == before + [x] + after;
    assert multiset(a) == multiset(init) + multiset{x};
    assert multiset(b) == multiset(before) + multiset{x} + multiset(after);
    assert multiset(before + after) == multiset(before) + multiset(after);
    assert multiset(init) == multiset(a) - multiset{x};
    assert multiset(before + after) == multiset(b) - multiset{x};
  }

  lemma {:induction false} CountWithout(b: seq<seq<Plane>>, k: nat, v: View)
    requires k < |b|
    ensures multiset(b[..k] + b[k + 1..]) == multiset(b) - multiset{b[k]}
    ensures CountOfView(b, v) == CountOfView(b[..k] + b[k + 1..], v) + (if b[k] != [] && CommonView(b[k]) == v then 1 else 0)
  {
    var single: seq<seq<Plane>> := [b[k]];
    assert single[..0] == [];
    assert b == b[..k] + (single + b[k + 1..]);
    CountOfViewConcat(b[..k], single + b[k + 1..], v);
    CountOfViewConcat(single, b[k + 1..], v);
    CountOfViewConcat(b[..k], b[k + 1..], v);
  }

  /** The number of non-empty readout planes of `rops` on any of the views
   *  `vs`. */
  function CountOfViews(rops: seq<seq<Plane>>, vs: set<View>): (n: nat)
    ensures n <= |rops|
  {
    if rops == [] then 0
    else
      var last := rops[|rops| - 1];
      CountOfViews(rops[..|rops| - 1], vs) + (if last != [] && CommonView(last) in vs then 1 else 0)
  }

  lemma {:induction false} CountOfViewsAdd(rops: seq<seq<Plane>>, vs: set<View>, v: View)
    requires v !in vs
    ensures CountOfViews(rops, vs + {v}) == CountOfViews(rops, vs) + CountOfView(rops, v)
  {
    if rops != [] {
      CountOfViewsAdd(rops[..|rops| - 1], vs, v);
    }
  }

  /** The numbers booked so far are those of the readout planes whose view
   *  has a block. */
  lemma {:induction false} BookNext(rops: seq<seq<Plane>>, n: nat)
    requires n <= |rops| && Book(rops[..n], ViewCounts(rops)).Ok?
    ensures var b := Book(rops[..n], ViewCounts(rops)).value;
            b.next == CountOfViews(rops, b.first.Keys)
  {
    var counts := ViewCounts(rops);
    if n == 0 {
      assert rops[..0] == [];
      assert Book(rops[..0], counts).value.first.Keys == {};
      CountOfViewsEmpty(rops);
    } else {
      var prefix := rops[..n];
      assert prefix[..n - 1] == rops[..n - 1];
      BookNext(rops, n - 1);
      var b := Book(rops[..n - 1], counts).value;
      var v := CommonView(rops[n - 1]);
      if v !in b.first {
        ViewCountsAreCounts(rops, v);
        CountOfViewsAdd(rops, b.first.Keys, v);
        assert b.first[v := b.next].Keys == b.first.Keys + {v};
      }
    }
  }

  lemma {:induction false} CountOfViewsEmpty(rops: seq<seq<Plane>>)
    ensures CountOfViews(rops, {}) == 0
  {
    if rops != [] {
      CountOfViewsEmpty(rops[..|rops| - 1]);
    }
  }

  /** All the blocks booked from `rops` fit in `|rops|` numbers. */
  lemma {:induction false} BookedWithin(rops: seq<seq<Plane>>)
    requires Book(rops, ViewCounts(rops)).Ok?
    ensures Book(rops, ViewCounts(rops)).value.next <= |rops|
  {
    assert rops[..|rops|] == rops;
    BookNext(rops, |rops|);
  }

  /** Handing out numbers succeeds when every view has a block. */
  lemma {:induction false} AssignedOk(first: map<View, nat>, rops: seq<seq<Plane>>)
    requires forall i :: 0 <= i < |rops| ==> CommonView(rops[i]) in first
    ensures Assigned(first, rops).Ok?
    ensures Assigned(first, rops).value.1.Keys == first.Keys
  {
    if rops != [] {
      var init := rops[..|rops| - 1];
      assert forall i :: 0 <= i < |init| ==> init[i] == rops[i];
      AssignedOk(first, init);
    }
  }

  /** `ROPnumberDispatcher`. */
  class ROPnumberDispatcher {
    /** The first number of each view's block. */
    const firstROPno: map<View, nat>
    /** The next number each view hands out in the TPC set being served. */
    var availableROPno: map<View, nat>
    /** The TPC set being served. */
    var tpcset: TPCsetID

    /** Takes the blocks booked by `PreferredROPrangesByView` from the
     *  reference readout planes, and serves `tpcset` first. */
    constructor(firstROPno: map<View, nat>, tpcset: TPCsetID)
      ensures this.firstROPno == firstROPno && availableROPno == firstROPno
      ensures this.tpcset == tpcset
    {
      this.firstROPno := firstROPno;
      availableROPno := firstROPno;
      this.tpcset := tpcset;
    }

    /** `setTPCset`: serves `tpcset` from the start of every block. */
    method SetTPCset(tpcset: TPCsetID)
      modifies this
      ensures this.tpcset == tpcset && availableROPno == firstROPno
    {
      this.tpcset := tpcset;
      availableROPno := firstROPno;
    }

    /** `assignID`: the next number of the view of `planes`, which is used
     *  up; a view without a block fails the lookup (`std::map::at`). */
    method AssignID(planes: seq<Plane>) returns (r: Result<nat>)
      modifies this
      ensures tpcset == old(tpcset)
      ensures CommonView(planes) !in old(availableROPno) ==>
                r == Err("std::out_of_range: map::at") && availableROPno == old(availableROPno)
      ensures CommonView(planes) in old(availableROPno) ==>
                var v := CommonView(planes);
                r == Ok(old(availableROPno)[v]) && availableROPno == old(availableROPno)[v := old(availableROPno)[v] + 1]
    {
      var view := ROPview(planes);
      if view !in availableROPno {
        return Err("std::out_of_range: map::at");
      }
      r := Ok(availableROPno[view]);
      availableROPno := availableROPno[view := availableROPno[view] + 1];
    }
  }
}
