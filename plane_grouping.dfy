/** The static helpers of the readout-plane builder that work on lists of
 *  wire planes: grouping by drift coordinate, separating the planes that
 *  must stay alone, and reading TPCs and plane numbers off a group. */
module PlaneGrouping {
  import opened Wrappers
  import opened GeoTypes

  /** The default grouping tolerance on the drift coordinate, in cm. */
  const DriftTolerance: real := 0.1

  /** Concatenation of a sequence of sequences. */
  function Flatten<T>(ss: seq<seq<T>>): (r: seq<T>)
  {
    if ss == [] then [] else ss[0] + Flatten(ss[1..])
  }

  lemma {:induction false} FlattenConcat<T>(a: seq<seq<T>>, b: seq<seq<T>>)
    ensures Flatten(a + b) == Flatten(a) + Flatten(b)
  {
    if a != [] {
      FlattenConcat(a[1..], b);
      assert (a + b)[1..] == a[1..] + b;
    } else {
      assert a + b == b;
    }
  }

  /** `g` lists some of the values of `s`, in the order they have in `s`. */
  ghost predicate SubsequenceOf<T>(g: seq<T>, s: seq<T>)
    decreases |s|
  {
    g == []
    || (s != []
        && ((g[|g| - 1] == s[|s| - 1] && SubsequenceOf(g[..|g| - 1], s[..|s| - 1]))
            || SubsequenceOf(g, s[..|s| - 1])))
  }

  lemma {:induction false} SubsequenceExtends<T>(g: seq<T>, s: seq<T>, x: T)
    requires SubsequenceOf(g, s)
    ensures SubsequenceOf(g, s + [x])
    ensures SubsequenceOf(g + [x], s + [x])
  {
    assert (s + [x])[..|s|] == s;
    assert (g + [x])[..|g|] == g;
  }

  // ---------------------------------------------------------------------------
  // `groupPlanesByDriftCoord`

  /** The `std::map` from the upper end of a group's drift range to the
   *  group's planes, as its entries in key order. */
  type DriftGroups = seq<(real, seq<Plane>)>

  predicate KeysIncreasing(groups: DriftGroups)
  {
    forall i, j :: 0 <= i < j < |groups| ==> groups[i].0 < groups[j].0
  }

  /** `std::map::lower_bound`: the first entry whose key is not below `d`. */
  function LowerBound(groups: DriftGroups, d: real): (k: nat)
    ensures k <= |groups|
    ensures forall j :: 0 <= j < k ==> groups[j].0 < d
    ensures k < |groups| ==> groups[k].0 >= d
  {
    if groups == [] then 0
    else if groups[0].0 >= d then 0
    else 1 + LowerBound(groups[1..], d)
  }

  /** One plane into the groups: it joins the first group whose key is at
   *  or above its coordinate by at most `tolerance`, or starts a group keyed
   *  `coordinate + tolerance / 2`, which `emplace_hint` leaves out when that
   *  key is taken. */
  function AddPlane(groups: DriftGroups, plane: Plane, tolerance: real): DriftGroups
  {
    var d := plane.driftCoord;
    var k := LowerBound(groups, d);
    if k < |groups| && groups[k].0 - d <= tolerance then
      groups[k := (groups[k].0, groups[k].1 + [plane])]
    else
      var key := d + tolerance / 2.0;
      var at := LowerBound(groups, key);
      if at < |groups| && groups[at].0 == key then groups
      else groups[..at] + [(key, [plane])] + groups[at..]
  }

  /** The groups after all of `planes`, in order. */
  function Grouped(planes: seq<Plane>, tolerance: real): DriftGroups
  {
    if planes == [] then []
    else AddPlane(Grouped(planes[..|planes| - 1], tolerance), planes[|planes| - 1], tolerance)
  }

  function GroupPlanes(groups: DriftGroups): (r: seq<seq<Plane>>)
    ensures |r| == |groups|
    ensures forall i :: 0 <= i < |groups| ==> r[i] == groups[i].1
  {
    if groups == [] then [] else [groups[0].1] + GroupPlanes(groups[1..])
  }

  /** `groupPlanesByDriftCoord`: the groups in order of increasing key. */
  method GroupPlanesByDriftCoord(planes: seq<Plane>, tolerance: real) returns (groups: seq<seq<Plane>>)
    ensures groups == GroupPlanes(Grouped(planes, tolerance))
  {
    var groupedByDrift: DriftGroups := [];
    for i := 0 to |planes|
      invariant groupedByDrift == Grouped(planes[..i], tolerance)
    {
      assert planes[..i + 1][..i] == planes[..i];
      groupedByDrift := AddPlane(groupedByDrift, planes[i], tolerance);
    }
    assert planes[..|planes|] == planes;
    groups := [];
    for i := 0 to |groupedByDrift|
      invariant |groups| == i && forall j :: 0 <= j < i ==> groups[j] == groupedByDrift[j].1
    {
      groups := groups + [groupedByDrift[i].1];
    }
    assert groups == GroupPlanes(groupedByDrift);
  }

  /** The planes of all groups, in group order. */
  function AllPlanes(groups: DriftGroups): seq<Plane>
  {
    if groups == [] then [] else groups[0].1 + AllPlanes(groups[1..])
  }

  lemma {:induction false} AllPlanesConcat(a: DriftGroups, b: DriftGroups)
    ensures AllPlanes(a + b) == AllPlanes(a) + AllPlanes(b)
  {
    if a != [] {
      AllPlanesConcat(a[1..], b);
      assert (a + b)[1..] == a[1..] + b;
    } else {
      assert a + b == b;
    }
  }

  lemma {:induction false} AllPlanesAreFlattened(groups: DriftGroups)
    ensures Flatten(GroupPlanes(groups)) == AllPlanes(groups)
  {
    if groups != [] {
      AllPlanesAreFlattened(groups[1..]);
      assert GroupPlanes(groups)[1..] == GroupPlanes(groups[1..]);
    }
  }

  lemma {:induction false} InsertKeepsOrder(groups: DriftGroups, at: nat, g: (real, seq<Plane>))
    requires KeysIncreasing(groups) && at <= |groups|
    requires forall j :: 0 <= j < at ==> groups[j].0 < g.0
    requires at < |groups| ==> groups[at].0 > g.0
    ensures KeysIncreasing(groups[..at] + [g] + groups[at..])
  {
    var r := groups[..at] + [g] + groups[at..];
    forall i, j | 0 <= i < j < |r|
      ensures r[i].0 < r[j].0
    {
      if j < at {
        assert r[i] == groups[i] && r[j] == groups[j];
      } else if j == at {
        assert r[i] == groups[i];
      } else if i < at {
        assert r[i] == groups[i] && r[j] == groups[j - 1];
      } else if i == at {
        assert r[j] == groups[j - 1];
      } else {
        assert r[i] == groups[i - 1] && r[j] == groups[j - 1];
      }
    }
  }

  lemma {:induction false} AddPlaneKeepsOrder(groups: DriftGroups, plane: Plane, tolerance: real)
    requires KeysIncreasing(groups)
    ensures KeysIncreasing(AddPlane(groups, plane, tolerance))
  {
    var d := plane.driftCoord;
    var k := LowerBound(groups, d);
    if k < |groups| && groups[k].0 - d <= tolerance {
      JoinKeepsOrder(groups, plane, tolerance);
    } else {
      var key := d + tolerance / 2.0;
      var at := LowerBound(groups, key);
      if at < |groups| && groups[at].0 == key {
        assert AddPlane(groups, plane, tolerance) == groups;
      } else {
        NewGroupKeepsOrder(groups, plane, tolerance);
      }
    }
  }

  lemma {:induction false} JoinKeepsOrder(groups: DriftGroups, plane: Plane, tolerance: real)
    requires KeysIncreasing(groups)
    requires var k := LowerBound(groups, plane.driftCoord);
             k < |groups| && groups[k].0 - plane.driftCoord <= tolerance
    ensures KeysIncreasing(AddPlane(groups, plane, tolerance))
  {
    var k := LowerBound(groups, plane.driftCoord);
    assert AddPlane(groups, plane, tolerance) == groups[k := (groups[k].0, groups[k].1 + [plane])];
    UpdateKeepsOrder(groups, k, groups[k].1 + [plane]);
  }

  lemma {:induction false} NewGroupKeepsOrder(groups: DriftGroups, plane: Plane, tolerance: real)
    requires KeysIncreasing(groups)
    requires var k := LowerBound(groups, plane.driftCoord);
             !(k < |groups| && groups[k].0 - plane.driftCoord <= tolerance)
    requires var at := LowerBound(groups, plane.driftCoord + tolerance / 2.0);
             !(at < |groups| && groups[at].0 == plane.driftCoord + tolerance / 2.0)
    ensures KeysIncreasing(AddPlane(groups, plane, tolerance))
  {
    var key := plane.driftCoord + tolerance / 2.0;
    var at := LowerBound(groups, key);
    var r := groups[..at] + [(key, [plane])] + groups[at..];
    assert AddPlane(groups, plane, tolerance) == r by { AddPlaneInserts(groups, plane, tolerance); }
    assert KeysIncreasing(r) by { InsertKeepsOrder(groups, at, (key, [plane])); }
  }

  lemma {:induction false} UpdateKeepsOrder(groups: DriftGroups, k: nat, planes: seq<Plane>)
    requires KeysIncreasing(groups) && k < |groups|
    ensures KeysIncreasing(groups[k := (groups[k].0, planes)])
  {
    var r := groups[k := (groups[k].0, planes)];
    assert forall i :: 0 <= i < |r| ==> r[i].0 == groups[i].0;
  }

  /** Whatever the tolerance, the keys come out strictly increasing, so the
   *  groups are in order of drift coordinate. */
  lemma {:induction false} GroupedKeysIncrease(planes: seq<Plane>, tolerance: real)
    ensures KeysIncreasing(Grouped(planes, tolerance))
  {
    if planes != [] {
      GroupedKeysIncrease(planes[..|planes| - 1], tolerance);
      AddPlaneKeepsOrder(Grouped(planes[..|planes| - 1], tolerance), planes[|planes| - 1], tolerance);
    }
  }

  lemma {:induction false} AllPlanesOfOne(g: (real, seq<Plane>))
    ensures AllPlanes([g]) == g.1
  {
    assert [g][1..] == [];
  }

  lemma {:induction false} AllPlanesAfterUpdate(groups: DriftGroups, k: nat, g: (real, seq<Plane>))
    requires k < |groups|
    ensures AllPlanes(groups) == AllPlanes(groups[..k]) + groups[k].1 + AllPlanes(groups[k + 1..])
    ensures AllPlanes(groups[k := g]) == AllPlanes(groups[..k]) + g.1 + AllPlanes(groups[k + 1..])
    ensures multiset(AllPlanes(groups[k := g])) + multiset(groups[k].1) == multiset(AllPlanes(groups)) + multiset(g.1)
  {
    AllPlanesConcat(groups[..k], [groups[k]] + groups[k + 1..]);
    AllPlanesConcat([groups[k]], groups[k + 1..]);
    AllPlanesConcat(groups[..k], [g] + groups[k + 1..]);
    AllPlanesConcat([g], groups[k + 1..]);
    AllPlanesOfOne(g);
    AllPlanesOfOne(groups[k]);
    assert groups == groups[..k] + ([groups[k]] + groups[k + 1..]);
    assert groups[k := g] == groups[..k] + ([g] + groups[k + 1..]);
  }

  lemma {:induction false} AllPlanesAfterInsert(groups: DriftGroups, at: nat, g: (real, seq<Plane>))
    requires at <= |groups|
    ensures AllPlanes(groups) == AllPlanes(groups[..at]) + AllPlanes(groups[at..])
    ensures AllPlanes(groups[..at] + [g] + groups[at..]) == AllPlanes(groups[..at]) + (g.1 + AllPlanes(groups[at..]))
  {
    var front, back := groups[..at], groups[at..];
    AllPlanesSplit(groups, at);
    AllPlanesInFront(g, back);
    AllPlanesConcat(front, [g] + back);
    ConcatAssociates(front, [g], back);
  }

  lemma {:induction false} ConcatAssociates<T>(a: seq<T>, b: seq<T>, c: seq<T>)
    ensures a + b + c == a + (b + c)
  {
  }

  lemma {:induction false} AllPlanesSplit(groups: DriftGroups, at: nat)
    requires at <= |groups|
    ensures AllPlanes(groups) == AllPlanes(groups[..at]) + AllPlanes(groups[at..])
  {
    AllPlanesConcat(groups[..at], groups[at..]);
    assert groups == groups[..at] + groups[at..];
  }

  lemma {:induction false} AllPlanesInFront(g: (real, seq<Plane>), back: DriftGroups)
    ensures AllPlanes([g] + back) == g.1 + AllPlanes(back)
  {
    assert ([g] + back)[1..] == back;
  }

  lemma {:induction false} InsertAddsPlanes(groups: DriftGroups, at: nat, g: (real, seq<Plane>))
    requires at <= |groups|
    ensures multiset(AllPlanes(groups[..at] + [g] + groups[at..])) == multiset(AllPlanes(groups)) + multiset(g.1)
  {
    AllPlanesAfterInsert(groups, at, g);
    var front, back := AllPlanes(groups[..at]), AllPlanes(groups[at..]);
    assert multiset(front + (g.1 + back)) == multiset(front) + multiset(g.1) + multiset(back);
  }

  /** The key a new group would get is free when the plane could not join
   *  an existing group, as long as the tolerance is not negative. */
  lemma {:induction false} NewKeyIsFree(groups: DriftGroups, d: real, tolerance: real)
    requires KeysIncreasing(groups) && tolerance >= 0.0
    requires !(LowerBound(groups, d) < |groups| && groups[LowerBound(groups, d)].0 - d <= tolerance)
    ensures !(LowerBound(groups, d + tolerance / 2.0) < |groups|
              && groups[LowerBound(groups, d + tolerance / 2.0)].0 == d + tolerance / 2.0)
  {
    var k := LowerBound(groups, d);
    var at := LowerBound(groups, d + tolerance / 2.0);
    if at < |groups| {
      assert groups[at].0 >= d;
      assert k <= at;
      assert groups[k].0 <= groups[at].0;
      assert groups[at].0 > d + tolerance / 2.0;
    }
  }

  /** Where a plane that cannot join a group goes. */
  lemma {:induction false} AddPlaneInserts(groups: DriftGroups, plane: Plane, tolerance: real)
    requires var k := LowerBound(groups, plane.driftCoord);
             !(k < |groups| && groups[k].0 - plane.driftCoord <= tolerance)
    requires var at := LowerBound(groups, plane.driftCoord + tolerance / 2.0);
             !(at < |groups| && groups[at].0 == plane.driftCoord + tolerance / 2.0)
    ensures var key := plane.driftCoord + tolerance / 2.0;
            var at := LowerBound(groups, key);
            AddPlane(groups, plane, tolerance) == groups[..at] + [(key, [plane])] + groups[at..]
  {
  }

  /** With a tolerance that is not negative the new key is never taken, so
   *  the plane lands in exactly one group. */
  lemma {:induction false} AddPlaneKeepsPlanes(groups: DriftGroups, plane: Plane, tolerance: real)
    requires KeysIncreasing(groups) && tolerance >= 0.0
    ensures multiset(AllPlanes(AddPlane(groups, plane, tolerance))) == multiset(AllPlanes(groups)) + multiset{plane}
  {
    var d := plane.driftCoord;
    var k := LowerBound(groups, d);
    if !(k < |groups| && groups[k].0 - d <= tolerance) {
      NewKeyIsFree(groups, d, tolerance);
    }
    AddPlaneAddsPlane(groups, plane, tolerance);
  }

  lemma {:induction false} AddPlaneAddsPlane(groups: DriftGroups, plane: Plane, tolerance: real)
    requires var k := LowerBound(groups, plane.driftCoord);
             !(k < |groups| && groups[k].0 - plane.driftCoord <= tolerance) ==>
             var at := LowerBound(groups, plane.driftCoord + tolerance / 2.0);
             !(at < |groups| && groups[at].0 == plane.driftCoord + tolerance / 2.0)
    ensures multiset(AllPlanes(AddPlane(groups, plane, tolerance))) == multiset(AllPlanes(groups)) + multiset{plane}
  {
    var k := LowerBound(groups, plane.driftCoord);
    if k < |groups| && groups[k].0 - plane.driftCoord <= tolerance {
      JoinAddsPlane(groups, plane, tolerance);
    } else {
      NewGroupAddsPlane(groups, plane, tolerance);
    }
  }

  lemma {:induction false} NewGroupAddsPlane(groups: DriftGroups, plane: Plane, tolerance: real)
    requires var k := LowerBound(groups, plane.driftCoord);
             !(k < |groups| && groups[k].0 - plane.driftCoord <= tolerance)
    requires var at := LowerBound(groups, plane.driftCoord + tolerance / 2.0);
             !(at < |groups| && groups[at].0 == plane.driftCoord + tolerance / 2.0)
    ensures multiset(AllPlanes(AddPlane(groups, plane, tolerance))) == multiset(AllPlanes(groups)) + multiset{plane}
  {
    var key := plane.driftCoord + tolerance / 2.0;
    var at := LowerBound(groups, key);
    var r := groups[..at] + [(key, [plane])] + groups[at..];
    AddPlaneInserts(groups, plane, tolerance);
    assert AddPlane(groups, plane, tolerance) == r;
    InsertAddsPlanes(groups, at, (key, [plane]));
    assert multiset(AllPlanes(r)) == multiset(AllPlanes(groups)) + multiset([plane]);
    assert multiset([plane]) == multiset{plane};
  }

  lemma {:induction false} JoinAddsPlane(groups: DriftGroups, plane: Plane, tolerance: real)
    requires var k := LowerBound(groups, plane.driftCoord);
             k < |groups| && groups[k].0 - plane.driftCoord <= tolerance
    ensures multiset(AllPlanes(AddPlane(groups, plane, tolerance))) == multiset(AllPlanes(groups)) + multiset{plane}
  {
    var k := LowerBound(groups, plane.driftCoord);
    var g := (groups[k].0, groups[k].1 + [plane]);
    assert AddPlane(groups, plane, tolerance) == groups[k := g];
    AllPlanesAfterUpdate(groups, k, g);
  }

  /** With a tolerance that is not negative the groups hold each plane
   *  exactly once: they partition the input. */
  lemma {:induction false} GroupedKeepsPlanes(planes: seq<Plane>, tolerance: real)
    requires tolerance >= 0.0
    ensures multiset(Flatten(GroupPlanes(Grouped(planes, tolerance)))) == multiset(planes)
  {
    AllPlanesAreFlattened(Grouped(planes, tolerance));
    GroupedHoldsPlanes(planes, tolerance);
  }

  lemma {:induction false} GroupedHoldsPlanes(planes: seq<Plane>, tolerance: real)
    requires tolerance >= 0.0
    ensures multiset(AllPlanes(Grouped(planes, tolerance))) == multiset(planes)
  {
    if planes != [] {
      var init := planes[..|planes| - 1];
      GroupedHoldsPlanes(init, tolerance);
      GroupedKeysIncrease(init, tolerance);
      AddPlaneKeepsPlanes(Grouped(init, tolerance), planes[|planes| - 1], tolerance);
      assert planes == init + [planes[|planes| - 1]];
    }
  }

  /** Every plane of a group lies at most `tolerance` below the group's key
   *  and not above it. */
  ghost predicate InBand(g: (real, seq<Plane>), tolerance: real)
  {
    forall p :: p in g.1 ==> p.driftCoord <= g.0 <= p.driftCoord + tolerance
  }

  lemma {:induction false} AddPlaneKeepsBand(groups: DriftGroups, plane: Plane, tolerance: real)
    requires tolerance >= 0.0
    requires forall g :: g in groups ==> InBand(g, tolerance)
    ensures forall g :: g in AddPlane(groups, plane, tolerance) ==> InBand(g, tolerance)
  {
    var d := plane.driftCoord;
    var k := LowerBound(groups, d);
    if k < |groups| && groups[k].0 - d <= tolerance {
      var r := groups[k := (groups[k].0, groups[k].1 + [plane])];
      assert InBand(groups[k], tolerance);
      forall g | g in r
        ensures InBand(g, tolerance)
      {
        var i :| 0 <= i < |r| && r[i] == g;
        if i != k {
          assert g in groups;
        }
      }
    }
  }

  /** The drift coordinates of a group's planes lie within `tolerance` of
   *  each other, below the group's key. */
  lemma {:induction false} GroupedWithinTolerance(planes: seq<Plane>, tolerance: real)
    requires tolerance >= 0.0
    ensures forall g :: g in Grouped(planes, tolerance) ==> InBand(g, tolerance)
  {
    if planes != [] {
      GroupedWithinTolerance(planes[..|planes| - 1], tolerance);
      AddPlaneKeepsBand(Grouped(planes[..|planes| - 1], tolerance), planes[|planes| - 1], tolerance);
    }
  }

  lemma {:induction false} AddPlaneKeepsInputOrder(groups: DriftGroups, before: seq<Plane>, plane: Plane, tolerance: real)
    requires forall g :: g in groups ==> SubsequenceOf(g.1, before)
    ensures forall g :: g in AddPlane(groups, plane, tolerance) ==> SubsequenceOf(g.1, before + [plane])
  {
    var d := plane.driftCoord;
    var k := LowerBound(groups, d);
    if k < |groups| && groups[k].0 - d <= tolerance {
      JoinKeepsInputOrder(groups, before, plane, tolerance);
    } else {
      var key := d + tolerance / 2.0;
      var at := LowerBound(groups, key);
      if at < |groups| && groups[at].0 == key {
        ExtendAll(groups, before, plane);
        assert AddPlane(groups, plane, tolerance) == groups;
      } else {
        NewGroupKeepsInputOrder(groups, before, plane, tolerance);
      }
    }
  }

  lemma {:induction false} JoinKeepsInputOrder(groups: DriftGroups, before: seq<Plane>, plane: Plane, tolerance: real)
    requires forall g :: g in groups ==> SubsequenceOf(g.1, before)
    requires var k := LowerBound(groups, plane.driftCoord);
             k < |groups| && groups[k].0 - plane.driftCoord <= tolerance
    ensures forall g :: g in AddPlane(groups, plane, tolerance) ==> SubsequenceOf(g.1, before + [plane])
  {
    var k := LowerBound(groups, plane.driftCoord);
    ExtendAll(groups, before, plane);
    assert groups[k] in groups;
    SubsequenceExtends(groups[k].1, before, plane);
    assert AddPlane(groups, plane, tolerance) == groups[k := (groups[k].0, groups[k].1 + [plane])];
    UpdateKeepsSubsequences(groups, k, groups[k].1 + [plane], before + [plane]);
  }

  lemma {:induction false} NewGroupKeepsInputOrder(groups: DriftGroups, before: seq<Plane>, plane: Plane, tolerance: real)
    requires forall g :: g in groups ==> SubsequenceOf(g.1, before)
    requires var k := LowerBound(groups, plane.driftCoord);
             !(k < |groups| && groups[k].0 - plane.driftCoord <= tolerance)
    requires var at := LowerBound(groups, plane.driftCoord + tolerance / 2.0);
             !(at < |groups| && groups[at].0 == plane.driftCoord + tolerance / 2.0)
    ensures forall g :: g in AddPlane(groups, plane, tolerance) ==> SubsequenceOf(g.1, before + [plane])
  {
    var key := plane.driftCoord + tolerance / 2.0;
    ExtendAll(groups, before, plane);
    SubsequenceExtends([], before, plane);
    assert [] + [plane] == [plane];
    AddPlaneInserts(groups, plane, tolerance);
    InsertKeepsSubsequences(groups, LowerBound(groups, key), (key, [plane]), before + [plane]);
  }

  lemma {:induction false} ExtendAll(groups: DriftGroups, before: seq<Plane>, plane: Plane)
    requires forall g :: g in groups ==> SubsequenceOf(g.1, before)
    ensures forall i :: 0 <= i < |groups| ==> SubsequenceOf(groups[i].1, before + [plane])
  {
    forall i | 0 <= i < |groups|
      ensures SubsequenceOf(groups[i].1, before + [plane])
    {
      assert groups[i] in groups;
      SubsequenceExtends(groups[i].1, before, plane);
    }
  }

  lemma {:induction false} UpdateKeepsSubsequences(groups: DriftGroups, k: nat, planes: seq<Plane>, s: seq<Plane>)
    requires k < |groups|
    requires forall i :: 0 <= i < |groups| ==> SubsequenceOf(groups[i].1, s)
    requires SubsequenceOf(planes, s)
    ensures forall g :: g in groups[k := (groups[k].0, planes)] ==> SubsequenceOf(g.1, s)
  {
    var r := groups[k := (groups[k].0, planes)];
    assert forall i :: 0 <= i < |r| ==> SubsequenceOf(r[i].1, s);
  }

  lemma {:induction false} InsertKeepsSubsequences(groups: DriftGroups, at: nat, g: (real, seq<Plane>), s: seq<Plane>)
    requires at <= |groups|
    requires forall i :: 0 <= i < |groups| ==> SubsequenceOf(groups[i].1, s)
    requires SubsequenceOf(g.1, s)
    ensures forall x :: x in groups[..at] + [g] + groups[at..] ==> SubsequenceOf(x.1, s)
  {
    var r := groups[..at] + [g] + groups[at..];
    forall i | 0 <= i < |r|
      ensures SubsequenceOf(r[i].1, s)
    {
      if i < at {
        assert r[i] == groups[i];
      } else if at < i {
        assert r[i] == groups[i - 1];
      }
    }
  }

  /** Grouping is stable: each group lists its planes in input order. */
  lemma {:induction false} GroupingIsStable(planes: seq<Plane>, tolerance: real)
    ensures forall g :: g in Grouped(planes, tolerance) ==> SubsequenceOf(g.1, planes)
  {
    if planes != [] {
      var init := planes[..|planes| - 1];
      GroupingIsStable(init, tolerance);
      AddPlaneKeepsInputOrder(Grouped(init, tolerance), init, planes[|planes| - 1], tolerance);
      assert init + [planes[|planes| - 1]] == planes;
    }
  }

  // ---------------------------------------------------------------------------
  // Planes that must form a readout plane of their own

  /** The standalone planes of `group`, each as a group of its own, in
   *  order, then the other planes together if there are any. */
  function SplitGroup(group: seq<Plane>, standalone: Plane -> bool): seq<seq<Plane>>
  {
    var singles := Singles(group, standalone);
    var rest := Others(group, standalone);
    singles + (if rest == [] then [] else [rest])
  }

  function Singles(group: seq<Plane>, standalone: Plane -> bool): (r: seq<seq<Plane>>)
  {
    if group == [] then []
    else
      var last := group[|group| - 1];
      Singles(group[..|group| - 1], standalone) + (if standalone(last) then [[last]] else [])
  }

  function Others(group: seq<Plane>, standalone: Plane -> bool): (r: seq<Plane>)
  {
    if group == [] then []
    else
      var last := group[|group| - 1];
      Others(group[..|group| - 1], standalone) + (if standalone(last) then [] else [last])
  }

  /** The split groups of all non-empty `protoGroups`, in order. */
  function SplitAll(protoGroups: seq<seq<Plane>>, standalone: Plane -> bool): seq<seq<Plane>>
  {
    if protoGroups == [] then []
    else
      var last := protoGroups[|protoGroups| - 1];
      SplitAll(protoGroups[..|protoGroups| - 1], standalone)
        + (if last == [] then [] else SplitGroup(last, standalone))
  }

  /** The inner loop of the separation: the standalone planes one by one,
   *  and the others. */
  method SeparateStandalone(protoGroup: seq<Plane>, standalone: Plane -> bool)
    returns (singles: seq<seq<Plane>>, group: seq<Plane>)
    ensures singles == Singles(protoGroup, standalone)
    ensures group == Others(protoGroup, standalone)
  {
    singles := [];
    group := [];
    for j := 0 to |protoGroup|
      invariant singles == Singles(protoGroup[..j], standalone)
      invariant group == Others(protoGroup[..j], standalone)
    {
      assert protoGroup[..j + 1][..j] == protoGroup[..j];
      if standalone(protoGroup[j]) {
        singles := singles + [[protoGroup[j]]];
      } else {
        group := group + [protoGroup[j]];
      }
    }
    assert protoGroup[..|protoGroup|] == protoGroup;
  }

  /** The separation loop of `groupPlanesAndTPCs`. */
  method SplitStandalone(protoGroups: seq<seq<Plane>>, standalone: Plane -> bool) returns (groupedPlanes: seq<seq<Plane>>)
    ensures groupedPlanes == SplitAll(protoGroups, standalone)
  {
    groupedPlanes := [];
    for i := 0 to |protoGroups|
      invariant groupedPlanes == SplitAll(protoGroups[..i], standalone)
    {
      SplitAllOneMore(protoGroups, i, standalone);
      var protoGroup := protoGroups[i];
      if protoGroup == [] {
        continue;
      }
      var singles, group := SeparateStandalone(protoGroup, standalone);
      ghost var before := groupedPlanes;
      groupedPlanes := groupedPlanes + singles;
      if group != [] {
        groupedPlanes := groupedPlanes + [group];
        ConcatAssociates(before, singles, [group]);
      }
    }
    assert protoGroups[..|protoGroups|] == protoGroups;
  }

  lemma {:induction false} SplitAllOneMore(protoGroups: seq<seq<Plane>>, i: nat, standalone: Plane -> bool)
    requires i < |protoGroups|
    ensures SplitAll(protoGroups[..i + 1], standalone)
         == SplitAll(protoGroups[..i], standalone) + (if protoGroups[i] == [] then [] else SplitGroup(protoGroups[i], standalone))
  {
    assert protoGroups[..i + 1][..i] == protoGroups[..i];
  }

  lemma {:induction false} FlattenOfOne<T>(x: seq<T>)
    ensures Flatten([x]) == x
  {
    assert [x][1..] == [];
  }

  lemma {:induction false} SeparateStep(group: seq<Plane>, standalone: Plane -> bool)
    requires group != []
    ensures var init, last := group[..|group| - 1], group[|group| - 1];
            multiset(Flatten(Singles(group, standalone))) + multiset(Others(group, standalone))
            == multiset(Flatten(Singles(init, standalone))) + multiset(Others(init, standalone)) + multiset{last}
  {
    var init, last := group[..|group| - 1], group[|group| - 1];
    var s0 := Singles(init, standalone);
    if standalone(last) {
      assert Singles(group, standalone) == s0 + [[last]];
      FlattenConcat(s0, [[last]]);
      FlattenOfOne([last]);
    } else {
      assert Singles(group, standalone) == s0;
    }
  }

  lemma {:induction false} SplitGroupKeepsPlanes(group: seq<Plane>, standalone: Plane -> bool)
    ensures multiset(Flatten(Singles(group, standalone))) + multiset(Others(group, standalone)) == multiset(group)
  {
    if group != [] {
      var init := group[..|group| - 1];
      assert group == init + [group[|group| - 1]];
      SplitGroupKeepsPlanes(init, standalone);
      SeparateStep(group, standalone);
    }
  }

  lemma {:induction false} SeparatedProperly(group: seq<Plane>, standalone: Plane -> bool)
    ensures forall g :: g in Singles(group, standalone) ==> |g| == 1 && standalone(g[0])
    ensures forall p :: p in Others(group, standalone) ==> !standalone(p)
  {
    if group != [] {
      SeparatedProperly(group[..|group| - 1], standalone);
    }
  }

  /** After the split every group is non-empty, and a standalone plane is
   *  alone in its group. */
  lemma {:induction false} SplitGroupsAreProper(protoGroups: seq<seq<Plane>>, standalone: Plane -> bool)
    ensures forall g :: g in SplitAll(protoGroups, standalone) ==> g != []
    ensures forall g :: g in SplitAll(protoGroups, standalone) ==> |g| == 1 || forall p :: p in g ==> !standalone(p)
  {
    if protoGroups != [] {
      var init := protoGroups[..|protoGroups| - 1];
      SplitGroupsAreProper(init, standalone);
      SeparatedProperly(protoGroups[|protoGroups| - 1], standalone);
    }
  }

  /** The split keeps every plane exactly once. */
  lemma {:induction false} SplitKeepsPlanes(protoGroups: seq<seq<Plane>>, standalone: Plane -> bool)
    ensures multiset(Flatten(SplitAll(protoGroups, standalone))) == multiset(Flatten(protoGroups))
  {
    if protoGroups != [] {
      SplitKeepsPlanes(protoGroups[..|protoGroups| - 1], standalone);
      SplitAllStep(protoGroups, standalone);
      FlattenLast(protoGroups);
    }
  }

  lemma {:induction false} FlattenLast<T>(ss: seq<seq<T>>)
    requires ss != []
    ensures Flatten(ss) == Flatten(ss[..|ss| - 1]) + ss[|ss| - 1]
  {
    var init, last := ss[..|ss| - 1], ss[|ss| - 1];
    FlattenConcat(init, [last]);
    FlattenOfOne(last);
    assert ss == init + [last];
  }

  lemma {:induction false} SplitAllStep(protoGroups: seq<seq<Plane>>, standalone: Plane -> bool)
    requires protoGroups != []
    ensures var init, last := protoGroups[..|protoGroups| - 1], protoGroups[|protoGroups| - 1];
            multiset(Flatten(SplitAll(protoGroups, standalone)))
            == multiset(Flatten(SplitAll(init, standalone))) + multiset(last)
  {
    var init, last := protoGroups[..|protoGroups| - 1], protoGroups[|protoGroups| - 1];
    var before := SplitAll(init, standalone);
    if last != [] {
      var split := SplitGroup(last, standalone);
      assert SplitAll(protoGroups, standalone) == before + split;
      FlattenConcat(before, split);
      SplitGroupFlattens(last, standalone);
    } else {
      assert SplitAll(protoGroups, standalone) == before + [];
      assert before + [] == before;
    }
  }

  lemma {:induction false} SplitGroupFlattens(group: seq<Plane>, standalone: Plane -> bool)
    ensures multiset(Flatten(SplitGroup(group, standalone))) == multiset(group)
  {
    var singles := Singles(group, standalone);
    var rest := Others(group, standalone);
    var tail: seq<seq<Plane>> := if rest == [] then [] else [rest];
    FlattenConcat(singles, tail);
    if rest != [] {
      FlattenOfOne(rest);
    }
    SplitGroupKeepsPlanes(group, standalone);
  }

  /** `groupPlanesAndTPCs` for one cryostat given as its TPCs' planes: all
   *  planes, TPC after TPC, grouped by drift coordinate, then split. */
  function ROPsOfCryostat(tpcs: seq<seq<Plane>>, standalone: Plane -> bool): seq<seq<Plane>>
  {
    SplitAll(GroupPlanes(Grouped(Flatten(tpcs), DriftTolerance)), standalone)
  }

  /** The candidate readout planes of a cryostat partition its wire planes
   *  into non-empty groups. */
  lemma {:induction false} ROPsPartitionPlanes(tpcs: seq<seq<Plane>>, standalone: Plane -> bool)
    ensures forall g :: g in ROPsOfCryostat(tpcs, standalone) ==> g != []
    ensures multiset(Flatten(ROPsOfCryostat(tpcs, standalone))) == multiset(Flatten(tpcs))
  {
    var protoGroups := GroupPlanes(Grouped(Flatten(tpcs), DriftTolerance));
    SplitGroupsAreProper(protoGroups, standalone);
    SplitKeepsPlanes(protoGroups, standalone);
    GroupedKeepsPlanes(Flatten(tpcs), DriftTolerance);
  }

  /** `groupPlanesAndTPCs`: the candidate readout planes of each cryostat,
   *  each cryostat given as the planes of its TPCs. */
  method GroupPlanesAndTPCs(cryostats: seq<seq<seq<Plane>>>, standalone: Plane -> bool)
    returns (allPlanesInROPs: seq<seq<seq<Plane>>>)
    ensures |allPlanesInROPs| == |cryostats|
    ensures forall c :: 0 <= c < |cryostats| ==> allPlanesInROPs[c] == ROPsOfCryostat(cryostats[c], standalone)
  {
    allPlanesInROPs := [];
    for c := 0 to |cryostats|
      invariant |allPlanesInROPs| == c
      invariant forall k :: 0 <= k < c ==> allPlanesInROPs[k] == ROPsOfCryostat(cryostats[k], standalone)
    {
      var planes: seq<Plane> := [];
      for t := 0 to |cryostats[c]|
        invariant planes == Flatten(cryostats[c][..t])
      {
        FlattenConcat(cryostats[c][..t], [cryostats[c][t]]);
        FlattenOfOne(cryostats[c][t]);
        assert cryostats[c][..t + 1] == cryostats[c][..t] + [cryostats[c][t]];
        planes := planes + cryostats[c][t];
      }
      assert cryostats[c][..|cryostats[c]|] == cryostats[c];
      var protoGroups := GroupPlanesByDriftCoord(planes, DriftTolerance);
      var groupedPlanes := SplitStandalone(protoGroups, standalone);
      allPlanesInROPs := allPlanesInROPs + [groupedPlanes];
    }
  }

  // ---------------------------------------------------------------------------
  // TPCs and plane numbers of a group

  /** `extractTPCIDs`: the TPC of each plane, in order, repeats included. */
  function ExtractTPCIDs(planes: seq<Plane>): (r: seq<TPCID>)
    ensures |r| == |planes|
    ensures forall i :: 0 <= i < |planes| ==> r[i] == planes[i].id.AsTPCID()
  {
    if planes == [] then [] else ExtractTPCIDs(planes[..|planes| - 1]) + [planes[|planes| - 1].id.AsTPCID()]
  }

  /** Every TPC of the readout plane is one of the TPC set's. */
  predicate InTPCset(ropTPCs: seq<TPCID>, tpcsetTPCs: seq<TPCID>)
  {
    forall i :: 0 <= i < |ropTPCs| ==> ropTPCs[i] in tpcsetTPCs
  }

  /** `isROPinTPCset`: true for a readout plane without TPCs. */
  method IsROPinTPCset(ropTPCs: seq<TPCID>, tpcsetTPCs: seq<TPCID>) returns (r: bool)
    ensures r <==> InTPCset(ropTPCs, tpcsetTPCs)
    ensures ropTPCs == [] ==> r
  {
    for i := 0 to |ropTPCs|
      invariant forall k :: 0 <= k < i ==> ropTPCs[k] in tpcsetTPCs
    {
      var found := false;
      for j := 0 to |tpcsetTPCs|
        invariant found <==> ropTPCs[i] in tpcsetTPCs[..j]
      {
        assert tpcsetTPCs[..j + 1] == tpcsetTPCs[..j] + [tpcsetTPCs[j]];
        if tpcsetTPCs[j] == ropTPCs[i] {
          found := true;
          assert ropTPCs[i] in tpcsetTPCs;
          break;
        }
      }
      assert tpcsetTPCs[..|tpcsetTPCs|] == tpcsetTPCs;
      if !found {
        return false;
      }
    }
    return true;
  }

  /** `ROPnumberFromPlanes`: the plane number all `planes` share; none for
   *  no planes or for mixed numbers. */
  method ROPnumberFromPlanes(planes: seq<Plane>) returns (r: Option<nat>)
    ensures r.Some? <==> planes != [] && forall i :: 0 <= i < |planes| ==> planes[i].id.plane == planes[0].id.plane
    ensures r.Some? ==> r.value == planes[0].id.plane
  {
    r := None;
    for i := 0 to |planes|
      invariant i == 0 <==> r.None?
      invariant r.Some? ==> r.value == planes[0].id.plane && forall k :: 0 <= k < i ==> planes[k].id.plane == r.value
    {
      var fromPlane := planes[i].id.plane;
      if r.None? {
        r := Some(fromPlane);
      } else if r.value != fromPlane {
        return None;
      }
    }
  }
}
