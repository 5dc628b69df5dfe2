/** `icarus::ns::util::GroupByIndex`: objects grouped by an index extracted
 *  from each of them.  Group `g` lists (pointers to) the objects whose index
 *  is `g`, in collection order; there is a group for every index from 0 up to
 *  the largest one met.  The map is built once, by the constructor.
 *
 *  A pointer to an object is modelled by the object's position in the
 *  collection. */
module GroupByIndex {

  /** The number of groups for the indices `idx`: one more than the largest,
   *  none for no index at all. */
  function GroupCount(idx: seq<nat>): (n: nat)
    ensures forall i :: 0 <= i < |idx| ==> idx[i] < n
    ensures |idx| == 0 <==> n == 0
    ensures n > 0 ==> exists i :: 0 <= i < |idx| && idx[i] == n - 1
  {
    if |idx| == 0 then 0
    else
      var before := GroupCount(idx[..|idx| - 1]);
      var last := idx[|idx| - 1];
      if last + 1 > before then last + 1
      else
        assert forall i :: 0 <= i < |idx| - 1 ==> idx[..|idx| - 1][i] == idx[i];
        before
  }

  /** The positions whose index is `g`, in increasing order. */
  function PositionsWith(idx: seq<nat>, g: nat): (r: seq<nat>)
    ensures forall k :: 0 <= k < |r| ==> r[k] < |idx| && idx[r[k]] == g
    ensures forall a, b :: 0 <= a < b < |r| ==> r[a] < r[b]
  {
    if |idx| == 0 then []
    else
      PositionsWith(idx[..|idx| - 1], g) + (if idx[|idx| - 1] == g then [|idx| - 1] else [])
  }

  /** No position has an index at or beyond the group count. */
  lemma {:induction false} NoneBeyond(idx: seq<nat>, g: nat)
    ensures g >= GroupCount(idx) ==> PositionsWith(idx, g) == []
  {
    if |idx| > 0 {
      NoneBeyond(idx[..|idx| - 1], g);
    }
  }

  /** Every position is in the group of its own index. */
  lemma {:induction false} InOwnGroup(idx: seq<nat>, i: nat)
    requires i < |idx|
    ensures i in PositionsWith(idx, idx[i])
  {
    var prefix := idx[..|idx| - 1];
    if i < |idx| - 1 {
      InOwnGroup(prefix, i);
      assert prefix[i] == idx[i];
    }
  }

  /** The total number of entries over all groups. */
  function Total(groups: seq<seq<nat>>): (n: nat)
  {
    if |groups| == 0 then 0 else Total(groups[..|groups| - 1]) + |groups[|groups| - 1]|
  }

  lemma {:induction false} TotalOfEmpties(groups: seq<seq<nat>>, extra: nat)
    ensures Total(groups + seq(extra, _ => [])) == Total(groups)
  {
    if extra > 0 {
      var shorter := groups + seq(extra - 1, _ => []);
      assert (groups + seq(extra, _ => []))[..|shorter|] == shorter;
      TotalOfEmpties(groups, extra - 1);
    } else {
      assert groups + seq(extra, _ => []) == groups;
    }
  }

  lemma {:induction false} TotalAfterPush(groups: seq<seq<nat>>, g: nat, x: nat)
    requires g < |groups|
    ensures Total(groups[g := groups[g] + [x]]) == Total(groups) + 1
  {
    var n := |groups|;
    var after := groups[g := groups[g] + [x]];
    if g == n - 1 {
      assert after[..n - 1] == groups[..n - 1];
    } else {
      assert after[..n - 1] == groups[..n - 1][g := groups[g] + [x]];
      TotalAfterPush(groups[..n - 1], g, x);
    }
  }

  /** `accessMap(index).push_back(i)`: the map grown with empty groups up to
   *  `index` if needed, and `i` appended to group `index`. */
  function Push(m: seq<seq<nat>>, index: nat, i: nat): (r: seq<seq<nat>>)
    ensures |r| == if index < |m| then |m| else index + 1
  {
    var grown := if index < |m| then m else m + seq(index + 1 - |m|, _ => []);
    grown[index := grown[index] + [i]]
  }

  /** The map after each of the indices `idx` has been pushed in turn. */
  function PushAll(idx: seq<nat>): (m: seq<seq<nat>>)
  {
    if |idx| == 0 then [] else Push(PushAll(idx[..|idx| - 1]), idx[|idx| - 1], |idx| - 1)
  }

  /** Pushing the indices one by one groups every position by its index. */
  lemma {:induction false} PushAllGroups(idx: seq<nat>)
    ensures Groups(PushAll(idx), idx)
    ensures Total(PushAll(idx)) == |idx|
  {
    if |idx| > 0 {
      var n := |idx| - 1;
      PushAllGroups(idx[..n]);
      PushStep(PushAll(idx[..n]), idx, n);
      assert idx[..n + 1] == idx;
    }
  }

  /** Pushing position `n` keeps the map grouped by index. */
  lemma {:induction false} PushStep(before: seq<seq<nat>>, idx: seq<nat>, n: nat)
    requires n < |idx| && Groups(before, idx[..n]) && Total(before) == n
    ensures Groups(Push(before, idx[n], n), idx[..n + 1])
    ensures Total(Push(before, idx[n], n)) == n + 1
  {
    var grown := if idx[n] < |before| then before else before + seq(idx[n] + 1 - |before|, _ => []);
    if idx[n] >= |before| {
      TotalOfEmpties(before, idx[n] + 1 - |before|);
      GrowKeepsGroups(before, idx[..n], idx[n] + 1 - |before|);
    }
    TotalAfterPush(grown, idx[n], n);
    PushKeepsGroups(grown, idx, n);
  }

  /** `buildMap`: for each object in turn, the group of its index is created
   *  if missing (together with all the lower ones) and the object is
   *  appended to it. */
  method BuildMap<T>(coll: seq<T>, extractKey: T -> nat) returns (map_: seq<seq<nat>>)
    ensures Groups(map_, Keys(coll, extractKey))
    ensures Total(map_) == |coll|
  {
    ghost var idx := Keys(coll, extractKey);
    map_ := [];
    var i := 0;
    while i < |coll|
      invariant 0 <= i <= |coll|
      invariant map_ == PushAll(idx[..i])
    {
      var index := extractKey(coll[i]);
      if index >= |map_| {
        map_ := map_ + seq(index + 1 - |map_|, _ => []);
      }
      map_ := map_[index := map_[index] + [i]];
      assert idx[..i + 1][..i] == idx[..i];
      i := i + 1;
    }
    assert idx[..|coll|] == idx;
    PushAllGroups(idx);
  }

  /** `m` is the map for the indices `idx`, possibly with trailing empty
   *  groups. */
  ghost predicate GroupsUpTo(m: seq<seq<nat>>, idx: seq<nat>)
  {
    |m| >= GroupCount(idx) && forall g :: 0 <= g < |m| ==> m[g] == PositionsWith(idx, g)
  }

  /** `m` is exactly the map for the indices `idx`. */
  ghost predicate Groups(m: seq<seq<nat>>, idx: seq<nat>)
  {
    GroupsUpTo(m, idx) && |m| == GroupCount(idx)
  }

  lemma {:induction false} GrowKeepsGroups(m: seq<seq<nat>>, idx: seq<nat>, extra: nat)
    requires GroupsUpTo(m, idx)
    ensures GroupsUpTo(m + seq(extra, _ => []), idx)
  {
    forall g | |m| <= g < |m| + extra
      ensures PositionsWith(idx, g) == []
    {
      NoneBeyond(idx, g);
    }
  }

  lemma {:induction false} PushKeepsGroups(m: seq<seq<nat>>, idx: seq<nat>, i: nat)
    requires i < |idx| && GroupsUpTo(m, idx[..i]) && idx[i] < |m|
    requires |m| == GroupCount(idx[..i]) || |m| == idx[i] + 1
    ensures Groups(m[idx[i] := m[idx[i]] + [i]], idx[..i + 1])
  {
    assert idx[..i + 1][..i] == idx[..i];
  }

  /** The extracted index of every object, in collection order. */
  function Keys<T>(coll: seq<T>, extractKey: T -> nat): (idx: seq<nat>)
    ensures |idx| == |coll| && forall i :: 0 <= i < |coll| ==> idx[i] == extractKey(coll[i])
  {
    seq(|coll|, i requires 0 <= i < |coll| => extractKey(coll[i]))
  }

  /** The grouping map; it does not change after construction. */
  class GroupByIndex {
    const groups: seq<seq<nat>>
    /** The extracted indices the map was built from. */
    ghost const keys: seq<nat>

    ghost predicate Valid()
    {
      Groups(groups, keys)
    }

    constructor <T>(coll: seq<T>, extractKey: T -> nat)
      ensures keys == Keys(coll, extractKey) && Valid()
      ensures Total(groups) == |coll|
    {
      var built := BuildMap(coll, extractKey);
      groups := built;
      keys := Keys(coll, extractKey);
    }

    /** `operator[]`: the group of `index`, or the shared empty group for an
     *  index at or beyond `size()`; either way, the objects whose index is
     *  `index`. */
    function Group(index: nat): (g: seq<nat>)
      ensures Valid() ==> g == PositionsWith(keys, index)
    {
      if index < |groups| then groups[index] else NoneBeyond(keys, index); []
    }

    /** The number of groups, the empty ones included. */
    function Size(): (n: nat)
      ensures Valid() ==> n == GroupCount(keys)
    {
      |groups|
    }

    /** Whether there are no groups, that is, no objects. */
    predicate Empty()
      ensures Valid() ==> (Empty() <==> |keys| == 0)
    {
      |groups| == 0
    }
  }
}
