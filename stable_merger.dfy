/** `StableMerger`: merges collections that share a value until none do,
 *  keeping values in order of first appearance.  It turns the TPC lists of
 *  the readout planes of a cryostat into its TPC sets. */
module StableMerger {
  import opened Wrappers

  predicate NoDuplicates<T(==)>(s: seq<T>)
  {
    forall i, j :: 0 <= i < j < |s| ==> s[i] != s[j]
  }

  /** `addNewValue`: appends `value` unless `coll` already holds it, and
   *  tells whether it did. */
  method AddNewValue<T(==)>(coll: seq<T>, value: T) returns (newColl: seq<T>, added: bool)
    ensures added <==> value !in coll
    ensures added ==> newColl == coll + [value]
    ensures !added ==> newColl == coll
  {
    if value in coll {
      return coll, false;
    }
    return coll + [value], true;
  }

  /** The values of `s` in order of first occurrence, each once. */
  function Dedup<T(==)>(s: seq<T>): (r: seq<T>)
  {
    if s == [] then []
    else
      var d := Dedup(s[..|s| - 1]);
      if s[|s| - 1] in d then d else d + [s[|s| - 1]]
  }

  /** `Dedup` keeps every value exactly once, and leaves a collection
   *  without duplicates as it is. */
  lemma {:induction false} DedupFacts<T>(s: seq<T>)
    ensures NoDuplicates(Dedup(s))
    ensures forall x :: x in Dedup(s) <==> x in s
    ensures NoDuplicates(s) ==> Dedup(s) == s
  {
    if s != [] {
      var init := s[..|s| - 1];
      DedupFacts(init);
      assert s == init + [s[|s| - 1]];
      if NoDuplicates(s) {
        assert NoDuplicates(init);
        assert s[|s| - 1] !in init;
      }
    }
  }

  /** `Dedup` of a longer sequence extends `Dedup` of its prefix. */
  lemma {:induction false} DedupPrefix<T>(s: seq<T>, n: nat)
    requires n <= |s|
    ensures |Dedup(s[..n])| <= |Dedup(s)| && Dedup(s[..n]) == Dedup(s)[..|Dedup(s[..n])|]
    decreases |s| - n
  {
    if n < |s| {
      DedupPrefix(s[..|s| - 1], n);
      assert s[..|s| - 1][..n] == s[..n];
    } else {
      assert s[..n] == s;
    }
  }

  /** `mergeColls`: the values of `a`, then the values of `b` not seen
   *  yet, each once. */
  method MergeColls<T(==)>(a: seq<T>, b: seq<T>) returns (merged: seq<T>)
    ensures merged == Dedup(a + b)
  {
    merged := [];
    var added;
    for i := 0 to |a|
      invariant merged == Dedup(a[..i])
    {
      merged, added := AddNewValue(merged, a[i]);
      assert a[..i + 1][..i] == a[..i];
    }
    assert a[..|a|] == a == a + b[..0];
    for i := 0 to |b|
      invariant merged == Dedup(a + b[..i])
    {
      merged, added := AddNewValue(merged, b[i]);
      assert (a + b[..i + 1])[..|a| + i] == a + b[..i];
    }
    assert b[..|b|] == b;
  }

  /** The merge of two collections holds what either holds, once each, and
   *  starts with `a` when `a` has no duplicates. */
  lemma {:induction false} MergedCollsAreUnion<T>(a: seq<T>, b: seq<T>)
    ensures NoDuplicates(Dedup(a + b))
    ensures forall x :: x in Dedup(a + b) <==> x in a || x in b
    ensures NoDuplicates(a) ==> |a| <= |Dedup(a + b)| && Dedup(a + b)[..|a|] == a
  {
    DedupFacts(a + b);
    if NoDuplicates(a) {
      DedupPrefix(a + b, |a|);
      assert (a + b)[..|a|] == a;
      DedupFacts(a);
    }
  }

  /** Whether `a` and `b` share a value. */
  predicate Overlapping<T(==)>(a: seq<T>, b: seq<T>)
  {
    exists i :: 0 <= i < |a| && a[i] in b
  }

  /** `overlap`: the brute-force search for a value of `a` in `b`. */
  method Overlap<T(==)>(a: seq<T>, b: seq<T>) returns (r: bool)
    ensures r <==> Overlapping(a, b)
  {
    for i := 0 to |a|
      invariant forall k :: 0 <= k < i ==> a[k] !in b
    {
      if a[i] in b {
        return true;
      }
    }
    return false;
  }

  /** The index of the first of `mergedSets` that shares a value with
   *  `coll`, or `|mergedSets|` when none does. */
  function FirstOverlap<T(==)>(mergedSets: seq<seq<T>>, coll: seq<T>): (k: nat)
    ensures k <= |mergedSets|
    ensures forall j :: 0 <= j < k ==> !Overlapping(mergedSets[j], coll)
    ensures k < |mergedSets| ==> Overlapping(mergedSets[k], coll)
  {
    if mergedSets == [] then 0
    else if Overlapping(mergedSets[0], coll) then 0
    else 1 + FirstOverlap(mergedSets[1..], coll)
  }

  /** One step of a merging pass: `coll` joins the first merged collection it
   *  overlaps, the larger of the two going first, or is appended. */
  function MergeStep<T(==)>(mergedSets: seq<seq<T>>, coll: seq<T>): (r: seq<seq<T>>)
  {
    var k := FirstOverlap(mergedSets, coll);
    if k == |mergedSets| then mergedSets + [coll]
    else if |mergedSets[k]| < |coll| then mergedSets[k := Dedup(coll + mergedSets[k])]
    else mergedSets[k := Dedup(mergedSets[k] + coll)]
  }

  /** A whole merging pass over `sets`. */
  function Pass<T(==)>(sets: seq<seq<T>>): (r: seq<seq<T>>)
  {
    if sets == [] then [] else MergeStep(Pass(sets[..|sets| - 1]), sets[|sets| - 1])
  }

  /** `mergePass`. */
  method MergePass<T(==)>(sets: seq<seq<T>>) returns (mergedSets: seq<seq<T>>)
    ensures mergedSets == Pass(sets)
  {
    mergedSets := [];
    for i := 0 to |sets|
      invariant mergedSets == Pass(sets[..i])
    {
      var coll := sets[i];
      var k := 0;
      var found := false;
      while k < |mergedSets| && !found
        invariant k <= |mergedSets|
        invariant forall j :: 0 <= j < k ==> !Overlapping(mergedSets[j], coll)
        invariant found ==> k < |mergedSets| && Overlapping(mergedSets[k], coll)
        decreases |mergedSets| - k, !found
      {
        found := Overlap(mergedSets[k], coll);
        if !found {
          k := k + 1;
        }
      }
      FirstOverlapIs(mergedSets, coll, k);
      if found {
        var merged;
        if |mergedSets[k]| < |coll| {
          merged := MergeColls(coll, mergedSets[k]);
        } else {
          merged := MergeColls(mergedSets[k], coll);
        }
        mergedSets := mergedSets[k := merged];
      } else {
        mergedSets := mergedSets + [coll];
      }
      assert sets[..i + 1][..i] == sets[..i];
    }
    assert sets[..|sets|] == sets;
  }

  lemma {:induction false} FirstOverlapIs<T>(mergedSets: seq<seq<T>>, coll: seq<T>, k: nat)
    requires k <= |mergedSets|
    requires forall j :: 0 <= j < k ==> !Overlapping(mergedSets[j], coll)
    requires k < |mergedSets| ==> Overlapping(mergedSets[k], coll)
    ensures FirstOverlap(mergedSets, coll) == k
  {
  }

  /** All values held by any collection of `sets`. */
  ghost predicate Holds<T>(sets: seq<seq<T>>, x: T)
  {
    exists k :: 0 <= k < |sets| && x in sets[k]
  }

  /** No two collections of `sets` share a value. */
  predicate PairwiseDisjoint<T(==)>(sets: seq<seq<T>>)
  {
    forall i, j :: 0 <= i < j < |sets| ==> !Overlapping(sets[i], sets[j])
  }

  /** A step keeps every value and adds none. */
  lemma {:induction false} MergeStepHolds<T>(mergedSets: seq<seq<T>>, coll: seq<T>, x: T)
    ensures Holds(MergeStep(mergedSets, coll), x) <==> Holds(mergedSets, x) || x in coll
  {
    var k := FirstOverlap(mergedSets, coll);
    var r := MergeStep(mergedSets, coll);
    if k < |mergedSets| {
      MergedCollsAreUnion(coll, mergedSets[k]);
      MergedCollsAreUnion(mergedSets[k], coll);
      if Holds(r, x) {
        var j :| 0 <= j < |r| && x in r[j];
        if j != k {
          assert x in mergedSets[j];
        }
      }
      if Holds(mergedSets, x) {
        var j :| 0 <= j < |mergedSets| && x in mergedSets[j];
        assert x in r[j];
      }
      if x in coll {
        assert x in r[k];
      }
    } else {
      if Holds(r, x) {
        var j :| 0 <= j < |r| && x in r[j];
        if j < |mergedSets| {
          assert x in mergedSets[j];
        }
      }
      if Holds(mergedSets, x) {
        var j :| 0 <= j < |mergedSets| && x in mergedSets[j];
        assert x in r[j];
      }
      if x in coll {
        assert x in r[|mergedSets|];
      }
    }
  }

  /** A pass keeps every value and adds none. */
  lemma {:induction false} PassHolds<T>(sets: seq<seq<T>>, x: T)
    ensures Holds(Pass(sets), x) <==> Holds(sets, x)
  {
    if sets != [] {
      var init := sets[..|sets| - 1];
      PassHolds(init, x);
      MergeStepHolds(Pass(init), sets[|sets| - 1], x);
      if Holds(sets, x) {
        var k :| 0 <= k < |sets| && x in sets[k];
        if k < |sets| - 1 {
          assert x in init[k];
        }
      }
      if Holds(init, x) {
        var k :| 0 <= k < |init| && x in init[k];
        assert x in sets[k];
      }
    }
  }

  /** A pass never adds a collection, and keeps the count exactly when it
   *  merged nothing: then `sets` was already pairwise disjoint. */
  lemma {:induction false} PassLength<T>(sets: seq<seq<T>>)
    ensures |Pass(sets)| <= |sets|
    ensures |Pass(sets)| == |sets| ==> Pass(sets) == sets && PairwiseDisjoint(sets)
  {
    if sets != [] {
      var init := sets[..|sets| - 1];
      var last := sets[|sets| - 1];
      PassLength(init);
      var p := Pass(init);
      if |Pass(sets)| == |sets| {
        assert |p| == |init|;
        assert p == init;
        var k := FirstOverlap(p, last);
        assert k == |p|;
        assert sets == init + [last];
        forall i, j | 0 <= i < j < |sets|
          ensures !Overlapping(sets[i], sets[j])
        {
          if j < |sets| - 1 {
            assert !Overlapping(init[i], init[j]);
          } else {
            assert !Overlapping(p[i], last);
          }
        }
      }
    }
  }

  /** The result of `merge`: passes repeated until one merges nothing. */
  function Merged<T(==)>(sets: seq<seq<T>>): (r: seq<seq<T>>)
    decreases |sets|
  {
    var p := Pass(sets);
    PassLength(sets);
    if |p| == |sets| then p else Merged(p)
  }

  /** `merge`: passes until the number of collections stops changing. */
  method Merge<T(==)>(sets: seq<seq<T>>) returns (mergedSets: seq<seq<T>>)
    ensures mergedSets == Merged(sets)
  {
    mergedSets := sets;
    var nSets := |mergedSets|;
    mergedSets := MergePass(mergedSets);
    ghost var previous := sets;
    PassLength(sets);
    while |mergedSets| != nSets
      invariant nSets == |previous| && mergedSets == Pass(previous)
      invariant |mergedSets| <= nSets
      invariant Merged(sets) == Merged(previous)
      decreases nSets
    {
      previous := mergedSets;
      nSets := |mergedSets|;
      mergedSets := MergePass(mergedSets);
      PassLength(previous);
    }
  }

  /** The merged collections hold exactly the values of the input, and no
   *  two of them share a value. */
  lemma {:induction false} MergedIsPartition<T>(sets: seq<seq<T>>)
    ensures PairwiseDisjoint(Merged(sets))
    ensures |Merged(sets)| <= |sets|
    ensures forall x :: Holds(Merged(sets), x) <==> Holds(sets, x)
    decreases |sets|
  {
    var p := Pass(sets);
    PassLength(sets);
    forall x
      ensures Holds(p, x) <==> Holds(sets, x)
    {
      PassHolds(sets, x);
    }
    if |p| != |sets| {
      MergedIsPartition(p);
    }
  }

  /** Some collection of `out` holds every value of `coll`. */
  ghost predicate Covers<T>(out: seq<seq<T>>, coll: seq<T>)
  {
    exists k :: 0 <= k < |out| && forall x :: x in coll ==> x in out[k]
  }

  /** A step only grows the merged collections, and the new collection ends
   *  up inside one of them. */
  lemma {:induction false} MergeStepCovers<T>(mergedSets: seq<seq<T>>, coll: seq<T>)
    ensures |MergeStep(mergedSets, coll)| >= |mergedSets|
    ensures forall j, x :: 0 <= j < |mergedSets| && x in mergedSets[j] ==> x in MergeStep(mergedSets, coll)[j]
    ensures Covers(MergeStep(mergedSets, coll), coll)
  {
    var k := FirstOverlap(mergedSets, coll);
    var r := MergeStep(mergedSets, coll);
    if k < |mergedSets| {
      MergedCollsAreUnion(coll, mergedSets[k]);
      MergedCollsAreUnion(mergedSets[k], coll);
      assert forall x :: x in coll ==> x in r[k];
    } else {
      assert forall x :: x in coll ==> x in r[|mergedSets|];
    }
  }

  /** Coverage carries over to a result that only grew the collections. */
  lemma {:induction false} CoversGrown<T>(out: seq<seq<T>>, out': seq<seq<T>>, coll: seq<T>)
    requires Covers(out, coll)
    requires |out'| >= |out|
    requires forall j, x :: 0 <= j < |out| && x in out[j] ==> x in out'[j]
    ensures Covers(out', coll)
  {
    var k :| 0 <= k < |out| && forall x :: x in coll ==> x in out[k];
    assert forall x :: x in coll ==> x in out'[k];
  }

  /** After a pass, every input collection lies inside one collection. */
  lemma {:induction false} PassCovers<T>(sets: seq<seq<T>>)
    ensures forall i :: 0 <= i < |sets| ==> Covers(Pass(sets), sets[i])
  {
    if sets != [] {
      var init := sets[..|sets| - 1];
      PassCovers(init);
      var p := Pass(init);
      MergeStepCovers(p, sets[|sets| - 1]);
      forall i | 0 <= i < |init|
        ensures Covers(Pass(sets), sets[i])
      {
        assert sets[i] == init[i];
        CoversGrown(p, Pass(sets), init[i]);
      }
    }
  }

  lemma {:induction false} CoversThrough<T>(mid: seq<seq<T>>, out: seq<seq<T>>, coll: seq<T>)
    requires Covers(mid, coll)
    requires forall j :: 0 <= j < |mid| ==> Covers(out, mid[j])
    ensures Covers(out, coll)
  {
    var k :| 0 <= k < |mid| && forall x :: x in coll ==> x in mid[k];
    assert Covers(out, mid[k]);
    var m :| 0 <= m < |out| && forall x :: x in mid[k] ==> x in out[m];
    assert forall x :: x in coll ==> x in out[m];
  }

  /** Each input collection ends up entirely inside one merged collection. */
  lemma {:induction false} MergedCoversInputs<T>(sets: seq<seq<T>>)
    ensures forall i :: 0 <= i < |sets| ==> Covers(Merged(sets), sets[i])
    decreases |sets|
  {
    var p := Pass(sets);
    PassLength(sets);
    PassCovers(sets);
    if |p| != |sets| {
      MergedCoversInputs(p);
      forall i | 0 <= i < |sets|
        ensures Covers(Merged(sets), sets[i])
      {
        CoversThrough(p, Merged(p), sets[i]);
      }
    }
  }

  lemma {:induction false} DedupSmall()
    ensures Dedup([0, 1] + [0]) == [0, 1]
    ensures Dedup([0, 1] + [1]) == [0, 1]
  {
    assert [0, 1] + [0] == [0, 1, 0] && [0, 1, 0][..2] == [0, 1];
    assert [0, 1] + [1] == [0, 1, 1] && [0, 1, 1][..2] == [0, 1];
    assert [0, 1][..1] == [0] && [0][..0] == [];
  }

  lemma {:induction false} FirstPassOfExample()
    ensures Pass([[0], [1], [0, 1]]) == [[0, 1], [1]]
  {
    var sets: seq<seq<int>> := [[0], [1], [0, 1]];
    var none: seq<seq<int>> := [];
    assert sets[..2] == [[0], [1]] && sets[..2][..1] == [[0]] && sets[..2][..1][..0] == none;
    assert Pass([[0]]) == [[0]];
    assert !Overlapping([0], [1]);
    assert Pass([[0], [1]]) == [[0], [1]];
    assert Overlapping([0], [0, 1]) by {
      assert [0][0] in [0, 1];
    }
    DedupSmall();
  }

  lemma {:induction false} SecondPassOfExample()
    ensures Pass([[0, 1], [1]]) == [[0, 1]]
  {
    var p: seq<seq<int>> := [[0, 1], [1]];
    var none: seq<seq<int>> := [];
    assert p[..1] == [[0, 1]] && p[..1][..0] == none;
    assert Overlapping([0, 1], [1]) by {
      assert [0, 1][1] in [1];
    }
    DedupSmall();
  }

  /** Two collections that only overlap through a third are merged by the
   *  second pass: `{0}, {1}, {0, 1}` becomes the single `{0, 1}`. */
  lemma {:induction false} SecondPassNeeded()
    ensures Pass([[0], [1], [0, 1]]) == [[0, 1], [1]]
    ensures Merged([[0], [1], [0, 1]]) == [[0, 1]]
  {
    FirstPassOfExample();
    SecondPassOfExample();
    var none: seq<seq<int>> := [];
    assert [[0, 1]][..0] == none;
    assert Pass([[0, 1]]) == [[0, 1]];
  }
}
