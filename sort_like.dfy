/** `util::sortLike`: sorts a data range by a parallel, read-only range of
 *  keys.  A vector of references, each pairing an iterator to a key with an
 *  iterator to a datum, is sorted by an in-place quick sort whose swaps
 *  exchange the key iterators and the data they stand beside; the keys
 *  themselves never move.
 *
 *  Here the references are the array `refs` of key positions, swapped in
 *  step with the array `data`, and the comparison is `<` on real keys. */
module SortLike {

  /** `0, 1, …, n - 1`: the positions of a range of length `n`. */
  function Indices(n: nat): (r: seq<nat>)
    ensures |r| == n && forall i :: 0 <= i < n ==> r[i] == i
  {
    if n == 0 then [] else Indices(n - 1) + [n - 1]
  }

  /** `perm` lists every position of a range of length `n` exactly once. */
  ghost predicate IsIndexPermutation(perm: seq<nat>, n: nat)
  {
    |perm| == n && multiset(perm) == multiset(Indices(n))
  }

  /** `result` is `original` rearranged so that the keys beside the data, read
   *  in the new order, do not decrease. */
  ghost predicate SortedLike<D>(result: seq<D>, original: seq<D>, keys: seq<real>)
  {
    |result| == |original| == |keys|
    && exists perm :: Witnesses(perm, result, original, keys)
  }

  /** `perm` is an order of the keys that rearranges `original` into `result`. */
  ghost predicate Witnesses<D>(perm: seq<nat>, result: seq<D>, original: seq<D>, keys: seq<real>)
  {
    IsIndexPermutation(perm, |keys|) && Sorted(perm, keys) && |result| == |keys|
    && (forall i :: 0 <= i < |perm| ==> perm[i] < |original|)
    && forall i :: 0 <= i < |result| ==> result[i] == original[perm[i]]
  }

  /** Every data slot holds the original datum of the key its reference
   *  names. */
  ghost predicate InStep<D>(refs: array<nat>, data: array<D>, original: seq<D>)
    reads refs, data
  {
    refs.Length == data.Length
    && forall i :: 0 <= i < refs.Length ==> refs[i] < |original| && data[i] == original[refs[i]]
  }

  /** The keys named by `s` do not decrease. */
  ghost predicate Sorted(s: seq<nat>, keys: seq<real>)
  {
    forall i, j :: 0 <= i < j < |s| ==> s[i] < |keys| && s[j] < |keys| && keys[s[i]] <= keys[s[j]]
  }

  ghost predicate AllBelow(s: seq<nat>, keys: seq<real>, pivot: real)
  {
    forall x :: x in s ==> x < |keys| && keys[x] < pivot
  }

  ghost predicate AllEqual(s: seq<nat>, keys: seq<real>, pivot: real)
  {
    forall x :: x in s ==> x < |keys| && keys[x] == pivot
  }

  ghost predicate AllAbove(s: seq<nat>, keys: seq<real>, pivot: real)
  {
    forall x :: x in s ==> x < |keys| && keys[x] > pivot
  }

  /** The partition predicate: `comp(key, pivot)` when `strict`, else
   *  `!comp(pivot, key)`. */
  predicate Goes(key: real, pivot: real, strict: bool)
  {
    if strict then key < pivot else key <= pivot
  }

  /** Swaps two references together with the data beside them. */
  method Swap<D>(refs: array<nat>, data: array<D>, i: nat, j: nat, ghost original: seq<D>)
    requires i < refs.Length && j < refs.Length && InStep(refs, data, original)
    requires refs as object != data
    modifies refs, data
    ensures InStep(refs, data, original)
    ensures refs[i] == old(refs[j]) && refs[j] == old(refs[i])
    ensures forall k :: 0 <= k < refs.Length && k != i && k != j ==> refs[k] == old(refs[k])
    ensures multiset(refs[..]) == old(multiset(refs[..]))
    ensures multiset(data[..]) == old(multiset(data[..]))
  {
    ghost var refs0, data0 := refs[..], data[..];
    refs[i], refs[j] := refs[j], refs[i];
    data[i], data[j] := data[j], data[i];
    assert refs[..] == Exchanged(refs0, i, j);
    assert data[..] == Exchanged(data0, i, j);
    ExchangeKeepsMultiset(refs0, i, j);
    ExchangeKeepsMultiset(data0, i, j);
  }

  /** `s` with the elements at `i` and `j` exchanged. */
  function Exchanged<T>(s: seq<T>, i: nat, j: nat): (r: seq<T>)
    requires i < |s| && j < |s|
    ensures |r| == |s| && r[i] == s[j] && r[j] == s[i]
    ensures forall k :: 0 <= k < |s| && k != i && k != j ==> r[k] == s[k]
  {
    s[i := s[j]][j := s[i]]
  }

  lemma {:induction false} ExchangeKeepsMultiset<T>(s: seq<T>, i: nat, j: nat)
    requires i < |s| && j < |s|
    ensures multiset(Exchanged(s, i, j)) == multiset(s)
  {
  }

  /** `std::partition` of `[lo, hi)`: the references whose key goes before
   *  the pivot end up in front of those whose key does not; only swaps are
   *  used. */
  method Partition<D>(refs: array<nat>, data: array<D>, keys: seq<real>, lo: nat, hi: nat,
                      pivot: real, strict: bool, ghost original: seq<D>)
    returns (middle: nat)
    requires lo <= hi <= refs.Length && InStep(refs, data, original) && |original| == |keys|
    requires refs as object != data
    modifies refs, data
    ensures InStep(refs, data, original)
    ensures lo <= middle <= hi
    ensures multiset(refs[..]) == old(multiset(refs[..]))
    ensures multiset(data[..]) == old(multiset(data[..]))
    ensures forall k :: 0 <= k < refs.Length && !(lo <= k < hi) ==> refs[k] == old(refs[k])
    ensures forall k :: lo <= k < middle ==> Goes(keys[refs[k]], pivot, strict)
    ensures forall k :: middle <= k < hi ==> !Goes(keys[refs[k]], pivot, strict)
  {
    middle := lo;
    var i := lo;
    while i < hi
      invariant lo <= middle <= i <= hi
      invariant InStep(refs, data, original)
      invariant multiset(refs[..]) == old(multiset(refs[..]))
      invariant multiset(data[..]) == old(multiset(data[..]))
      invariant forall k :: 0 <= k < refs.Length && !(lo <= k < hi) ==> refs[k] == old(refs[k])
      invariant forall k :: lo <= k < middle ==> Goes(keys[refs[k]], pivot, strict)
      invariant forall k :: middle <= k < i ==> !Goes(keys[refs[k]], pivot, strict)
    {
      if Goes(keys[refs[i]], pivot, strict) {
        Swap(refs, data, middle, i, original);
        middle := middle + 1;
      }
      i := i + 1;
    }
  }

  /** Two arrays that agree outside `[lo, hi)` and hold the same multiset
   *  hold the same multiset inside it. */
  lemma {:induction false} SegmentMultiset(a: seq<nat>, b: seq<nat>, lo: nat, hi: nat)
    requires lo <= hi <= |a| == |b| && multiset(a) == multiset(b)
    requires a[..lo] == b[..lo] && a[hi..] == b[hi..]
    ensures multiset(a[lo..hi]) == multiset(b[lo..hi])
  {
    assert a == a[..lo] + a[lo..hi] + a[hi..];
    assert b == b[..lo] + b[lo..hi] + b[hi..];
    assert multiset(a) == multiset(a[..lo]) + multiset(a[lo..hi]) + multiset(a[hi..]);
    assert multiset(b) == multiset(b[..lo]) + multiset(b[lo..hi]) + multiset(b[hi..]);
    assert multiset(a[lo..hi]) == multiset(a) - multiset(a[..lo]) - multiset(a[hi..]);
    assert multiset(b[lo..hi]) == multiset(b) - multiset(b[..lo]) - multiset(b[hi..]);
  }

  /** A property of every element is a property of the multiset. */
  lemma {:induction false} SameElements(s: seq<nat>, t: seq<nat>, keys: seq<real>, pivot: real)
    requires multiset(s) == multiset(t)
    ensures AllBelow(s, keys, pivot) ==> AllBelow(t, keys, pivot)
    ensures AllAbove(s, keys, pivot) ==> AllAbove(t, keys, pivot)
  {
    forall x | x in t
      ensures x in s
    {
      assert x in multiset(t);
    }
  }

  /** `unoptimisedQuickSort` on `[lo, hi)`: the pivot is the key at the
   *  middle position; the range is split into keys below, equal to and above
   *  it, and the outer parts are sorted recursively. */
  method QuickSort<D>(refs: array<nat>, data: array<D>, keys: seq<real>, lo: nat, hi: nat, ghost original: seq<D>)
    requires lo <= hi <= refs.Length && InStep(refs, data, original) && |original| == |keys|
    requires refs as object != data
    modifies refs, data
    ensures InStep(refs, data, original)
    ensures multiset(refs[..]) == old(multiset(refs[..]))
    ensures multiset(data[..]) == old(multiset(data[..]))
    ensures refs[..lo] == old(refs[..lo]) && refs[hi..] == old(refs[hi..])
    ensures multiset(refs[lo..hi]) == old(multiset(refs[lo..hi]))
    ensures Sorted(refs[lo..hi], keys)
    decreases hi - lo
  {
    if lo == hi {
      return;
    }
    var size := hi - lo;
    var pivotRef := refs[lo + size / 2];
    var pivot := keys[pivotRef];
    ghost var initial := refs[..];
    var middle1 := Partition(refs, data, keys, lo, hi, pivot, true, original);
    ghost var afterFirst := refs[..];
    var middle2 := Partition(refs, data, keys, middle1, hi, pivot, false, original);
    ghost var afterSecond := refs[..];
    PartitionsSplit(initial, afterFirst, afterSecond, keys, lo, middle1, middle2, hi, lo + size / 2, pivot);
    QuickSort(refs, data, keys, lo, middle1, original);
    ghost var afterLow := refs[..];
    QuickSort(refs, data, keys, middle2, hi, original);
    Combine(initial, afterSecond, afterLow, refs[..], keys, lo, middle1, middle2, hi, pivot);
  }

  /** The sorted outer parts and the untouched middle make a sorted segment
   *  holding what the segment held at the start. */
  lemma {:induction false} Combine(initial: seq<nat>, afterSecond: seq<nat>, afterLow: seq<nat>, final: seq<nat>, keys: seq<real>,
                lo: nat, m1: nat, m2: nat, hi: nat, pivot: real)
    requires lo <= m1 <= m2 <= hi <= |initial| == |afterSecond| == |afterLow| == |final|
    requires multiset(afterSecond) == multiset(initial)
    requires afterSecond[..lo] == initial[..lo] && afterSecond[hi..] == initial[hi..]
    requires AllBelow(afterSecond[lo..m1], keys, pivot)
    requires AllEqual(afterSecond[m1..m2], keys, pivot)
    requires AllAbove(afterSecond[m2..hi], keys, pivot)
    requires multiset(afterLow) == multiset(afterSecond)
    requires afterLow[..lo] == afterSecond[..lo] && afterLow[m1..] == afterSecond[m1..]
    requires multiset(afterLow[lo..m1]) == multiset(afterSecond[lo..m1]) && Sorted(afterLow[lo..m1], keys)
    requires multiset(final) == multiset(afterLow)
    requires final[..m2] == afterLow[..m2] && final[hi..] == afterLow[hi..]
    requires multiset(final[m2..hi]) == multiset(afterLow[m2..hi]) && Sorted(final[m2..hi], keys)
    ensures multiset(final) == multiset(initial)
    ensures final[..lo] == initial[..lo] && final[hi..] == initial[hi..]
    ensures multiset(final[lo..hi]) == multiset(initial[lo..hi])
    ensures Sorted(final[lo..hi], keys)
  {
    assert final[..lo] == initial[..lo] by {
      assert final[..lo] == final[..m2][..lo];
      assert afterLow[..lo] == afterLow[..m2][..lo];
    }
    assert final[hi..] == initial[hi..] by {
      assert afterLow[hi..] == afterLow[m1..][hi - m1..];
      assert afterSecond[hi..] == afterSecond[m1..][hi - m1..];
    }
    assert final[lo..m1] == afterLow[lo..m1] by {
      assert final[lo..m1] == final[..m2][lo..m1];
      assert afterLow[lo..m1] == afterLow[..m2][lo..m1];
    }
    assert final[m1..m2] == afterSecond[m1..m2] by {
      assert final[m1..m2] == final[..m2][m1..m2];
      assert afterLow[m1..m2] == afterLow[..m2][m1..m2];
      assert afterLow[m1..m2] == afterLow[m1..][..m2 - m1];
      assert afterSecond[m1..m2] == afterSecond[m1..][..m2 - m1];
    }
    assert afterLow[m2..hi] == afterSecond[m2..hi] by {
      assert afterLow[m2..hi] == afterLow[m1..][m2 - m1..hi - m1];
      assert afterSecond[m2..hi] == afterSecond[m1..][m2 - m1..hi - m1];
    }
    SameElements(afterSecond[lo..m1], final[lo..m1], keys, pivot);
    SameElements(afterSecond[m2..hi], final[m2..hi], keys, pivot);
    JoinSorted(final, keys, lo, m1, m2, hi, pivot);
    SegmentMultiset(final, initial, lo, hi);
  }

  /** An element inside `[lo, hi)` of `b` is inside `[lo, hi)` of `a` when
   *  the two agree outside the segment and hold the same multiset. */
  lemma {:induction false} InSegment(a: seq<nat>, b: seq<nat>, lo: nat, hi: nat, x: nat) returns (k: nat)
    requires lo <= hi <= |a| == |b| && multiset(a) == multiset(b)
    requires a[..lo] == b[..lo] && a[hi..] == b[hi..]
    requires x in b[lo..hi]
    ensures lo <= k < hi && a[k] == x
  {
    SegmentMultiset(a, b, lo, hi);
    assert x in multiset(a[lo..hi]) by {
      assert x in multiset(b[lo..hi]);
    }
    assert x in a[lo..hi];
    var i :| 0 <= i < hi - lo && a[lo..hi][i] == x;
    k := lo + i;
  }

  /** Two sequences that agree at every position outside `[lo, hi)` agree on
   *  the prefix and on the suffix. */
  lemma {:induction false} AgreeOutside(a: seq<nat>, b: seq<nat>, lo: nat, hi: nat)
    requires lo <= hi <= |a| == |b|
    requires forall k :: 0 <= k < |a| && !(lo <= k < hi) ==> a[k] == b[k]
    ensures a[..lo] == b[..lo] && a[hi..] == b[hi..]
  {
  }

  /** After the two partitions the segment reads: keys below the pivot, keys
   *  equal to it (at least the pivot itself), keys above it. */
  lemma {:induction false} PartitionsSplit(initial: seq<nat>, afterFirst: seq<nat>, afterSecond: seq<nat>, keys: seq<real>,
                        lo: nat, m1: nat, m2: nat, hi: nat, p: nat, pivot: real)
    requires lo <= p < hi <= |initial| == |afterFirst| == |afterSecond|
    requires lo <= m1 <= m2 <= hi
    requires initial[p] < |keys| && keys[initial[p]] == pivot
    requires multiset(afterFirst) == multiset(initial) && multiset(afterSecond) == multiset(afterFirst)
    requires forall k :: 0 <= k < |initial| && !(lo <= k < hi) ==> afterFirst[k] == initial[k]
    requires forall k :: 0 <= k < |initial| && !(m1 <= k < hi) ==> afterSecond[k] == afterFirst[k]
    requires forall k :: lo <= k < m1 ==> afterFirst[k] < |keys| && keys[afterFirst[k]] < pivot
    requires forall k :: m1 <= k < hi ==> afterFirst[k] < |keys| && !(keys[afterFirst[k]] < pivot)
    requires forall k :: m1 <= k < m2 ==> afterSecond[k] < |keys| && keys[afterSecond[k]] <= pivot
    requires forall k :: m2 <= k < hi ==> afterSecond[k] < |keys| && !(keys[afterSecond[k]] <= pivot)
    ensures lo <= m1 < m2 <= hi
    ensures afterSecond[..lo] == initial[..lo] && afterSecond[hi..] == initial[hi..]
    ensures AllBelow(afterSecond[lo..m1], keys, pivot)
    ensures AllEqual(afterSecond[m1..m2], keys, pivot)
    ensures AllAbove(afterSecond[m2..hi], keys, pivot)
  {
    AgreeOutside(afterFirst, initial, lo, hi);
    AgreeOutside(afterSecond, afterFirst, m1, hi);
    PivotInMiddle(initial, afterFirst, afterSecond, keys, lo, m1, m2, hi, p, pivot);
    assert afterSecond[..lo] == initial[..lo] by {
      assert afterSecond[..lo] == afterSecond[..m1][..lo];
      assert afterFirst[..lo] == afterFirst[..m1][..lo];
    }
    assert afterSecond[hi..] == initial[hi..];
    OuterParts(afterFirst, afterSecond, keys, lo, m1, m2, hi, pivot);
    EqualPart(afterFirst, afterSecond, keys, m1, m2, hi, pivot);
  }

  /** The pivot's own reference ends up among the keys equal to the pivot,
   *  so that part is not empty. */
  lemma {:induction false} PivotInMiddle(initial: seq<nat>, afterFirst: seq<nat>, afterSecond: seq<nat>, keys: seq<real>,
                      lo: nat, m1: nat, m2: nat, hi: nat, p: nat, pivot: real)
    requires lo <= p < hi <= |initial| == |afterFirst| == |afterSecond|
    requires lo <= m1 <= m2 <= hi
    requires initial[p] < |keys| && keys[initial[p]] == pivot
    requires multiset(afterFirst) == multiset(initial) && multiset(afterSecond) == multiset(afterFirst)
    requires afterFirst[..lo] == initial[..lo] && afterFirst[hi..] == initial[hi..]
    requires afterSecond[..m1] == afterFirst[..m1] && afterSecond[hi..] == afterFirst[hi..]
    requires forall k :: lo <= k < m1 ==> afterFirst[k] < |keys| && keys[afterFirst[k]] < pivot
    requires forall k :: m2 <= k < hi ==> afterSecond[k] < |keys| && !(keys[afterSecond[k]] <= pivot)
    ensures m1 < m2
  {
    var r := initial[p];
    assert r in initial[lo..hi] by {
      assert initial[lo..hi][p - lo] == r;
    }
    var j := InSegment(afterFirst, initial, lo, hi, r);
    assert m1 <= j;
    assert r in afterFirst[m1..hi] by {
      assert afterFirst[m1..hi][j - m1] == r;
    }
    var j2 := InSegment(afterSecond, afterFirst, m1, hi, r);
    assert j2 < m2;
  }

  /** The references left of `m1` and right of `m2` carry their keys'
   *  partition. */
  lemma {:induction false} OuterParts(afterFirst: seq<nat>, afterSecond: seq<nat>, keys: seq<real>,
                   lo: nat, m1: nat, m2: nat, hi: nat, pivot: real)
    requires lo <= m1 <= m2 <= hi <= |afterFirst| == |afterSecond|
    requires afterSecond[..m1] == afterFirst[..m1]
    requires forall k :: lo <= k < m1 ==> afterFirst[k] < |keys| && keys[afterFirst[k]] < pivot
    requires forall k :: m2 <= k < hi ==> afterSecond[k] < |keys| && !(keys[afterSecond[k]] <= pivot)
    ensures AllBelow(afterSecond[lo..m1], keys, pivot)
    ensures AllAbove(afterSecond[m2..hi], keys, pivot)
  {
    forall x | x in afterSecond[lo..m1]
      ensures x < |keys| && keys[x] < pivot
    {
      var i :| 0 <= i < m1 - lo && afterSecond[lo..m1][i] == x;
      assert afterFirst[..m1][lo + i] == x;
    }
    forall x | x in afterSecond[m2..hi]
      ensures x < |keys| && keys[x] > pivot
    {
      var i :| 0 <= i < hi - m2 && afterSecond[m2..hi][i] == x;
      assert afterSecond[m2 + i] == x;
    }
  }

  /** The references between `m1` and `m2` passed both partitions: their keys
   *  equal the pivot. */
  lemma {:induction false} EqualPart(afterFirst: seq<nat>, afterSecond: seq<nat>, keys: seq<real>,
                  m1: nat, m2: nat, hi: nat, pivot: real)
    requires m1 <= m2 <= hi <= |afterFirst| == |afterSecond|
    requires multiset(afterSecond) == multiset(afterFirst)
    requires afterSecond[..m1] == afterFirst[..m1] && afterSecond[hi..] == afterFirst[hi..]
    requires forall k :: m1 <= k < hi ==> afterFirst[k] < |keys| && !(keys[afterFirst[k]] < pivot)
    requires forall k :: m1 <= k < m2 ==> afterSecond[k] < |keys| && keys[afterSecond[k]] <= pivot
    ensures AllEqual(afterSecond[m1..m2], keys, pivot)
  {
    forall x | x in afterSecond[m1..m2]
      ensures x < |keys| && keys[x] == pivot
    {
      var i :| 0 <= i < m2 - m1 && afterSecond[m1..m2][i] == x;
      assert afterSecond[m1..hi][i] == x;
      var k1 := InSegment(afterFirst, afterSecond, m1, hi, x);
    }
  }

  lemma {:induction false} JoinSorted(s: seq<nat>, keys: seq<real>, lo: nat, m1: nat, m2: nat, hi: nat, pivot: real)
    requires lo <= m1 <= m2 <= hi <= |s|
    requires Sorted(s[lo..m1], keys) && Sorted(s[m2..hi], keys)
    requires AllBelow(s[lo..m1], keys, pivot) && AllEqual(s[m1..m2], keys, pivot) && AllAbove(s[m2..hi], keys, pivot)
    ensures Sorted(s[lo..hi], keys)
  {
    forall k | lo <= k < hi
      ensures s[k] < |keys|
      ensures k < m1 ==> keys[s[k]] < pivot
      ensures m1 <= k < m2 ==> keys[s[k]] == pivot
      ensures m2 <= k ==> keys[s[k]] > pivot
    {
      if k < m1 { assert s[lo..m1][k - lo] == s[k]; assert s[k] in s[lo..m1]; }
      else if k < m2 { assert s[m1..m2][k - m1] == s[k]; assert s[k] in s[m1..m2]; }
      else { assert s[m2..hi][k - m2] == s[k]; assert s[k] in s[m2..hi]; }
    }
    forall i, j | 0 <= i < j < hi - lo
      ensures s[lo..hi][i] < |keys| && s[lo..hi][j] < |keys| && keys[s[lo..hi][i]] <= keys[s[lo..hi][j]]
    {
      var a, b := lo + i, lo + j;
      assert s[lo..hi][i] == s[a] && s[lo..hi][j] == s[b];
      if b < m1 {
        assert s[lo..m1][i] == s[a] && s[lo..m1][j] == s[b];
      } else if m2 <= a {
        assert s[m2..hi][a - m2] == s[a] && s[m2..hi][b - m2] == s[b];
      }
    }
  }

  /** `util::sortLike` (and `util::sortCollLike`, its whole-collection form):
   *  the key range must be as long as the data range; the keys are read,
   *  never written, and the data end up in the order of their keys. */
  method SortLike<D>(data: array<D>, keys: seq<real>)
    requires data.Length == |keys|
    modifies data
    ensures SortedLike(data[..], old(data[..]), keys)
    ensures multiset(data[..]) == old(multiset(data[..]))
  {
    ghost var original := data[..];
    var refs := new nat[data.Length];
    var i := 0;
    while i < data.Length
      invariant 0 <= i <= data.Length
      invariant forall k :: 0 <= k < i ==> refs[k] == k
      invariant data[..] == original
    {
      refs[i] := i;
      i := i + 1;
    }
    assert refs[..] == Indices(data.Length);
    QuickSort(refs, data, keys, 0, data.Length, original);
    assert refs[0..data.Length] == refs[..];
    assert forall k :: 0 <= k < data.Length ==> data[..][k] == original[refs[..][k]];
    SortedReferencesWitness(refs[..], data[..], original, keys);
  }

  /** References sorted by their keys, holding every position once, witness
   *  that the data beside them are sorted like the keys. */
  lemma {:induction false} SortedReferencesWitness<D>(perm: seq<nat>, result: seq<D>, original: seq<D>, keys: seq<real>)
    requires |perm| == |result| == |original| == |keys|
    requires multiset(perm) == multiset(Indices(|keys|)) && Sorted(perm, keys)
    requires forall k :: 0 <= k < |perm| ==> perm[k] < |original| && result[k] == original[perm[k]]
    ensures SortedLike(result, original, keys)
  {
    assert Witnesses(perm, result, original, keys);
  }

  /** The documented example: "ACIRSU" sorted like the keys 3, 2, 1, 4, 6, 5
   *  reads "ICARUS". */
  lemma {:induction false} IcarusExample(result: seq<char>)
    requires SortedLike(result, "ACIRSU", [3.0, 2.0, 1.0, 4.0, 6.0, 5.0])
    ensures result == "ICARUS"
  {
    var keys := [3.0, 2.0, 1.0, 4.0, 6.0, 5.0];
    var perm :| Witnesses(perm, result, "ACIRSU", keys);
    IcarusOrder(perm, keys);
    IcarusLetters(result, perm);
  }

  lemma {:induction false} IcarusLetters(result: seq<char>, perm: seq<nat>)
    requires perm == [2, 1, 0, 3, 5, 4] && |result| == 6
    requires forall i :: 0 <= i < 6 ==> result[i] == "ACIRSU"[perm[i]]
    ensures result == "ICARUS"
  {
    assert result[0] == 'I' && result[1] == 'C' && result[2] == 'A';
    assert result[3] == 'R' && result[4] == 'U' && result[5] == 'S';
  }

  /** The only order of six positions sorted by the keys 3, 2, 1, 4, 6, 5. */
  lemma {:induction false} IcarusOrder(perm: seq<nat>, keys: seq<real>)
    requires keys == [3.0, 2.0, 1.0, 4.0, 6.0, 5.0]
    requires IsIndexPermutation(perm, 6) && Sorted(perm, keys)
    ensures perm == [2, 1, 0, 3, 5, 4]
  {
    var p2 := PositionOf(perm, 2, 6);
    var p1 := PositionOf(perm, 1, 6);
    var p0 := PositionOf(perm, 0, 6);
    var p3 := PositionOf(perm, 3, 6);
    var p5 := PositionOf(perm, 5, 6);
    var p4 := PositionOf(perm, 4, 6);
    KeyOrderIsPositionOrder(perm, keys, p2, p1);
    KeyOrderIsPositionOrder(perm, keys, p1, p0);
    KeyOrderIsPositionOrder(perm, keys, p0, p3);
    KeyOrderIsPositionOrder(perm, keys, p3, p5);
    KeyOrderIsPositionOrder(perm, keys, p5, p4);
    assert p2 == 0 && p1 == 1 && p0 == 2 && p3 == 3 && p5 == 4 && p4 == 5;
  }

  /** In a sorted order, a smaller key sits at an earlier position. */
  lemma {:induction false} KeyOrderIsPositionOrder(perm: seq<nat>, keys: seq<real>, p: nat, q: nat)
    requires Sorted(perm, keys) && p < |perm| && q < |perm|
    requires perm[p] < |keys| && perm[q] < |keys| && keys[perm[p]] < keys[perm[q]]
    ensures p < q
  {
  }

  /** A position holding `v` in a permutation of the first `n` positions. */
  ghost function PositionOf(perm: seq<nat>, v: nat, n: nat): (p: nat)
    requires IsIndexPermutation(perm, n) && v < n
    ensures p < |perm| && perm[p] == v
  {
    assert v in multiset(Indices(n)) by { assert Indices(n)[v] == v; }
    assert v in perm by { assert v in multiset(perm); }
    var p :| 0 <= p < |perm| && perm[p] == v; p
  }
}
