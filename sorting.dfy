/** Sorting and medians of real-valued samples, shared by the waveform code.
 *
 *  `Sort` is the reference sorted permutation; `MedianAt` is what
 *  `std::nth_element` at position `size/2` produces, and `MedianAveraged` is
 *  the even-size averaging median of `numpy.median` and of the waveform
 *  drawing utility. */
module Sorting {

  predicate Sorted(s: seq<real>)
  {
    forall i, j :: 0 <= i < j < |s| ==> s[i] <= s[j]
  }

  /** Number of elements of `s` strictly smaller than `v`. */
  function CountBelow(s: seq<real>, v: real): (n: nat)
    ensures n <= |s|
  {
    if s == [] then 0 else (if s[0] < v then 1 else 0) + CountBelow(s[1..], v)
  }

  /** Number of elements of `s` not larger than `v`. */
  function CountAtMost(s: seq<real>, v: real): (n: nat)
    ensures n <= |s|
  {
    if s == [] then 0 else (if s[0] <= v then 1 else 0) + CountAtMost(s[1..], v)
  }

  function Insert(x: real, s: seq<real>): (r: seq<real>)
    requires Sorted(s)
    ensures Sorted(r)
    ensures multiset(r) == multiset(s) + multiset{x}
    ensures |r| == |s| + 1
    ensures r[0] == if s == [] || x <= s[0] then x else s[0]
  {
    if s == [] then [x]
    else if x <= s[0] then [x] + s
    else
      assert s == [s[0]] + s[1..];
      [s[0]] + Insert(x, s[1..])
  }

  /** The sorted permutation of `s` (insertion sort). */
  function Sort(s: seq<real>): (r: seq<real>)
    ensures Sorted(r)
    ensures multiset(r) == multiset(s)
    ensures |r| == |s|
  {
    if s == [] then []
    else
      assert s == [s[0]] + s[1..];
      Insert(s[0], Sort(s[1..]))
  }

  /** Sorting what is already in order changes nothing. */
  lemma {:induction false} SortOfSorted(s: seq<real>)
    requires Sorted(s)
    ensures Sort(s) == s
  {
    if s != [] {
      SortOfSorted(s[1..]);
      assert s == [s[0]] + s[1..];
    }
  }

  lemma {:induction false} CountsOfConcat(a: seq<real>, b: seq<real>, v: real)
    ensures CountBelow(a + b, v) == CountBelow(a, v) + CountBelow(b, v)
    ensures CountAtMost(a + b, v) == CountAtMost(a, v) + CountAtMost(b, v)
  {
    if a != [] {
      assert (a + b)[0] == a[0];
      assert (a + b)[1..] == a[1..] + b;
      CountsOfConcat(a[1..], b, v);
    } else {
      assert a + b == b;
    }
  }

  /** Removing the element at `k` from `b`, in multiset and in count terms. */
  lemma {:induction false} Without(b: seq<real>, k: nat, v: real)
    requires k < |b|
    ensures multiset(b[..k] + b[k + 1..]) == multiset(b) - multiset{b[k]}
    ensures CountBelow(b, v) == CountBelow(b[..k] + b[k + 1..], v) + (if b[k] < v then 1 else 0)
    ensures CountAtMost(b, v) == CountAtMost(b[..k] + b[k + 1..], v) + (if b[k] <= v then 1 else 0)
  {
    assert b == b[..k] + ([b[k]] + b[k + 1..]);
    CountsOfConcat(b[..k], [b[k]] + b[k + 1..], v);
    CountsOfConcat([b[k]], b[k + 1..], v);
    CountsOfConcat(b[..k], b[k + 1..], v);
  }

  /** Counting is blind to the order of the elements. */
  lemma {:induction false} CountsOfPermutation(a: seq<real>, b: seq<real>, v: real)
    requires multiset(a) == multiset(b)
    ensures CountBelow(a, v) == CountBelow(b, v)
    ensures CountAtMost(a, v) == CountAtMost(b, v)
    decreases |a|
  {
    if a == [] {
      assert |b| == |multiset(b)| == 0;
    } else {
      assert a[0] in multiset(b);
      var k :| 0 <= k < |b| && b[k] == a[0];
      Without(b, k, v);
      assert a == [a[0]] + a[1..];
      assert multiset(a[1..]) == multiset(a) - multiset{a[0]};
      CountsOfPermutation(a[1..], b[..k] + b[k + 1..], v);
    }
  }

  /** In a sorted sequence, at most `k` elements are below the `k`-th one and
   *  at least `k + 1` are not above it. */
  lemma {:induction false} CountsInSorted(t: seq<real>, k: nat)
    requires Sorted(t) && k < |t|
    ensures CountBelow(t, t[k]) <= k
    ensures CountAtMost(t, t[k]) >= k + 1
  {
    CountsOfConcat(t[..k], t[k..], t[k]);
    CountsOfConcat(t[..k + 1], t[k + 1..], t[k]);
    assert t[..k] + t[k..] == t;
    assert t[..k + 1] + t[k + 1..] == t;
    AllBelowNone(t[k..], t[k]);
    AllAtMost(t[..k + 1], t[k]);
  }

  lemma {:induction false} AllBelowNone(s: seq<real>, v: real)
    requires forall i :: 0 <= i < |s| ==> v <= s[i]
    ensures CountBelow(s, v) == 0
  {
    if s != [] { AllBelowNone(s[1..], v); }
  }

  lemma {:induction false} AllAtMost(s: seq<real>, v: real)
    requires forall i :: 0 <= i < |s| ==> s[i] <= v
    ensures CountAtMost(s, v) == |s|
  {
    if s != [] { AllAtMost(s[1..], v); }
  }

  /** The element `std::nth_element` puts at position `size/2`: an element of
   *  `s` with at most `|s|/2` elements below it and more than `|s|/2` elements
   *  not above it. No averaging happens for even sizes. */
  function MedianAt(s: seq<real>): (m: real)
    requires |s| > 0
    ensures m in multiset(s)
    ensures CountBelow(s, m) <= |s| / 2 < CountAtMost(s, m)
  {
    var t := Sort(s);
    assert t[|s| / 2] in multiset(t);
    CountsInSorted(t, |s| / 2);
    CountsOfPermutation(s, t, t[|s| / 2]);
    t[|s| / 2]
  }

  /** The median that averages the two middle elements of an even-sized
   *  sample; it lies between the lower and the upper middle element. */
  function MedianAveraged(s: seq<real>): (m: real)
    requires |s| > 0
    ensures |s| % 2 == 1 ==> m == MedianAt(s)
    ensures Sort(s)[(|s| - 1) / 2] <= m <= MedianAt(s)
  {
    var t := Sort(s);
    if |s| % 2 == 0 then (t[|s| / 2 - 1] + t[|s| / 2]) / 2.0 else t[|s| / 2]
  }

  // ---------------------------------------------------------------------------
  // Stable sorting of any values by a real key (`std::stable_sort`, and
  // `std::sort` where the order of equal keys does not matter)

  predicate SortedBy<T>(s: seq<T>, key: T -> real)
  {
    forall i, j :: 0 <= i < j < |s| ==> key(s[i]) <= key(s[j])
  }

  function InsertBy<T>(x: T, s: seq<T>, key: T -> real): (r: seq<T>)
    requires SortedBy(s, key)
    ensures SortedBy(r, key)
    ensures multiset(r) == multiset(s) + multiset{x}
    ensures |r| == |s| + 1
    ensures r[0] == if s == [] || key(x) <= key(s[0]) then x else s[0]
  {
    if s == [] then [x]
    else if key(x) <= key(s[0]) then ConsSorted(x, s, key); [x] + s
    else
      assert s == [s[0]] + s[1..];
      var rest := InsertBy(x, s[1..], key);
      InsertedBehind(x, s, key, rest);
      [s[0]] + rest
  }

  /** Inserting behind the first value, when the new one goes after it. */
  lemma {:induction false} InsertedBehind<T>(x: T, s: seq<T>, key: T -> real, rest: seq<T>)
    requires s != [] && SortedBy(s, key) && key(s[0]) < key(x)
    requires SortedBy(rest, key) && multiset(rest) == multiset(s[1..]) + multiset{x}
    requires rest != [] && (rest[0] == x || (|s| > 1 && rest[0] == s[1]))
    ensures SortedBy([s[0]] + rest, key)
    ensures multiset([s[0]] + rest) == multiset(s) + multiset{x}
  {
    ConsSorted(s[0], rest, key);
    assert s == [s[0]] + s[1..];
  }

  /** A value no greater than the first of a sorted sequence can go in front. */
  lemma {:induction false} ConsSorted<T>(y: T, r: seq<T>, key: T -> real)
    requires SortedBy(r, key) && (r != [] ==> key(y) <= key(r[0]))
    ensures SortedBy([y] + r, key)
  {
    var s := [y] + r;
    forall i, j | 0 <= i < j < |s|
      ensures key(s[i]) <= key(s[j])
    {
      if i == 0 && j > 1 {
        assert key(r[0]) <= key(r[j - 1]);
      }
    }
  }

  /** A permutation of `s` in which the keys do not decrease; values with
   *  equal keys keep their order (see `OrderByIsStable`). */
  function OrderBy<T>(s: seq<T>, key: T -> real): (r: seq<T>)
    ensures SortedBy(r, key)
    ensures multiset(r) == multiset(s)
    ensures |r| == |s|
  {
    if s == [] then []
    else
      assert s == [s[0]] + s[1..];
      InsertBy(s[0], OrderBy(s[1..], key), key)
  }

  /** The values of `s` whose key is `k`, in order. */
  function WithKey<T>(s: seq<T>, key: T -> real, k: real): (r: seq<T>)
    ensures |r| <= |s|
  {
    if s == [] then []
    else (if key(s[0]) == k then [s[0]] else []) + WithKey(s[1..], key, k)
  }

  lemma {:induction false} WithKeyCons<T>(h: T, t: seq<T>, key: T -> real, k: real)
    ensures WithKey([h] + t, key, k) == (if key(h) == k then [h] else []) + WithKey(t, key, k)
  {
    assert ([h] + t)[1..] == t;
  }

  lemma {:induction false} InsertByWithKey<T>(x: T, s: seq<T>, key: T -> real, k: real)
    requires SortedBy(s, key)
    ensures WithKey(InsertBy(x, s, key), key, k)
            == (if key(x) == k then [x] else []) + WithKey(s, key, k)
  {
    if s == [] {
      WithKeyCons(x, s, key, k);
    } else if key(x) <= key(s[0]) {
      WithKeyCons(x, s, key, k);
    } else {
      assert SortedBy(s[1..], key);
      var rest := InsertBy(x, s[1..], key);
      assert InsertBy(x, s, key) == [s[0]] + rest;
      InsertByWithKey(x, s[1..], key, k);
      WithKeyCons(s[0], rest, key, k);
      WithKeyCons(s[0], s[1..], key, k);
      assert [s[0]] + s[1..] == s;
      var tail := WithKey(s[1..], key, k);
      if key(x) == k {
        assert key(s[0]) != k;
        assert WithKey(rest, key, k) == [x] + tail;
        assert WithKey(s, key, k) == tail;
      } else {
        assert WithKey(rest, key, k) == tail;
      }
    }
  }

  /** `OrderBy` is stable: the values sharing a key come out in the order
   *  they went in. */
  lemma {:induction false} OrderByIsStable<T>(s: seq<T>, key: T -> real, k: real)
    ensures WithKey(OrderBy(s, key), key, k) == WithKey(s, key, k)
  {
    if s != [] {
      OrderByIsStable(s[1..], key, k);
      InsertByWithKey(s[0], OrderBy(s[1..], key), key, k);
    }
  }
}
