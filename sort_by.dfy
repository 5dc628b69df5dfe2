/** `util::sortBy` and `util::sortCollBy`: a vector of pointers to the
 *  elements of a collection, ordered by a key extracted from each element.
 *  The collection itself is left untouched.
 *
 *  A pointer to an element is modelled by the element's position in the
 *  collection. */
module SortBy {
  import opened SortLike

  /** The key of every element, in collection order. */
  function KeysOf<T>(coll: seq<T>, key: T -> real): (keys: seq<real>)
    ensures |keys| == |coll| && forall i :: 0 <= i < |coll| ==> keys[i] == key(coll[i])
  {
    seq(|coll|, i requires 0 <= i < |coll| => key(coll[i]))
  }

  /** Pairs each key with a pointer to its element, sorts the pairs by key and
   *  returns the pointers: one per element, in non-decreasing key order
   *  (elements with equal keys in no specified order). */
  method SortBy<T>(coll: seq<T>, key: T -> real) returns (order: seq<nat>)
    ensures IsIndexPermutation(order, |coll|)
    ensures forall i :: 0 <= i < |order| ==> order[i] < |coll|
    ensures Sorted(order, KeysOf(coll, key))
  {
    var keys := KeysOf(coll, key);
    var n := |coll|;
    var refs := new nat[n];
    var pointers := new nat[n];
    var i := 0;
    while i < n
      invariant 0 <= i <= n
      invariant forall k :: 0 <= k < i ==> refs[k] == k && pointers[k] == k
    {
      refs[i], pointers[i] := i, i;
      i := i + 1;
    }
    assert refs[..] == Indices(n);
    QuickSort(refs, pointers, keys, 0, n, Indices(n));
    assert refs[0..n] == refs[..];
    order := pointers[..];
    assert order == refs[..];
  }
}
