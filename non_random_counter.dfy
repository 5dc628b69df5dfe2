/** `util::NonRandomCounter`: a stand-in for a random engine that returns a
 *  counter scaled to the unit interval.  The counter is a 64-bit unsigned
 *  integer, so it wraps around; a signed seed is converted modulo 2^64. */
module NonRandomCounter {

  const TwoTo64: nat := 0x1_0000_0000_0000_0000
  /** `std::numeric_limits<unsigned long>::max()`. */
  const ULongMax: nat := TwoTo64 - 1

  /** The conversion of a `long` seed to `unsigned long`. */
  function ToULong(seed: int): (c: nat)
    ensures c < TwoTo64
    ensures 0 <= seed < TwoTo64 ==> c == seed
    ensures seed < 0 && -seed <= TwoTo64 ==> c == TwoTo64 + seed
  {
    seed % TwoTo64
  }

  /** The counter after `n` increments from `c`. */
  function Advance(c: nat, n: nat): (r: nat)
    requires c < TwoTo64
    ensures r < TwoTo64
    ensures c + n < TwoTo64 ==> r == c + n
  {
    (c + n) % TwoTo64
  }

  /** The value returned for counter `c`. */
  function Value(c: nat): (x: real)
    requires c < TwoTo64
    ensures 0.0 <= x <= 1.0
    ensures x == 1.0 <==> c == ULongMax
  {
    c as real / ULongMax as real
  }

  /** Values of larger counters are larger. */
  lemma {:induction false} ValueIncreasing(c: nat, d: nat)
    requires c < d < TwoTo64
    ensures Value(c) < Value(d)
  {
  }

  class NonRandomCounter {
    var count: nat

    predicate Valid()
      reads this
    {
      count < TwoTo64
    }

    constructor Default()
      ensures Valid() && count == 0
    {
      count := 0;
    }

    constructor (seed: int)
      ensures Valid() && count == ToULong(seed)
    {
      count := ToULong(seed);
    }

    /** `flat()`: increments the counter, then returns its scaled value. */
    method Flat() returns (x: real)
      requires Valid()
      modifies this
      ensures Valid() && count == Advance(old(count), 1)
      ensures x == Value(count)
    {
      count := (count + 1) % TwoTo64;
      x := Value(count);
    }

    /** `flatArray()`: `size` consecutive `flat()` values. */
    method FlatArray(size: nat, vect: array<real>)
      requires Valid() && size <= vect.Length
      modifies this, vect
      ensures Valid() && count == Advance(old(count), size)
      ensures forall k :: 0 <= k < size ==> vect[k] == Value(Advance(old(count), k + 1))
      ensures vect[size..] == old(vect[size..])
    {
      var i := 0;
      while i < size
        invariant 0 <= i <= size && Valid()
        invariant count == Advance(old(count), i)
        invariant forall k :: 0 <= k < i ==> vect[k] == Value(Advance(old(count), k + 1))
        invariant vect[size..] == old(vect[size..])
      {
        AdvanceStep(old(count), i);
        vect[i] := Flat();
        i := i + 1;
      }
    }

    /** `setSeed()`: the counter restarts from the seed. */
    method SetSeed(seed: int)
      modifies this
      ensures Valid() && count == ToULong(seed)
    {
      count := ToULong(seed);
    }

    /** `setSeeds()`: only the first seed is used. */
    method SetSeeds(seeds: seq<int>)
      requires |seeds| > 0
      modifies this
      ensures Valid() && count == ToULong(seeds[0])
    {
      SetSeed(seeds[0]);
    }
  }

  /** One more increment after `n` is `n + 1` increments. */
  lemma {:induction false} AdvanceStep(c: nat, n: nat)
    requires c < TwoTo64
    ensures Advance(Advance(c, n), 1) == Advance(c, n + 1)
  {
  }

  /** The values of a `flatArray()` strictly increase as long as the
   *  counter does not wrap around. */
  lemma {:induction false} FlatValuesIncrease(c: nat, size: nat, j: nat, k: nat)
    requires c < TwoTo64 && c + size < TwoTo64
    requires j < k < size
    ensures Value(Advance(c, j + 1)) < Value(Advance(c, k + 1))
  {
    ValueIncreasing(c + j + 1, c + k + 1);
  }

  /** After `setSeed(s)`, `n` values repeat the `n` values produced the first
   *  time from `s`: each depends only on the seed and its position. */
  method ReplayAfterSetSeed(seed: int, n: nat) returns (first: seq<real>, second: seq<real>)
    ensures first == second && |first| == n
  {
    var engine := new NonRandomCounter(seed);
    var a := new real[n];
    engine.FlatArray(n, a);
    engine.SetSeed(seed);
    var b := new real[n];
    engine.FlatArray(n, b);
    first, second := a[..], b[..];
  }
}
