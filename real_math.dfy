/** Rounding of reals to integers, as `std::floor` and `std::ceil` followed
 *  by a cast to an integer type. */
module RealMath {

  function Floor(x: real): (r: int)
    ensures r as real <= x < r as real + 1.0
  {
    x.Floor
  }

  /** `x` is a whole number. */
  predicate Integral(x: real)
  {
    x.Floor as real == x
  }

  function Ceil(x: real): (r: int)
    ensures r as real - 1.0 < x <= r as real
  {
    -((-x).Floor)
  }

  /** Scaling by a positive factor keeps the order of two reals. */
  lemma {:induction false} ScalingKeepsOrder(a: real, b: real, w: real)
    requires w > 0.0
    ensures a <= b <==> a * w <= b * w
    ensures a < b <==> a * w < b * w
  {
    if a <= b {
      assert (b - a) * w >= 0.0;
    } else {
      assert (a - b) * w > 0.0;
    }
    if a < b {
      assert (b - a) * w > 0.0;
    } else {
      assert (a - b) * w >= 0.0;
    }
  }

  /** A bound compares with `q` as its scaled value compares with `q * w`. */
  lemma {:induction false} ScaledBound(q: real, x: real, w: real, h: real)
    requires w > 0.0 && x == q * w
    ensures h <= q <==> h * w <= x
    ensures q < h <==> x < h * w
    ensures q <= h <==> x <= h * w
    ensures h < q <==> h * w < x
  {
    ScalingKeepsOrder(h, q, w);
    ScalingKeepsOrder(q, h, w);
  }

  /** An integer is the floor of a real exactly when the real lies in its
   *  unit interval. */
  lemma {:induction false} FloorUnique(q: real, i: int)
    ensures Floor(q) == i <==> i as real <= q < (i + 1) as real
  {
    var f := Floor(q);
    if f < i {
      assert f + 1 <= i;
      assert (f + 1) as real <= i as real;
    } else if f > i {
      assert (i + 1) as real <= f as real;
    }
  }

  /** The floor of a quotient by a positive width picks the one multiple of
   *  the width just below the dividend. */
  lemma {:induction false} FloorOfQuotient(x: real, w: real, i: int)
    requires w > 0.0
    ensures Floor(x / w) == i <==> i as real * w <= x < (i + 1) as real * w
  {
    var q := x / w;
    FloorUnique(q, i);
    ScaledBound(q, x, w, i as real);
    ScaledBound(q, x, w, (i + 1) as real);
  }

  /** The ceiling of a quotient by a positive width is the fewest widths
   *  that reach the dividend. */
  lemma {:induction false} CeilOfQuotient(x: real, w: real, n: int)
    requires w > 0.0
    ensures Ceil(x / w) == n <==> (n - 1) as real * w < x <= n as real * w
  {
    var q := x / w;
    FloorUnique(-q, -n);
    ScaledBound(q, x, w, (n - 1) as real);
    ScaledBound(q, x, w, n as real);
  }

  /** Shifting a real by a whole number shifts its floor by the same. */
  lemma {:induction false} FloorShift(q: real, n: int)
    ensures Floor(q + n as real) == Floor(q) + n
  {
    FloorUnique(q + n as real, Floor(q) + n);
  }

  /** Moving a reference point down by `n` widths adds `n` to the quotient. */
  lemma {:induction false} QuotientShift(v: real, ref: real, w: real, n: int)
    requires w != 0.0
    ensures (v - (ref - n as real * w)) / w == (v - ref) / w + n as real
  {
    assert v - (ref - n as real * w) == (v - ref) + n as real * w;
  }
}
