/** Integer facts shared by the digit renderers: powers, and the uniqueness
 *  and splitting of Euclidean division.  Dafny's `/` and `%` round towards
 *  minus infinity for a positive divisor, which is what an arithmetic right
 *  shift does to a negative two's-complement value. */
module IntMath {

  function Pow(b: nat, k: nat): (p: nat)
    ensures b > 0 ==> p > 0
  {
    if k == 0 then 1 else b * Pow(b, k - 1)
  }

  /** `Pow(b, j + k) == Pow(b, j) * Pow(b, k)`. */
  lemma {:induction false} PowAdd(b: nat, j: nat, k: nat)
    ensures Pow(b, j + k) == Pow(b, j) * Pow(b, k)
  {
    if k > 0 {
      PowAdd(b, j, k - 1);
      assert Pow(b, j + k) == b * Pow(b, j + k - 1);
      assert Pow(b, j) * Pow(b, k) == Pow(b, j) * (b * Pow(b, k - 1));
    }
  }

  /** `k * w`, built up by repeated addition so that unfolding it stays
   *  linear. */
  function Multiple(k: nat, w: nat): nat
  {
    if k == 0 then 0 else Multiple(k - 1, w) + w
  }

  lemma {:induction false} MultipleIsProduct(k: nat, w: nat)
    ensures Multiple(k, w) == k * w
  {
    if k > 0 {
      MultipleIsProduct(k - 1, w);
    }
  }

  lemma {:induction false} MultipleAdd(a: nat, b: nat, w: nat)
    ensures Multiple(a + b, w) == Multiple(a, w) + Multiple(b, w)
    decreases b
  {
    if b > 0 {
      MultipleAdd(a, b - 1, w);
    }
  }

  lemma {:induction false} SplitMultiple(c: int, h: int, w: int)
    ensures (c - h) * w + h * w == c * w
  {
  }

  lemma {:induction false} MultipleAtLeast(k: int, m: nat)
    requires k >= 1
    ensures k * m >= m
  {
    assert k * m == (k - 1) * m + m;
  }

  /** Quotient and remainder are the only ones that rebuild `v`. */
  lemma {:induction false} ModUnique(v: int, m: nat, a: int, c: int)
    requires m > 0 && v == a * m + c && 0 <= c < m
    ensures v % m == c && v / m == a
  {
    var a', c' := v / m, v % m;
    var k := a - a';
    assert k * m == c' - c by {
      assert a * m + c == a' * m + c';
      assert k * m == a * m - a' * m;
    }
    if k >= 1 {
      MultipleAtLeast(k, m);
    } else if k <= -1 {
      MultipleAtLeast(-k, m);
    }
  }

  /** The remainder modulo `b * p` is the digit above `p` times `p`, plus the
   *  remainder modulo `p`; dividing by `p` and then by `b` is dividing by
   *  `b * p`. */
  lemma {:induction false} ModSplit(v: int, b: nat, p: nat)
    requires b > 0 && p > 0
    ensures v % (b * p) == ((v / p) % b) * p + v % p
    ensures v / (b * p) == (v / p) / b
  {
    var q, r := v / p, v % p;
    var q2, d := q / b, q % b;
    assert v == q * p + r;
    assert q == q2 * b + d;
    Regroup(q, q2, b, d, p);
    MulMono(d, b - 1, p);
    assert 0 <= d * p + r < b * p by {
      assert (b - 1) * p + p == b * p;
    }
    ModUnique(v, b * p, q2, d * p + r);
  }

  lemma {:induction false} Regroup(q: int, q2: int, b: int, d: int, p: int)
    requires q == q2 * b + d
    ensures q * p == q2 * (b * p) + d * p
  {
    calc {
      q * p;
      (q2 * b + d) * p;
      (q2 * b) * p + d * p;
      q2 * (b * p) + d * p;
    }
  }

  lemma {:induction false} MulMono(x: int, y: int, p: nat)
    requires 0 <= x <= y
    ensures 0 <= x * p <= y * p
  {
    assert y * p == x * p + (y - x) * p;
  }
}
