/** Integer division facts the layout proofs lean on. */
module Arith {
  lemma MulLeft(a: int, b: int, r: int)
    requires a <= b && r >= 0
    ensures a * r <= b * r
  {
    assert (b - a) * r >= 0;
    assert b * r - a * r == (b - a) * r;
  }

  /** Euclidean division is determined by any quotient/remainder pair. */
  lemma {:induction false} DivModUnique(x: int, r: int, q: int, m: int)
    requires r > 0 && 0 <= m < r && x == q * r + m
    ensures x / r == q && x % r == m
  {
    var q', m' := x / r, x % r;
    assert x == q' * r + m';
    if q' > q {
      assert (q + 1) * r == q * r + r;
      MulLeft(q + 1, q', r);
      assert false;
    } else if q' < q {
      assert (q' + 1) * r == q' * r + r;
      MulLeft(q' + 1, q, r);
      assert false;
    }
  }

  lemma Euclid(x: int, r: int)
    requires r > 0
    ensures x == (x / r) * r + x % r && 0 <= x % r < r
  {
  }

  /** Inside a grid of `r` rows, position `k` of column `c` is item `c * r + k`. */
  lemma ColumnIndex(c: nat, r: nat, k: nat)
    requires r > 0 && k < r
    ensures (c * r + k) / r == c && (c * r + k) % r == k
  {
    DivModUnique(c * r + k, r, c, k);
  }

  /** `k * x` written as repeated addition, so that layout proofs stay in
      linear arithmetic; `ScaleIsProduct` ties it to the product. */
  function Scale(k: int, x: real): real
    decreases if k < 0 then -k else k
  {
    if k == 0 then 0.0 else if k > 0 then Scale(k - 1, x) + x else Scale(k + 1, x) - x
  }

  lemma {:induction false} ScaleIsProduct(k: int, x: real)
    ensures Scale(k, x) == k as real * x
    decreases if k < 0 then -k else k
  {
    if k > 0 {
      ScaleIsProduct(k - 1, x);
      assert (k - 1) as real * x + x == k as real * x;
    } else if k < 0 {
      ScaleIsProduct(k + 1, x);
      assert (k + 1) as real * x - x == k as real * x;
    }
  }

  /** Division by a positive number keeps order. */
  lemma DivMonotone(a: real, b: real, t: real)
    requires a <= b && t > 0.0
    ensures a / t <= b / t
  {
    var qa, qb := a / t, b / t;
    assert qa * t == a && qb * t == b;
  }

  /** The whole is one share of itself, and nothing is no share. */
  lemma WholeRatio(d: real)
    requires d > 0.0
    ensures d / d == 1.0 && 0.0 / d == 0.0
  {
  }

  /** A part over a positive whole lies in [0, 1]. */
  lemma UnitRatio(a: real, d: real)
    requires 0.0 <= a <= d && d > 0.0
    ensures 0.0 <= a / d <= 1.0
  {
    DivMonotone(0.0, a, d);
    DivMonotone(a, d, d);
  }

  /** Adding two shares of the same whole. */
  lemma DivAdd(a: real, b: real, t: real)
    requires t != 0.0
    ensures a / t + b / t == (a + b) / t
  {
    var qa, qb := a / t, b / t;
    assert qa * t == a && qb * t == b;
    assert (qa + qb) * t == a + b;
  }
}
