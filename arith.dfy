/**
 * Facts about Euclidean division used by the mixed-radix cursor of the sample
 * generator and by the evenly spaced subsampling of the evaluator.
 */
module Arith {

  lemma MulAtLeast(d: nat, k: nat)
    requires k >= 1
    ensures d * k >= d
  {
  }

  lemma PositiveProduct(a: int, b: int)
    requires a > 0 && b > 0
    ensures a * b > 0
  {
  }

  /** Division is determined by any quotient and in-range remainder. */
  lemma DivUnique(c: nat, d: nat, q: nat, r: nat)
    requires d > 0 && r < d && c == d * q + r
    ensures c / d == q && c % d == r
  {
    var q', r' := c / d, c % d;
    if q' > q {
      MulAtLeast(d, q' - q);
      Distribute(d, q, q' - q);
    } else if q' < q {
      MulAtLeast(d, q - q');
      Distribute(d, q', q - q');
    }
  }

  lemma Distribute(v: int, a: int, b: int)
    ensures v * (a + b) == v * a + v * b
  {
  }

  lemma Associate(v: int, n: int, q: int)
    ensures v * (n * q) == (v * n) * q
  {
  }

  lemma MulLe(v: nat, a: nat, b: nat)
    requires a <= b
    ensures v * a <= v * b
  {
  }

  /** Dividing by `v` and then by `n` is dividing by `v * n`. */
  lemma MixedRadix(c: nat, v: nat, n: nat)
    requires v > 0 && n > 0
    ensures v * n > 0 && c / (v * n) == (c / v) / n
  {
    PositiveProduct(v, n);
    var q, r := c / v, c % v;
    var q2, r2 := q / n, q % n;
    DivMod(c, v);
    DivMod(q, n);
    Distribute(v, n * q2, r2);
    Associate(v, n, q2);
    MulLe(v, r2, n - 1);
    Distribute(v, n - 1, 1);
    var vn := v * n;
    assert c == vn * q2 + (v * r2 + r);
    assert v * r2 + r < vn;
    DivUnique(c, vn, q2, v * r2 + r);
  }

  /** A number is its remainder plus its quotient times the divisor. */
  lemma DivMod(c: nat, v: nat)
    requires v > 0
    ensures c == v * (c / v) + c % v
  {
  }

  /** `c // (a * b)` for positive `a` and `b`, as a natural number. */
  function DivProduct(c: nat, a: nat, b: nat): (q: nat)
    requires a > 0 && b > 0
    ensures q == c / (a * b)
  {
    PositiveProduct(a, b);
    c / (a * b)
  }

  /** Division by a positive number is monotone. */
  lemma DivMonotone(x: nat, y: nat, d: nat)
    requires d > 0 && x <= y
    ensures x / d <= y / d
  {
    DivMod(x, d);
    DivMod(y, d);
    if x / d > y / d {
      MulLe(d, y / d + 1, x / d);
      Distribute(d, y / d, 1);
    }
  }

  /** Adding at least the divisor raises the quotient by at least one. */
  lemma DivStep(a: nat, b: nat, d: nat)
    requires d > 0 && b >= d
    ensures a / d + 1 <= (a + b) / d
  {
    DivMod(a, d);
    Distribute(d, a / d, 1);
    DivUnique(a + d, d, a / d + 1, a % d);
    DivMonotone(a + d, a + b, d);
  }

  /** `(k * d) / d == k` */
  lemma DivOfMultiple(k: nat, d: nat)
    requires d > 0
    ensures (k * d) / d == k
  {
    DivUnique(k * d, d, k, 0);
  }
}
