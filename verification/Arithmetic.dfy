/** Products and quotients grow with their first operand. */
module Arithmetic {

  lemma MulMonotone(x: nat, y: nat, f: nat)
    requires x <= y
    ensures x * f <= y * f
  {
  }

  lemma MulCancel(d: nat, a: int, b: int)
    requires d > 0 && d * a < d * b
    ensures a < b
  {
  }

  lemma DivMonotone(x: nat, y: nat, d: nat)
    requires x <= y && d > 0
    ensures 0 <= x / d <= y / d
  {
    var a, b := x / d, y / d;
    assert d * a <= x && y < d * b + d;
    assert d * (b + 1) == d * b + d;
    MulCancel(d, a, b + 1);
  }

  /** A quotient reaches `k` exactly when the number reaches `k` times the divisor. */
  lemma QuotientReaches(x: nat, d: nat, k: nat)
    requires d > 0
    ensures x / d >= k <==> x >= k * d
  {
    var q := x / d;
    assert d * q <= x < d * q + d;
    if q >= k {
      MulMonotone(k, q, d);
    } else {
      MulMonotone(q + 1, k, d);
      assert (q + 1) * d == d * q + d;
    }
  }
}
