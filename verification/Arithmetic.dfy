/** Facts about products and floor division that the solver does not find by itself. */
module Arithmetic {

  lemma MulMonotone(a: int, b: int, k: int)
    requires a <= b && k >= 0
    ensures a * k <= b * k && k * a <= k * b
  {
  }

  lemma MulCancels(d: int, a: int, b: int)
    requires d > 0 && d * a < d * b
    ensures a < b
  {
    if a >= b {
      MulMonotone(b, a, d);
      assert false;
    }
  }

  lemma QuotientAtMost(x: nat, d: nat, k: int)
    requires d > 0 && x < d * (k + 1)
    ensures x / d <= k
  {
    MulCancels(d, x / d, k + 1);
  }

  lemma QuotientAtLeast(x: nat, d: nat, k: int)
    requires d > 0 && d * k <= x
    ensures x / d >= k
  {
    assert x < d * (x / d + 1);
    MulCancels(d, k, x / d + 1);
  }

  /** The sum of two floors is at most the floor of the sum. */
  lemma FloorsAdd(x: nat, y: nat, d: nat)
    requires d > 0
    ensures x / d + y / d <= (x + y) / d
  {
    assert d * (x / d + y / d) == d * (x / d) + d * (y / d);
    QuotientAtLeast(x + y, d, x / d + y / d);
  }

  lemma QuotientMonotone(x: nat, y: nat, d: nat)
    requires d > 0 && x <= y
    ensures x / d <= y / d
  {
    assert x < d * (y / d + 1);
    QuotientAtMost(x, d, y / d);
  }
}
