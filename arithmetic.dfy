/**
 * Facts about integer multiplication and Euclidean division that the solver
 * does not find alone. They are proof helpers and model nothing in the source.
 */
module Arithmetic {
  lemma MulLessCancel(a: int, b: int, p: int)
    requires p > 0 && a * p < b * p
    ensures a < b
  {
  }

  lemma LessMul(a: int, b: int, p: int)
    requires a < b && p > 0
    ensures a * p < b * p
  {
  }

  lemma LeqMul(a: int, b: int, p: int)
    requires a <= b && p >= 0
    ensures a * p <= b * p
  {
  }

  /** Euclidean division by a positive divisor is the floor: it keeps bounds that are multiples of it. */
  lemma DivBounds(x: int, p: int, lo: int, hi: int)
    requires p > 0 && lo * p <= x < hi * p
    ensures lo <= x / p < hi
  {
    var q, r := x / p, x % p;
    assert x == q * p + r && 0 <= r < p;
    assert (q + 1) * p == q * p + p;
    MulLessCancel(lo, q + 1, p);
    MulLessCancel(q, hi, p);
  }

  lemma DivNonNegative(x: int, p: int)
    requires x >= 0 && p > 0
    ensures x / p >= 0
  {
    LeqMul(1, p, x + 1);
    DivBounds(x, p, 0, x + 1);
  }

  lemma DivExact(a: int, p: int)
    requires p > 0
    ensures (a * p) / p == a
    ensures (a * p) % p == 0
  {
    DivBounds(a * p, p, a, a + 1);
    assert (a + 1) * p == a * p + p;
  }
}
