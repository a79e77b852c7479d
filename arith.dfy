/** Facts about multiplication and Euclidean division the solver does not
    find on its own. */
module Arith {

  /** Euclidean division has one quotient and remainder. */
  lemma DivUnique(a: nat, d: nat, q: nat, r: nat)
    requires 0 <= r < d && a == q * d + r
    ensures a / d == q && a % d == r
  {
    var q', r' := a / d, a % d;
    assert (q' - q) * d == r - r';
    MulAwayFromZero(q' - q, d);
  }

  /** A non-zero multiple of `d` is at least `d` away from zero. */
  lemma MulAwayFromZero(x: int, d: int)
    requires d >= 0
    ensures x >= 1 ==> x * d >= d
    ensures x <= -1 ==> x * d <= -d
  {
  }

  /** Multiplying by a natural number keeps the order. */
  lemma MulMono(b: nat, x: int, y: int)
    ensures x <= y ==> b * x <= b * y
  {
    MulAwayFromZero(y - x, b);
  }
}
