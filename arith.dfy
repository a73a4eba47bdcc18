/** Small integer and ratio facts shared by the similarity measures. */
module Arithmetic {

  function Max(a: int, b: int): int { if a >= b then a else b }
  function Min(a: int, b: int): int { if a <= b then a else b }

  /** A ratio of a non-negative quantity to a larger positive one lies in [0, 1]. */
  lemma RatioBounds(p: real, q: real)
    requires 0.0 < q && 0.0 <= p <= q
    ensures 0.0 <= p / q <= 1.0
    ensures p / q == 1.0 <==> p == q
  {
    assert p / q * q == p;
  }
}
