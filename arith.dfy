/** Two facts about multiplication and division that the proofs lean on. */
module Arith {

  /** Multiplying by a non-negative number keeps the order. */
  lemma MulLeftMono(a: int, b: int, c: int)
    requires a <= b && 0 <= c
    ensures a * c <= b * c
  {
    assert b * c - a * c == (b - a) * c;
  }

  /** Integer division is determined by the bounds it satisfies. */
  lemma DivUnique(a: int, y: int, q: int)
    requires 0 < y && q * y <= a < q * y + y
    ensures a / y == q
  {
    var d := a / y;
    if d < q {
      MulLeftMono(d + 1, q, y);
    } else if q < d {
      MulLeftMono(q + 1, d, y);
    }
  }
}
