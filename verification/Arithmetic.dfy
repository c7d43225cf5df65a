/** Facts about division that the models of address and register arithmetic share. */
module Arithmetic {

  lemma AtLeast(x: int, d: int)
    requires x >= 1 && d > 0
    ensures x * d >= d
  {
  }

  lemma Distributes(a: int, q: int, d: int)
    ensures (a - q) * d == a * d - q * d
  {
  }

  /** A quotient and a remainder below the divisor are the quotient and the remainder. */
  lemma Quotient(w: int, d: int, q: int, r: int)
    requires d > 0 && w == q * d + r && 0 <= r < d
    ensures w / d == q && w % d == r
  {
    var a, b := w / d, w % d;
    Distributes(a, q, d);
    Distributes(q, a, d);
    assert a * d - q * d == r - b;
    if a > q { AtLeast(a - q, d); }
    if q > a { AtLeast(q - a, d); }
  }
}
