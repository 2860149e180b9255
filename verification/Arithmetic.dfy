/** Quotients by a variable divisor, stated by comparing products. */
module Arithmetic {

  lemma DivBounds(a: nat, b: nat)
    requires b > 0
    ensures a / b * b <= a < a / b * b + b
  {}

  lemma MulBelow(x: nat, y: nat, b: nat)
    requires x < y
    ensures x * b + b <= y * b
  {
    assert (y - x - 1) * b >= 0;
    assert y * b == x * b + b + (y - x - 1) * b;
  }

  /** `q` is at least the quotient exactly when the next multiple lies beyond. */
  lemma DivCompare(a: nat, q: nat, b: nat)
    requires b > 0
    ensures a / b <= q <==> a < q * b + b
    ensures q <= a / b <==> q * b <= a
  {
    DivBounds(a, b);
    if q < a / b { MulBelow(q, a / b, b); }
    if a / b < q { MulBelow(a / b, q, b); }
  }

  function Quotient(a: nat, b: nat): (q: nat)
    requires b > 0
  {
    a / b
  }
}
