/** The source's BigInt division, which truncates toward zero, and what rounding it can cost. */
module BigIntMath {

  function Abs(a: int): nat { if a < 0 then -a else a }

  /// `a / b` on BigInts.
  function TruncDiv(a: int, b: int): int
    requires b != 0
  {
    if (a < 0) == (b < 0) then Abs(a) / Abs(b) else -(Abs(a) / Abs(b))
  }

  lemma DivBounds(a: nat, b: nat)
    requires b > 0
    ensures a / b * b <= a < a / b * b + b
  {}

  lemma SignedProduct(q: int, b: int)
    requires q >= 0
    ensures b >= 0 ==> q * Abs(b) == q * b
    ensures b < 0 ==> q * Abs(b) == -(q * b) == (-q) * b
    ensures (-q) * b == -(q * b)
  {}

  /// The remainder is smaller than the divisor and on the side of what was divided, and the quotient is positive
  /// exactly when both sides have one sign and the left one is at least the right.
  lemma TruncDivBounds(a: int, b: int)
    requires b != 0
    ensures Abs(a - TruncDiv(a, b) * b) < Abs(b)
    ensures TruncDiv(a, b) > 0 <==> (a < 0) == (b < 0) && Abs(a) >= Abs(b)
    ensures (a >= 0 ==> a - TruncDiv(a, b) * b >= 0) && (a <= 0 ==> a - TruncDiv(a, b) * b <= 0)
  {
    var q := Abs(a) / Abs(b);
    QuotientSign(Abs(a), Abs(b));
    SignedProduct(q, b);
  }

  lemma QuotientSign(a: nat, b: nat)
    requires b > 0
    ensures 0 <= a - a / b * b < b && a / b >= 0 && (a / b > 0 <==> a >= b)
  {
    DivBounds(a, b);
    MulMonotone(1, a / b, b);
  }

  lemma MulMonotone(a: int, b: int, c: int)
    requires c >= 0
    ensures a <= b ==> a * c <= b * c && c * a <= c * b
    ensures a < b && c > 0 ==> a * c < b * c
  {}
}
