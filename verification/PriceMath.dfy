/** Square-root prices for pool creation (deployer/src/util.ts): Newton's integer root and the encoding. */
module PriceMath {
  import opened BigIntMath

  /// What the source throws.
  datatype Result = Ok(value: nat) | Negative | DivisionByZero

  ghost predicate IsRoot(r: int, v: int) { 0 <= r && r * r <= v < (r + 1) * (r + 1) }

  lemma SquareOfSum(a: int, b: int)
    ensures (a + b) * (a + b) >= 4 * (a * b)
  {
    assert (a + b) * (a + b) - 4 * (a * b) == (a - b) * (a - b);
    assert (a - b) * (a - b) >= 0;
  }

  /// A Newton step from above never lands below the root.
  lemma NewtonStaysAbove(x: int, v: int)
    requires x >= 1 && v >= 0
    ensures var y := (x + v / x) / 2; v < (y + 1) * (y + 1)
  {
    var q := v / x;
    var y := (x + q) / 2;
    DivBounds(v, x);
    SquareOfSum(x, q + 1);
    assert x * (q + 1) == q * x + x;
    SquareMonotone(x + q + 1, 2 * (y + 1));
    assert (2 * (y + 1)) * (2 * (y + 1)) == 4 * ((y + 1) * (y + 1));
  }

  lemma SquareMonotone(a: int, b: int)
    requires 0 <= a <= b
    ensures a * a <= b * b
  {
    MulMonotone(a, b, a);
    MulMonotone(a, b, b);
  }

  /// Where the step no longer descends, the root has been reached.
  lemma NewtonStops(x: int, v: int)
    requires x >= 1 && v >= 0 && (x + v / x) / 2 >= x
    ensures x * x <= v
  {
    DivBounds(v, x);
    MulMonotone(x, v / x, x);
  }

  method Sqrt(value: int) returns (r: Result)
    ensures value < 0 <==> r == Negative
    ensures value >= 0 ==> r.Ok? && IsRoot(r.value, value)
  {
    if value < 0 { return Negative; }
    if value < 2 { return Ok(value); }
    var x := value;
    var y := (x + 1) / 2;
    assert value / x == 1;
    SquareMonotone(2, x + 1);
    MulMonotone(1, x + 1, x + 1);
    while y < x
      invariant 1 <= x && y == (x + value / x) / 2
      invariant value < (x + 1) * (x + 1)
      decreases x
    {
      NewtonStaysAbove(x, value);
      DivBounds(value, x);
      if y < 1 { SquareMonotone(y + 1, 1); }
      x := y;
      y := (x + value / x) / 2;
    }
    NewtonStops(x, value);
    r := Ok(x);
  }

  // ---------------------------------------------------------------- the encoding

  /// 2 to the 192nd.
  const Q192: nat := 0x1_0000_0000_0000_0000_0000_0000_0000_0000_0000_0000_0000_0000

  /// The square of the scale of an encoded price, which is three times 32 binary places.
  lemma ScaleSquared()
    ensures var x96 := 4294967296 * 4294967296 * 4294967296; Q192 == x96 * x96
  {}

  method EncodeSqrtRatioX96(amount1: int, amount0: int) returns (r: Result)
    ensures amount0 == 0 <==> r == DivisionByZero
    ensures amount0 != 0 && TruncDiv(amount1 * Q192, amount0) < 0 <==> r == Negative
    ensures amount0 != 0 && TruncDiv(amount1 * Q192, amount0) >= 0 ==>
              r.Ok? && IsRoot(r.value, TruncDiv(amount1 * Q192, amount0))
    ensures amount0 > 0 && amount1 >= 0 ==> r.Ok? && IsEncoding(r.value, amount1, amount0)
  {
    var numerator := amount1 * Q192;
    if amount0 == 0 { return DivisionByZero; }
    var ratio := TruncDiv(numerator, amount0);
    r := Sqrt(ratio);
    if amount0 > 0 && amount1 >= 0 {
      MulMonotone(0, amount1, Q192);
      RootOfQuotientIsEncoding(r.value, amount1 * Q192, amount0);
    }
  }

  /// The floor of the square root of amount1 / amount0, scaled by 2 to the 96th: nothing is lost to the
  /// floor inside it.
  ghost predicate IsEncoding(r: int, amount1: int, amount0: int) {
    0 <= r && r * r * amount0 <= amount1 * Q192 < (r + 1) * (r + 1) * amount0
  }

  lemma RootOfQuotientIsEncoding(r: int, n: nat, d: nat)
    requires d > 0 && IsRoot(r, n / d)
    ensures r * r * d <= n < (r + 1) * (r + 1) * d
  {
    DivBounds(n, d);
    MulMonotone(r * r, n / d, d);
    MulMonotone(n / d + 1, (r + 1) * (r + 1), d);
    assert (n / d + 1) * d == n / d * d + d;
  }

  /// More of token 1 never lowers the encoded price, more of token 0 never raises it.
  lemma EncodingIsMonotone(r: int, amount1: int, amount0: int, r': int, amount1': int, amount0': int)
    requires amount0 > 0 && amount0' > 0 && IsEncoding(r, amount1, amount0) && IsEncoding(r', amount1', amount0')
    requires amount1 <= amount1' && amount0' <= amount0
    ensures r <= r'
  {
    if r' < r {
      MulMonotone(amount1, amount1', Q192);
      SquareMonotone(r' + 1, r);
      MulMonotone((r' + 1) * (r' + 1), r * r, amount0');
      SquareMonotone(0, r);
      MulMonotone(amount0', amount0, r * r);
      assert false;
    }
  }
}
