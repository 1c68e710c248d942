/**
 Sizing the Liquity victim cohort (core/src/liquityVictims.ts): the debt that lands a Trove on its target
 collateral ratio, and the collateral that drags the whole system to one. Both are integer quotients;
 this is how far the rounding can move the result.
 */
module TroveSizing {
  import opened Basics
  import opened BigIntMath

  const WAD: nat := 1000000000000000000
  const MICRO: nat := 1000000

  /// `Math.round(x * 1e6)`.
  function Micro(x: real): int { (x * 1000000.0 + 0.5).Floor }

  /// A number in millionths is the nearest whole number of them.
  lemma MicroRounds(x: real)
    ensures -0.5 <= x * 1000000.0 - Micro(x) as real < 0.5
  {}

  // ---------------------------------------------------------------- one Trove

  /// The target ratio as the division uses it.
  function RatioWad(icr0: real): int { Micro(icr0) * 1000000000000 }

  /// It is the ratio to eighteen places, of which the last twelve are lost.
  lemma RatioIsEighteenPlaces(icr0: real)
    ensures -500000000000.0 <= icr0 * 1000000000000000000.0 - RatioWad(icr0) as real < 500000000000.0
  {
    MicroRounds(icr0);
  }

  /// The debt to ask for; None when the ratio rounds to zero (the division throws).
  function VictimDebt(coll: nat, price: nat, icr0: real, rate: nat, gasComp: nat): (d: Option<int>) {
    if RatioWad(icr0) == 0 then None
    else
      var total := TruncDiv(coll * price, RatioWad(icr0));
      if total <= gasComp then Some(0)
      else Some(TruncDiv((total - gasComp) * WAD, WAD + rate))
  }

  /// What Liquity books: the debt, the fee on it, and the gas compensation.
  function Booked(debt: nat, rate: nat, gasComp: nat): nat { debt + debt * rate / 1000000000000000000 + gasComp }

  /// The division, where both sides are known not to be negative.
  lemma TruncDivOfNats(a: nat, b: nat)
    requires b > 0
    ensures TruncDiv(a, b) == a / b >= 0
  {}

  lemma FeeBounds(debt: nat, rate: nat, m: nat)
    requires debt == m * WAD / (WAD + rate)
    ensures debt + debt * rate / WAD <= m
    ensures rate < WAD ==> m - 2 <= debt + debt * rate / WAD
  {
    var fee := debt * rate / WAD;
    DivBounds(m * WAD, WAD + rate);
    DivBounds(debt * rate, WAD);
    assert debt * (WAD + rate) == debt * WAD + debt * rate;
    assert (debt + fee) * WAD == debt * WAD + fee * WAD;
    if debt + fee > m { MulMonotone(m + 1, debt + fee, WAD); assert false; }
    if rate < WAD {
      assert m * WAD < debt * WAD + debt * rate + WAD + rate;
      assert m * WAD < (debt + fee) * WAD + 3 * WAD;
      if debt + fee + 3 <= m { MulMonotone(debt + fee + 3, m, WAD); assert false; }
    }
  }

  /**
   A sized Trove books no more than the target debt, so its ratio is never below the target; and for any
   borrowing rate under 100% it falls at most two units of debt short. The debt is the most that the rate leaves room
   for above the gas compensation.
   */
  lemma VictimLandsOnTarget(coll: nat, price: nat, icr0: real, rate: nat, gasComp: nat)
    requires RatioWad(icr0) > 0
    ensures VictimDebt(coll, price, icr0, rate, gasComp).Some?
    ensures var debt, target := VictimDebt(coll, price, icr0, rate, gasComp).value, coll * price / RatioWad(icr0);
            debt >= 0 &&
            (target <= gasComp ==> debt == 0) &&
            (target > gasComp ==>
               Booked(debt, rate, gasComp) <= target &&
               Booked(debt, rate, gasComp) * RatioWad(icr0) <= coll * price &&
               (rate < WAD ==> target - 2 <= Booked(debt, rate, gasComp)) &&
               debt * (WAD + rate) <= (target - gasComp) * WAD < (debt + 1) * (WAD + rate))
  {
    var ratio := RatioWad(icr0);
    TruncDivOfNats(coll * price, ratio);
    var target := coll * price / ratio;
    DivBounds(coll * price, ratio);
    if target > gasComp {
      var m := target - gasComp;
      TruncDivOfNats(m * WAD, WAD + rate);
      var debt := m * WAD / (WAD + rate);
      FeeBounds(debt, rate, m);
      DivBounds(m * WAD, WAD + rate);
      MulMonotone(Booked(debt, rate, gasComp), target, ratio);
    }
  }

  // ---------------------------------------------------------------- the cohort

  /// The system and the cohort to add to it.
  datatype Cohort = Cohort(
    systemColl: nat, systemDebt: nat, price: nat, crash: real, icr0: real, count: int, targetTcr: real)

  function Num(c: Cohort): int {
    Micro(c.targetTcr) * c.systemDebt - TruncDiv(c.price * Micro(1.0 - c.crash), WAD) * c.systemColl
  }

  function Ratio(c: Cohort): int
    requires Micro(c.icr0) != 0
  {
    Micro(1.0 - c.crash) - TruncDiv(Micro(c.targetTcr) * MICRO, Micro(c.icr0))
  }

  function Den(c: Cohort): int
    requires Micro(c.icr0) != 0
  {
    TruncDiv(c.count * c.price * Ratio(c), WAD)
  }

  /// What the source returns: a collateral, null, or a thrown division by zero.
  datatype Sized = Collateral(wei: int) | Unreachable | DivisionByZero

  function RecoveryCohortCollateral(c: Cohort): Sized {
    if c.count <= 0 || c.crash <= 0.0 || c.crash >= 1.0 then Unreachable
    else if Micro(c.icr0) == 0 then DivisionByZero
    else if Den(c) == 0 then Unreachable
    else
      var wei := TruncDiv(Num(c), Den(c));
      if wei <= 0 then Unreachable else Collateral(wei)
  }

  /// A cohort is sized exactly when both sides of the equation have one sign and the left one is at
  /// least the right; what it leaves unsolved is then less than the divisor.
  lemma CohortSizedIffOneSign(c: Cohort)
    requires c.count > 0 && 0.0 < c.crash < 1.0 && Micro(c.icr0) != 0
    ensures RecoveryCohortCollateral(c).Collateral? <==>
              Den(c) != 0 && (Num(c) < 0) == (Den(c) < 0) && Abs(Num(c)) >= Abs(Den(c))
    ensures var r := RecoveryCohortCollateral(c);
            r.Collateral? ==> r.wei > 0 && Abs(Num(c) - r.wei * Den(c)) < Abs(Den(c))
    ensures RecoveryCohortCollateral(c) != DivisionByZero
  {
    if Den(c) != 0 { TruncDivBounds(Num(c), Den(c)); }
  }

  /// Without a Trove or a crash between none and all there is nothing to size; a ratio of nothing cannot be divided by.
  lemma NothingToSize(c: Cohort)
    ensures c.count <= 0 || c.crash <= 0.0 || c.crash >= 1.0 ==> RecoveryCohortCollateral(c) == Unreachable
    ensures RecoveryCohortCollateral(c) == DivisionByZero <==>
              c.count > 0 && 0.0 < c.crash < 1.0 && Micro(c.icr0) == 0
  {}

  // ---------------------------------------------------------------- against the exact equation

  /**
   The equation the sizing solves, exact and in millionths: at the bottom of the crash, target times the
   system's debt with `wei` of collateral per Trove borrowed against at icr0, less what all the collateral
   is worth. Zero means the ratio is the target.
   */
  ghost function Residual(c: Cohort, wei: int): real
    requires Micro(c.icr0) != 0
  {
    var p := c.price as real / 1000000000000000000.0;
    var left, target, icr0 := Micro(1.0 - c.crash) as real, Micro(c.targetTcr) as real, Micro(c.icr0) as real;
    target * (c.systemDebt as real + c.count as real * wei as real * p * 1000000.0 / icr0) -
    left * p * (c.systemColl as real + c.count as real * wei as real)
  }

  lemma TruncDivAsReal(a: int, b: int)
    requires b != 0
    ensures -1.0 < a as real / b as real - TruncDiv(a, b) as real < 1.0
  {
    hide TruncDiv;
    TruncDivBounds(a, b);
    var q := TruncDiv(a, b);
    AsRealSplits(a, q, b);
    QuotientSplits(a as real, q as real, b as real, (a - q * b) as real);
  }

  lemma AsRealSplits(a: int, q: int, b: int)
    ensures a as real == q as real * b as real + (a - q * b) as real
  {
    assert (q * b) as real == q as real * b as real;
  }

  lemma QuotientSplits(a: real, q: real, b: real, r: real)
    requires b != 0.0 && a == q * b + r && (if r < 0.0 then -r else r) < (if b < 0.0 then -b else b)
    ensures -1.0 < a / b - q < 1.0
  {
    var d := a / b - q;
    assert d * b == r by {
      assert a / b * b == a;
      assert d * b == a / b * b - q * b;
    }
    if b > 0.0 {
      ProductBelow(d, b, r);
    } else {
      ProductBelow(d, -b, -r);
    }
  }

  lemma ProductBelow(d: real, b: real, r: real)
    requires b > 0.0 && d * b == r && -b < r < b
    ensures -1.0 < d < 1.0
  {
    if d >= 1.0 { TimesAtLeast(d, b); }
    if d <= -1.0 { TimesAtLeast(-d, b); }
  }

  lemma TimesAtLeast(d: real, b: real)
    requires d >= 1.0 && b > 0.0
    ensures d * b >= b
  {}

  lemma Scaled(a: real, k: real)
    requires k >= 0.0 && -1.0 <= a <= 1.0
    ensures -k <= k * a <= k
  {}

  /// The equation with the three truncations put back: `a`, `b` and `den` are the truncated quotients.
  lemma EquationSplits(target: real, debt: real, left: real, p: real, coll: real, n: real, w: real,
                       s: real, a: real, b: real, den: real)
    ensures target * debt + n * p * w * s - left * p * coll - left * p * (n * w) ==
              (target * debt - a * coll - w * den) - coll * (p * left - a)
              - w * (n * p * (left - b) - den) + w * (n * p) * (s - b)
  {
    var np := n * p;
    assert coll * (p * left - a) == left * p * coll - a * coll;
    assert w * (np * (left - b) - den) == w * (np * left) - w * (np * b) - w * den by {
      assert np * (left - b) == np * left - np * b;
    }
    assert w * np * (s - b) == w * np * s - w * np * b;
    assert left * p * (n * w) == w * (np * left);
  }

  /// The remainder and the three truncation errors, each scaled by what multiplies it.
  lemma Slack(rem: real, d: real, coll: real, e1: real, w: real, e2: real, v: real, e3: real)
    requires -d < rem < d && coll >= 0.0 && w >= 0.0 && v >= 0.0
    requires -1.0 <= e1 <= 1.0 && -1.0 <= e2 <= 1.0 && -1.0 <= e3 <= 1.0
    ensures -(d + coll + w + v) < rem - coll * e1 - w * e2 + v * e3 < d + coll + w + v
  {
    Scaled(e1, coll);
    Scaled(e2, w);
    Scaled(e3, v);
    Total(rem, d, coll, coll * e1, w, w * e2, v, v * e3);
  }

  lemma Total(rem: real, d: real, coll: real, x1: real, w: real, x2: real, v: real, x3: real)
    requires -d < rem < d && -coll <= x1 <= coll && -w <= x2 <= w && -v <= x3 <= v
    ensures -(d + coll + w + v) < rem - x1 - x2 + x3 < d + coll + w + v
  {}

  /// The three quotients the source truncates, less what it truncates them to.
  ghost function PriceError(c: Cohort): real {
    c.price as real / WAD as real * Micro(1.0 - c.crash) as real - TruncDiv(c.price * Micro(1.0 - c.crash), WAD) as real
  }

  ghost function TargetError(c: Cohort): real
    requires Micro(c.icr0) != 0
  {
    (Micro(c.targetTcr) * MICRO) as real / Micro(c.icr0) as real
        - TruncDiv(Micro(c.targetTcr) * MICRO, Micro(c.icr0)) as real
  }

  ghost function DenError(c: Cohort): real
    requires Micro(c.icr0) != 0
  {
    c.count as real * (c.price as real / WAD as real) * Ratio(c) as real - Den(c) as real
  }

  /// Each truncated quotient is within one of the exact one.
  lemma Truncations(c: Cohort)
    requires Micro(c.icr0) != 0
    ensures -1.0 < PriceError(c) < 1.0 && -1.0 < TargetError(c) < 1.0 && -1.0 < DenError(c) < 1.0
  {
    hide TruncDiv, Micro, DenError, PriceError;
    PriceErrorBounds(c);
    TruncDivAsReal(Micro(c.targetTcr) * MICRO, Micro(c.icr0));
    DenErrorBounds(c);
  }

  lemma PriceErrorBounds(c: Cohort)
    ensures -1.0 < PriceError(c) < 1.0
  {
    hide TruncDiv, Micro;
    TruncDivAsReal(c.price * Micro(1.0 - c.crash), WAD);
    ScaledQuotient(c.price, Micro(1.0 - c.crash));
  }

  lemma DenErrorBounds(c: Cohort)
    requires Micro(c.icr0) != 0
    ensures -1.0 < DenError(c) < 1.0
  {
    hide TruncDiv, Micro, Ratio;
    TruncDivAsReal(c.count * c.price * Ratio(c), WAD);
    ScaledQuotient3(c.count, c.price, Ratio(c));
  }

  lemma ResidualSplits(c: Cohort, wei: int)
    requires Micro(c.icr0) != 0
    ensures var worth := wei as real * (c.count as real * (c.price as real / WAD as real));
            Residual(c, wei) ==
              (Num(c) - wei * Den(c)) as real - c.systemColl as real * PriceError(c) - wei as real * DenError(c) +
              worth * TargetError(c)
  {
    hide TruncDiv, Micro, Residual, Num, Den;
    var p := c.price as real / WAD as real;
    var left, target, icr0 := Micro(1.0 - c.crash), Micro(c.targetTcr), Micro(c.icr0);
    var s := (target * MICRO) as real / icr0 as real;
    var a, b := TruncDiv(c.price * left, WAD), TruncDiv(target * MICRO, icr0);
    ResidualIs(c, wei, p, s);
    EquationSplits(target as real, c.systemDebt as real, left as real, p, c.systemColl as real, c.count as real,
                   wei as real, s, a as real, b as real, Den(c) as real);
    SplitIsNum(c, wei, a);
    assert Ratio(c) as real == left as real - b as real;
  }

  /**
   A sized cohort solves the exact equation to within the divisor, one millionth of a unit of debt per
   wei of the system's collateral and of each Trove's, and one per wei of what the cohort is worth.
   */
  lemma SizedCohortSolvesTheEquation(c: Cohort)
    ensures var r := RecoveryCohortCollateral(c);
            r.Collateral? ==>
              Micro(c.icr0) != 0 && -SizingSlack(c, r.wei) < Residual(c, r.wei) < SizingSlack(c, r.wei)
  {
    hide TruncDiv, Micro, Residual, Num, Ratio, Den, PriceError, TargetError, DenError;
    if RecoveryCohortCollateral(c).Collateral? {
      CohortSizedIffOneSign(c);
      var wei := RecoveryCohortCollateral(c).wei;
      var p := c.price as real / WAD as real;
      var worth := wei as real * (c.count as real * p);
      NonNegative(c.count as real, p);
      NonNegative(wei as real, c.count as real * p);
      Truncations(c);
      ResidualSplits(c, wei);
      Slack((Num(c) - wei * Den(c)) as real, Abs(Den(c)) as real, c.systemColl as real, PriceError(c),
            wei as real, DenError(c), worth, TargetError(c));
    }
  }

  /// The divisor, and what multiplies each of the three truncated quotients.
  ghost function SizingSlack(c: Cohort, wei: int): real
    requires Micro(c.icr0) != 0
  {
    Abs(Den(c)) as real + c.systemColl as real + wei as real +
    wei as real * (c.count as real * (c.price as real / WAD as real))
  }

  lemma NonNegative(n: real, p: real)
    requires n >= 0.0 && p >= 0.0
    ensures n * p >= 0.0
  {}

  lemma ScaledQuotient(price: nat, k: int)
    ensures (price * k) as real / WAD as real == price as real / WAD as real * k as real
  {
    assert (price * k) as real == price as real * k as real;
  }

  lemma ScaledQuotient3(n: int, price: nat, k: int)
    ensures (n * price * k) as real / WAD as real == n as real * (price as real / WAD as real) * k as real
  {
    assert (n * price * k) as real == n as real * price as real * k as real;
  }

  lemma ResidualIs(c: Cohort, wei: int, p: real, s: real)
    requires Micro(c.icr0) != 0 && p == c.price as real / WAD as real
    requires s == (Micro(c.targetTcr) * MICRO) as real / Micro(c.icr0) as real
    ensures var target, left := Micro(c.targetTcr) as real, Micro(1.0 - c.crash) as real;
            var n, w := c.count as real, wei as real;
            Residual(c, wei) ==
              target * c.systemDebt as real + n * p * w * s - left * p * c.systemColl as real - left * p * (n * w)
  {
    hide Micro;
    var target, left, icr0 := Micro(c.targetTcr) as real, Micro(1.0 - c.crash) as real, Micro(c.icr0) as real;
    var n, w := c.count as real, wei as real;
    assert s == target * MICRO as real / icr0;
    assert target * (n * w * p * MICRO as real / icr0) == n * p * w * s;
  }

  lemma SplitIsNum(c: Cohort, wei: int, a: int)
    requires Micro(c.icr0) != 0 && a == TruncDiv(c.price * Micro(1.0 - c.crash), WAD)
    ensures Micro(c.targetTcr) as real * c.systemDebt as real - a as real * c.systemColl as real
            - wei as real * Den(c) as real ==
              (Num(c) - wei * Den(c)) as real
  {
    hide Micro, TruncDiv;
  }
}
