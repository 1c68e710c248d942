/**
 The launch regime without a chain (scripts/measureLaunchFrontRun.ts): constant-product pools with
 the input fee, the demand wave that buys into each of them, and the traders around it.

 The source's objects are in LaunchWindow.dfy; this module is the state they go through, as values,
 and what is true of every run of it. Amounts are exact reals.
 */
module LaunchPool {
  import opened Basics

  const FEE: real := 0.003
  /// Below these a purchase or a sale is treated as rounding and not made.
  const BUY_DUST: real := 0.000000001
  const SELL_DUST: real := 0.000000000001

  // ---------------------------------------------------------------- the pool

  /// USDC and token reserves.
  datatype Reserves = Reserves(x: real, y: real)

  function Product(p: Reserves): real { p.x * p.y }

  ghost predicate Funded(p: Reserves) { p.x > 0.0 && p.y > 0.0 }

  /**
   What one side pays for `amount` put into the other. The fee is kept in the pool, so the product of
   the reserves grows and neither side is ever emptied.
   */
  function Payout(inSide: real, outSide: real, amount: real): (out: real)
    requires inSide > 0.0 && outSide > 0.0 && amount > 0.0
    ensures 0.0 < out < outSide
    ensures (inSide + amount) * (outSide - out) >= inSide * outSide
  {
    PayoutBounds(inSide, outSide, amount);
    outSide - inSide * outSide / (inSide + amount * (1.0 - FEE))
  }

  lemma PayoutBounds(inSide: real, outSide: real, amount: real)
    requires inSide > 0.0 && outSide > 0.0 && amount > 0.0
    ensures var left := inSide * outSide / (inSide + amount * (1.0 - FEE));
            0.0 < left < outSide && (inSide + amount) * left >= inSide * outSide
  {
    var priced := inSide + amount * (1.0 - FEE);
    var left := inSide * outSide / priced;
    assert inSide * outSide > 0.0;
    QuotientTimes(inSide * outSide, priced);
    if left >= outSide {
      ScaleMonotone(priced, outSide, left);
      ScaleMonotone(outSide, inSide, priced);
      assert false;
    }
    ScaleMonotone(left, priced, inSide + amount);
  }

  lemma QuotientTimes(a: real, b: real)
    requires a > 0.0 && b > 0.0
    ensures a / b > 0.0 && a / b * b == a
  {}

  lemma ScaleMonotone(k: real, a: real, b: real)
    requires k >= 0.0 && a <= b
    ensures k * a <= k * b && a * k <= b * k
    ensures k > 0.0 && a < b ==> k * a < k * b && a * k < b * k
  {}

  function PoolBuy(p: Reserves, usdc: real): (r: (Reserves, real))
    requires Funded(p)
    ensures Funded(r.0) && r.1 >= 0.0
    ensures Product(r.0) >= Product(p)
    ensures r.0.x - p.x == (if usdc > 0.0 then usdc else 0.0) && p.y - r.0.y == r.1
  {
    if usdc > 0.0 then
      var out := Payout(p.x, p.y, usdc);
      (Reserves(p.x + usdc, p.y - out), out)
    else (p, 0.0)
  }

  function PoolSell(p: Reserves, tokens: real): (r: (Reserves, real))
    requires Funded(p)
    ensures Funded(r.0) && r.1 >= 0.0
    ensures Product(r.0) >= Product(p)
    ensures p.x - r.0.x == r.1 && r.0.y - p.y == (if tokens > 0.0 then tokens else 0.0)
  {
    if tokens > 0.0 then
      var out := Payout(p.y, p.x, tokens);
      assert (p.y + tokens) * (p.x - out) == (p.x - out) * (p.y + tokens);
      (Reserves(p.x - out, p.y + tokens), out)
    else (p, 0.0)
  }

  /// A trade is priced at 997 parts in a thousand of what is put in: on them the product stays the same.
  lemma TradesPayTheFee(p: Reserves, amount: real)
    requires Funded(p) && amount > 0.0
    ensures (1000.0 * p.x + 997.0 * amount) * (p.y - PoolBuy(p, amount).1) == 1000.0 * (p.x * p.y)
    ensures (1000.0 * p.y + 997.0 * amount) * (p.x - PoolSell(p, amount).1) == 1000.0 * (p.x * p.y)
  {
    PayoutPaysTheFee(p.x, p.y, amount);
    PayoutPaysTheFee(p.y, p.x, amount);
    assert p.x * p.y == p.y * p.x;
  }

  lemma PayoutPaysTheFee(inSide: real, outSide: real, amount: real)
    requires inSide > 0.0 && outSide > 0.0 && amount > 0.0
    ensures (1000.0 * inSide + 997.0 * amount) * (outSide - Payout(inSide, outSide, amount)) ==
            1000.0 * (inSide * outSide)
  {
    var priced := inSide + amount * (1.0 - FEE);
    assert inSide * outSide > 0.0;
    QuotientTimes(inSide * outSide, priced);
    assert 1000.0 * inSide + 997.0 * amount == 1000.0 * priced;
    ThousandTimes(priced, outSide - Payout(inSide, outSide, amount));
  }

  lemma ThousandTimes(a: real, b: real)
    ensures 1000.0 * a * b == 1000.0 * (b * a)
  {}

  // ---------------------------------------------------------------- the wave

  /// What the schedule draws for a token: fixed for the window.
  datatype WaveTerms = WaveTerms(
    seeded: real, perBlock: real, ramp: int, hold: int, decay: int,
    sellBack: real, dud: bool, ceiling: real)

  ghost predicate ValidTerms(k: WaveTerms) {
    k.seeded > 0.0 && k.perBlock >= 0.0 && k.ramp >= 0 && k.hold >= 0 && k.decay >= 0 &&
    0.0 <= k.sellBack <= 1.0
  }

  /// A launch pool opens with as many tokens as USDC.
  function Opening(k: WaveTerms): Reserves { Reserves(k.seeded, k.seeded) }

  /// `received` is a history variable: what the wave's own sales returned. The source keeps it only
  /// inside `flow`, the pool's tape of every trader's net USDC per block.
  datatype WaveState = WaveState(
    terms: WaveTerms, pool: Reserves, bought: real, received: real, tokens: real, sold: real,
    cappedAt: Option<int>, heldAtDecay: Option<real>, flow: map<int, real>)

  function Noted(flow: map<int, real>, t: int, usdc: real): map<int, real> {
    flow[t := (if t in flow then flow[t] else 0.0) + usdc]
  }

  function RampOf(w: WaveState): int {
    if w.cappedAt.Some? then w.cappedAt.value else w.terms.ramp
  }

  /// What the wave should have spent once the blocks before `n` have run.
  function SpendTarget(w: WaveState, n: int): real { SpendFor(w.terms, Min(n, RampOf(w))) }

  function SpendFor(k: WaveTerms, blocks: int): real { k.perBlock * blocks as real }

  function Price(p: Reserves): real
    requires Funded(p)
  {
    p.x / p.y
  }

  /// How much of the sell-back is due at block `t`, as a fraction; a wave without decay blocks owes it at once.
  function DecayFraction(w: WaveState, t: int): real {
    if w.terms.decay <= 0 then 1.0
    else MinReal(1.0, (t - (RampOf(w) + w.terms.hold) + 1) as real / w.terms.decay as real)
  }

  /// One block of the wave's driver.
  function WaveStep(w: WaveState, t: int): WaveState
    requires Funded(w.pool)
  {
    if w.terms.dud || t < 0 then w
    else
      var delta := SpendTarget(w, t + 1) - w.bought;
      if delta > BUY_DUST then
        if Price(w.pool) <= w.terms.ceiling then
          var (pool, out) := PoolBuy(w.pool, delta);
          w.(pool := pool, tokens := w.tokens + out, bought := w.bought + delta, flow := Noted(w.flow, t, delta))
        else w.(cappedAt := Some(Min(w.terms.ramp, t)))
      else if t < RampOf(w) + w.terms.hold then w
      else
        SellTowards(w, t, HeldAtDecay(w), SellBackDue(w, t))
  }

  function SellBackShare(k: WaveTerms, held: real): real { Portion(held, k.sellBack) }

  function Portion(a: real, fraction: real): real { a * fraction }

  /// The part of the share that is due once block `t` has run.
  function SellBackDue(w: WaveState, t: int): real {
    Portion(SellBackShare(w.terms, HeldAtDecay(w)), DecayFraction(w, t))
  }

  function HeldAtDecay(w: WaveState): real {
    if w.heldAtDecay.Some? then w.heldAtDecay.value else w.tokens
  }

  /// The sell-back at block `t`: sell whatever is missing from `target`, if more than dust.
  function SellTowards(w: WaveState, t: int, held: real, target: real): WaveState
    requires Funded(w.pool)
  {
    var s := MinReal(target - w.sold, w.tokens);
    if s > SELL_DUST then
      var (pool, got) := PoolSell(w.pool, s);
      w.(pool := pool, heldAtDecay := Some(held), tokens := w.tokens - s, sold := w.sold + s,
         received := w.received + got, flow := Noted(w.flow, t, -got))
    else w.(heldAtDecay := Some(held))
  }

  /// A decay block has run before `t`. The block the ceiling stops a wave on sells nothing, so a wave with no hold
  /// starts selling one block after it.
  ghost predicate WaveSells(w: WaveState, t: int) {
    !w.terms.dud && t > RampOf(w) + w.terms.hold && (w.cappedAt.Some? ==> w.cappedAt.value + 1 < t)
  }

  /// Every decay block has.
  ghost predicate WaveDone(w: WaveState, t: int) {
    WaveSells(w, t) && t >= RampOf(w) + w.terms.hold + Max(w.terms.decay, 1)
  }

  /**
   What the driver keeps, with `t` the next block it will be run for. The buying phase trails its
   target by no more than dust and never passes it; the selling phase never passes what was due by the last block,
   and is within dust of it once it has begun.
   */
  ghost predicate WaveInv(w: WaveState, t: int) {
    ValidTerms(w.terms) && Funded(w.pool) && w.tokens >= 0.0 && w.sold >= 0.0 && w.received >= 0.0 && t >= -1 &&
    (w.terms.dud ==> w.bought == w.sold == w.received == w.tokens == 0.0 && w.cappedAt.None? && w.heldAtDecay.None?) &&
    (w.cappedAt.Some? ==> 0 <= w.cappedAt.value <= w.terms.ramp && w.cappedAt.value < t) &&
    0.0 <= w.bought <= SpendTarget(w, Max(t, 0)) &&
    (!w.terms.dud ==> SpendTarget(w, Max(t, 0)) - w.bought <= BUY_DUST) &&
    (w.heldAtDecay.None? ==> w.sold == 0.0) &&
    (w.heldAtDecay.Some? ==>
       RampOf(w) + w.terms.hold < t &&
       w.tokens + w.sold == w.heldAtDecay.value && w.sold <= SellBackDue(w, t - 1)) &&
    (WaveSells(w, t) ==> w.heldAtDecay.Some? && SellBackDue(w, t - 1) - w.sold <= SELL_DUST)
  }

  lemma SpendTargetGrows(w: WaveState, m: int, n: int)
    requires w.terms.perBlock >= 0.0 && m <= n
    ensures SpendTarget(w, m) <= SpendTarget(w, n)
    ensures m >= RampOf(w) ==> SpendTarget(w, m) == SpendTarget(w, n)
  {
    ScaleMonotone(w.terms.perBlock, Min(m, RampOf(w)) as real, Min(n, RampOf(w)) as real);
  }

  lemma DecayFractionBounds(w: WaveState, t: int)
    requires t >= RampOf(w) + w.terms.hold
    ensures 0.0 <= DecayFraction(w, t) <= 1.0
    ensures t + 1 >= RampOf(w) + w.terms.hold + Max(w.terms.decay, 1) ==> DecayFraction(w, t) == 1.0
  {
    var d := w.terms.decay;
    if d > 0 {
      var n := t - (RampOf(w) + w.terms.hold) + 1;
      QuotientTimes(n as real, d as real);
      if n >= d {
        if n as real / d as real < 1.0 {
          ScaleMonotone(d as real, n as real / d as real, 1.0);
          assert false;
        }
      }
    }
  }

  /// The sell-back due at `t` lies between nothing and its full share of what was held.
  lemma SellBackDueBounds(w: WaveState, t: int)
    requires ValidTerms(w.terms) && HeldAtDecay(w) >= 0.0 && t >= RampOf(w) + w.terms.hold
    ensures 0.0 <= SellBackDue(w, t) <= SellBackShare(w.terms, HeldAtDecay(w)) <= HeldAtDecay(w)
    ensures t + 1 >= RampOf(w) + w.terms.hold + Max(w.terms.decay, 1) ==>
              SellBackDue(w, t) == SellBackShare(w.terms, HeldAtDecay(w))
  {
    DecayFractionBounds(w, t);
    PortionBounds(HeldAtDecay(w), w.terms.sellBack);
    PortionBounds(SellBackShare(w.terms, HeldAtDecay(w)), DecayFraction(w, t));
  }

  /// What is due only grows.
  lemma SellBackDueGrows(w: WaveState, t: int)
    requires ValidTerms(w.terms) && HeldAtDecay(w) >= 0.0 && t > RampOf(w) + w.terms.hold
    ensures SellBackDue(w, t - 1) <= SellBackDue(w, t)
  {
    var d, n := w.terms.decay, t - (RampOf(w) + w.terms.hold);
    PortionBounds(HeldAtDecay(w), w.terms.sellBack);
    if d > 0 {
      assert n as real / d as real <= (n + 1) as real / d as real;
      ScaleMonotone(SellBackShare(w.terms, HeldAtDecay(w)), DecayFraction(w, t - 1), DecayFraction(w, t));
    }
  }

  lemma PortionBounds(a: real, f: real)
    requires a >= 0.0 && 0.0 <= f <= 1.0
    ensures 0.0 <= Portion(a, f) <= a && (f == 1.0 ==> Portion(a, f) == a)
  {
    ScaleMonotone(a, f, 1.0);
  }

  ghost predicate Buying(w: WaveState, t: int) {
    !w.terms.dud && t >= 0 && SpendTarget(w, t + 1) - w.bought > BUY_DUST
  }

  lemma BuyingKeeps(w: WaveState, t: int)
    requires WaveInv(w, t) && Buying(w, t)
    ensures WaveInv(WaveStep(w, t), t + 1) && w.cappedAt.None? && w.heldAtDecay.None?
  {
    SpendTargetGrows(w, t, t + 1);
    assert t < RampOf(w);
    var w' := WaveStep(w, t);
    if w'.cappedAt.Some? {
      assert SpendTarget(w', t + 1) == SpendTarget(w, t);
    } else {
      assert SpendTarget(w', t + 1) == SpendTarget(w, t + 1);
    }
  }

  lemma IdleKeeps(w: WaveState, t: int)
    requires WaveInv(w, t) && !Buying(w, t) && (w.terms.dud || t < 0 || t < RampOf(w) + w.terms.hold)
    ensures WaveInv(w, t + 1)
  {
    SpendTargetGrows(w, Max(t, 0), Max(t + 1, 0));
  }

  /// What a sell-back block does to the wave, apart from what the pool pays for it.
  ghost predicate SoldBack(w: WaveState, w': WaveState, held: real, target: real) {
    w'.terms == w.terms && w'.cappedAt == w.cappedAt && w'.bought == w.bought && Funded(w'.pool) &&
    w'.heldAtDecay == Some(held) && w'.received >= w.received &&
    w'.tokens + w'.sold == w.tokens + w.sold && w'.tokens >= 0.0 && w.sold <= w'.sold &&
    (w'.sold <= target || w'.sold == w.sold) && (target - w'.sold <= SELL_DUST || w'.tokens <= SELL_DUST)
  }

  lemma SellTowardsSells(w: WaveState, t: int, held: real, target: real)
    requires Funded(w.pool) && w.tokens >= 0.0
    ensures SoldBack(w, SellTowards(w, t, held, target), held, target)
  {}

  lemma SellingKeeps(w: WaveState, w': WaveState, t: int, target: real)
    requires WaveInv(w, t) && !Buying(w, t) && !w.terms.dud && t >= 0 && t >= RampOf(w) + w.terms.hold
    requires SoldBack(w, w', HeldAtDecay(w), target)
    requires target == SellBackDue(w, t) && 0.0 <= target <= HeldAtDecay(w)
    requires w.heldAtDecay.Some? ==> SellBackDue(w, t - 1) <= target
    ensures WaveInv(w', t + 1)
  {
    SpendTargetGrows(w, t, t + 1);
    assert SpendTarget(w', t + 1) == SpendTarget(w, t + 1);
    assert SellBackDue(w', t) == SellBackDue(w, t);
  }

  /// One driver block keeps the wave's invariant.
  lemma WaveStepKeeps(w: WaveState, t: int)
    requires WaveInv(w, t)
    ensures WaveInv(WaveStep(w, t), t + 1)
  {
    if Buying(w, t) {
      BuyingKeeps(w, t);
    } else if w.terms.dud || t < 0 || t < RampOf(w) + w.terms.hold {
      IdleKeeps(w, t);
    } else {
      SellBackDueBounds(w, t);
      if w.heldAtDecay.Some? { SellBackDueGrows(w, t); }
      SellTowardsSells(w, t, HeldAtDecay(w), SellBackDue(w, t));
      SellingKeeps(w, WaveStep(w, t), t, SellBackDue(w, t));
    }
  }

  // ---------------------------------------------------------------- one driver block, by the schedule

  /// The ramp blocks the wave has: those drawn, or those before the ceiling stopped it.
  function BlocksOf(w: WaveState): int { if w.cappedAt.Some? then w.cappedAt.value else w.terms.ramp }

  /// At block `t` the wave is more than dust short of what it should have spent by then.
  predicate Short(w: WaveState, t: int) {
    !w.terms.dud && t >= 0 && w.terms.perBlock * Min(t + 1, BlocksOf(w)) as real - w.bought > 0.000000001
  }

  lemma PriceCompares(p: Reserves, ceiling: real)
    requires Funded(p)
    ensures Price(p) <= ceiling <==> p.x <= ceiling * p.y
  {
    QuotientTimes(p.x, p.y);
    if Price(p) <= ceiling { ScaleMonotone(p.y, Price(p), ceiling); } else { ScaleMonotone(p.y, ceiling, Price(p)); }
  }

  /// A ceiling stops the wave at the first block it is short on at a higher price, and does nothing else to it.
  lemma CeilingStopsTheWaveIff(w: WaveState, t: int)
    requires WaveInv(w, t) && w.cappedAt.None?
    ensures WaveStep(w, t).cappedAt.Some? <==> Short(w, t) && w.pool.x > w.terms.ceiling * w.pool.y
    ensures WaveStep(w, t).cappedAt.Some? ==> WaveStep(w, t) == w.(cappedAt := Some(t))
  {
    PriceCompares(w.pool, w.terms.ceiling);
    if Short(w, t) { BuyingKeeps(w, t); SpendTargetGrows(w, t, t + 1); }
  }

  /// At the ceiling or under it a wave that is short buys all it is short of: it has then spent its blocks up to
  /// this one in full, holds what the pool gave for that, and the tape has that much more at this block.
  lemma ShortWaveBuysToItsTarget(w: WaveState, t: int)
    requires Funded(w.pool) && Short(w, t) && w.pool.x <= w.terms.ceiling * w.pool.y
    ensures var w', target := WaveStep(w, t), w.terms.perBlock * Min(t + 1, BlocksOf(w)) as real;
            w'.bought == target && w'.pool.x == w.pool.x + (target - w.bought) &&
            w'.tokens == w.tokens + (w.pool.y - w'.pool.y) && w'.pool.y < w.pool.y &&
            w'.flow == w.flow[t := (if t in w.flow then w.flow[t] else 0.0) + (target - w.bought)] &&
            w' == w.(pool := w'.pool, bought := w'.bought, tokens := w'.tokens, flow := w'.flow)
  {
    hide Payout, Price, Funded, SpendTarget;
    PriceCompares(w.pool, w.terms.ceiling);
    ShortIsBuying(w, t);
    PurchaseGives(w.pool, SpendTarget(w, t + 1) - w.bought);
  }

  lemma PurchaseGives(p: Reserves, usdc: real)
    requires Funded(p) && usdc > 0.0
    ensures PoolBuy(p, usdc).0.x == p.x + usdc && PoolBuy(p, usdc).1 == p.y - PoolBuy(p, usdc).0.y > 0.0
  {
    PayoutBounds(p.x, p.y, usdc);
  }

  /// A wave that is not short waits until its hold is over; so does a dud, and everybody before block 0.
  lemma WaitingWaveDoesNothing(w: WaveState, t: int)
    requires Funded(w.pool) && !Short(w, t) && (w.terms.dud || t < 0 || t < BlocksOf(w) + w.terms.hold)
    ensures WaveStep(w, t) == w
  {}

  /**
   From the hold on, block `t` is the k-th decay block, and the wave sells what is due by then and not sold yet: its
   share of what it held, times k and over the decay blocks, all of it from the last one on. What it sells goes to
   the pool for what the pool pays, and the tape has that much less at this block.
   */
  lemma DecayBlockSellsWhatIsDue(w: WaveState, t: int)
    requires WaveInv(w, t) && !w.terms.dud && 0 <= t && !Short(w, t) && t >= BlocksOf(w) + w.terms.hold
    ensures var w', held := WaveStep(w, t), if w.heldAtDecay.Some? then w.heldAtDecay.value else w.tokens;
            var due := DueBy(w, held, t);
            var got := w.pool.x - w'.pool.x;
            w'.heldAtDecay == Some(held) && w'.sold == (if due - w.sold > 0.000000000001 then due else w.sold) &&
            w'.tokens == w.tokens - (w'.sold - w.sold) && w'.pool.y == w.pool.y + (w'.sold - w.sold) &&
            w'.received == w.received + got && (w'.sold > w.sold ==> got > 0.0) &&
            w'.flow == (if w'.sold == w.sold then w.flow
                        else w.flow[t := (if t in w.flow then w.flow[t] else 0.0) - got]) &&
            w' == w.(pool := w'.pool, heldAtDecay := w'.heldAtDecay, sold := w'.sold, tokens := w'.tokens,
                     received := w'.received, flow := w'.flow)
  {
    hide Payout, SellTowards, SellBackDue, DueBy, SpendTarget;
    ShortIsBuying(w, t);
    SellBackDueBounds(w, t);
    DueIsSellBackDue(w, t);
    assert WaveStep(w, t) == SellTowards(w, t, HeldAtDecay(w), SellBackDue(w, t));
    SellTowardsSellsIt(w, t, HeldAtDecay(w), SellBackDue(w, t));
  }

  lemma ShortIsBuying(w: WaveState, t: int)
    ensures Short(w, t) <==> Buying(w, t)
    ensures SpendTarget(w, t + 1) == w.terms.perBlock * Min(t + 1, BlocksOf(w)) as real
  {}

  lemma SellTowardsSellsIt(w: WaveState, t: int, held: real, due: real)
    requires Funded(w.pool) && due - w.sold <= w.tokens
    ensures var w' := SellTowards(w, t, held, due);
            var got := w.pool.x - w'.pool.x;
            w'.heldAtDecay == Some(held) && w'.sold == (if due - w.sold > 0.000000000001 then due else w.sold) &&
            w'.tokens == w.tokens - (w'.sold - w.sold) && w'.pool.y == w.pool.y + (w'.sold - w.sold) &&
            w'.received == w.received + got && (w'.sold > w.sold ==> got > 0.0) &&
            w'.flow == (if w'.sold == w.sold then w.flow
                        else w.flow[t := (if t in w.flow then w.flow[t] else 0.0) - got]) &&
            w' == w.(pool := w'.pool, heldAtDecay := w'.heldAtDecay, sold := w'.sold, tokens := w'.tokens,
                     received := w'.received, flow := w'.flow)
  {
    hide Payout;
    if due - w.sold > SELL_DUST { PayoutBounds(w.pool.y, w.pool.x, due - w.sold); }
  }

  /// What a wave that held `held` is due to have sold once block `t` has run: its share, times the decay blocks that
  /// have run and over all of them.
  function DueBy(w: WaveState, held: real, t: int): real {
    var k := t - BlocksOf(w) - w.terms.hold + 1;
    if w.terms.decay <= 0 || k >= w.terms.decay then held * w.terms.sellBack
    else held * w.terms.sellBack * k as real / w.terms.decay as real
  }

  lemma DueIsSellBackDue(w: WaveState, t: int)
    requires t >= BlocksOf(w) + w.terms.hold
    ensures SellBackDue(w, t) == DueBy(w, HeldAtDecay(w), t)
  {
    var k, d := t - BlocksOf(w) - w.terms.hold + 1, w.terms.decay;
    DecayFractionBounds(w, t);
    if k < d {
      assert k as real / d as real <= 1.0;
      TimesQuotient(HeldAtDecay(w) * w.terms.sellBack, k as real, d as real);
    }
  }

  lemma TimesQuotient(a: real, b: real, c: real)
    requires c > 0.0
    ensures a * (b / c) == a * b / c
  {}

  /// So once it sells, the wave has after each decay block sold what is due by it, within dust and never more.
  lemma SellBackFollowsItsSchedule(w: WaveState, t: int)
    requires WaveInv(w, t) && WaveSells(w, t)
    ensures w.heldAtDecay.Some? &&
            var due := DueBy(w, w.heldAtDecay.value, t - 1);
            w.sold <= due <= w.sold + 0.000000000001
  {
    hide SellBackDue, DueBy, SpendTarget;
    DueIsSellBackDue(w, t - 1);
  }

  /// The wave buys only at or under its ceiling, and never again once the ceiling stopped it or its
  /// sell-back began.
  lemma WaveBuysOnlyWhileRunning(w: WaveState, t: int)
    requires WaveInv(w, t)
    ensures var w' := WaveStep(w, t);
            w'.bought >= w.bought &&
            (w'.bought != w.bought ==> Price(w.pool) <= w.terms.ceiling) &&
            (w.cappedAt.Some? || w.heldAtDecay.Some? ==>
               w'.bought == w.bought && w'.cappedAt == w.cappedAt &&
               (w.heldAtDecay.Some? ==> w'.heldAtDecay == w.heldAtDecay))
  {
    if Buying(w, t) { BuyingKeeps(w, t); }
  }

  /// One driver block moves tokens and USDC between the pool and the wave, losing neither.
  lemma WaveStepConserves(w: WaveState, t: int)
    requires Funded(w.pool)
    ensures var w' := WaveStep(w, t);
            w'.terms == w.terms && Product(w'.pool) >= Product(w.pool) &&
            w'.pool.y + w'.tokens == w.pool.y + w.tokens &&
            w'.pool.x - (w'.bought - w'.received) == w.pool.x - (w.bought - w.received)
  {
    hide Payout;
  }
}
