/**
 Every run of a launch window: any number of pools with their waves, any number of traders, in any
 order of driver blocks, purchases and sales. Whatever the traders do, what they take out together is
 at most what the waves paid in.
 */
module LaunchRuns {
  import opened Basics
  import opened LaunchPool

  /// An agent: what it started with, its USDC, and its tokens per pool.
  datatype Trader = Trader(usdc0: real, usdc: real, tokens: map<nat, real>)

  /// `clocks[i]` is the next block wave `i`'s driver runs for.
  datatype World = World(waves: seq<WaveState>, clocks: seq<int>, traders: seq<Trader>)

  datatype Move =
    | Tick(i: nat)
    | Buy(a: nat, i: nat, t: int, usdc: real)
    | Sell(a: nat, i: nat, t: int)

  function Held(tr: Trader, i: nat): real { if i in tr.tokens then tr.tokens[i] else 0.0 }

  function Profit(tr: Trader): real { tr.usdc - tr.usdc0 }

  function TraderBuy(tr: Trader, w: WaveState, i: nat, t: int, usdc: real): (r: (Trader, WaveState))
    requires Funded(w.pool)
  {
    var amount := MinReal(usdc, tr.usdc);
    if amount > 0.0 then
      var (pool, out) := PoolBuy(w.pool, amount);
      (tr.(usdc := tr.usdc - amount, tokens := tr.tokens[i := Held(tr, i) + out]),
       w.(pool := pool, flow := Noted(w.flow, t, amount)))
    else (tr, w)
  }

  function TraderSell(tr: Trader, w: WaveState, i: nat, t: int): (r: (Trader, WaveState))
    requires Funded(w.pool)
  {
    if Held(tr, i) > 0.0 then
      var (pool, got) := PoolSell(w.pool, Held(tr, i));
      (tr.(usdc := tr.usdc + got, tokens := tr.tokens[i := 0.0]),
       w.(pool := pool, flow := Noted(w.flow, t, -got)))
    else (tr, w)
  }

  ghost predicate Shaped(g: World) {
    |g.clocks| == |g.waves| && forall i :: 0 <= i < |g.waves| ==> Funded(g.waves[i].pool)
  }

  predicate InRange(g: World, m: Move) {
    m.i < |g.waves| && (m.Tick? || m.a < |g.traders|)
  }

  predicate Playable(g: World, moves: seq<Move>) {
    forall k :: 0 <= k < |moves| ==> InRange(g, moves[k])
  }

  function Apply(g: World, m: Move): (g': World)
    requires Shaped(g) && InRange(g, m)
    ensures Shaped(g') && |g'.waves| == |g.waves| && |g'.traders| == |g.traders|
  {
    match m
    case Tick(i) =>
      g.(waves := g.waves[i := WaveStep(g.waves[i], g.clocks[i])], clocks := g.clocks[i := g.clocks[i] + 1])
    case Buy(a, i, t, usdc) =>
      var (tr, w) := TraderBuy(g.traders[a], g.waves[i], i, t, usdc);
      g.(waves := g.waves[i := w], traders := g.traders[a := tr])
    case Sell(a, i, t) =>
      var (tr, w) := TraderSell(g.traders[a], g.waves[i], i, t);
      g.(waves := g.waves[i := w], traders := g.traders[a := tr])
  }

  // ---------------------------------------------------------------- the books

  ghost function Holdings(traders: seq<Trader>, i: nat): seq<real> {
    seq(|traders|, a requires 0 <= a < |traders| => Held(traders[a], i))
  }

  ghost function Profits(traders: seq<Trader>): seq<real> {
    seq(|traders|, a requires 0 <= a < |traders| => Profit(traders[a]))
  }

  /// What each wave paid into its pool, less what its own sales returned.
  ghost function NetPaid(waves: seq<WaveState>): seq<real> {
    seq(|waves|, i requires 0 <= i < |waves| => waves[i].bought - waves[i].received)
  }

  /// USDC each pool holds beyond what was seeded.
  ghost function Excess(waves: seq<WaveState>): seq<real> {
    seq(|waves|, i requires 0 <= i < |waves| => waves[i].pool.x - waves[i].terms.seeded)
  }

  ghost predicate Solvent(tr: Trader) {
    tr.usdc >= 0.0 && forall i: nat :: Held(tr, i) >= 0.0
  }

  /// No token is created or lost in pool `i`, and its product never fell below the seeded one.
  ghost predicate PoolBalanced(g: World, i: nat)
    requires i < |g.waves|
  {
    var w := g.waves[i];
    w.pool.y + w.tokens + SumReal(Holdings(g.traders, i)) == w.terms.seeded &&
    Product(w.pool) >= Product(Opening(w.terms))
  }

  /// No USDC is created or lost anywhere.
  ghost predicate CashBalanced(g: World) {
    SumReal(Profits(g.traders)) + SumReal(Excess(g.waves)) == SumReal(NetPaid(g.waves))
  }

  ghost predicate WorldInv(g: World) {
    |g.clocks| == |g.waves| &&
    (forall i :: 0 <= i < |g.waves| ==> WaveInv(g.waves[i], g.clocks[i])) &&
    (forall i :: 0 <= i < |g.waves| ==> PoolBalanced(g, i)) &&
    (forall a :: 0 <= a < |g.traders| ==> Solvent(g.traders[a])) &&
    CashBalanced(g)
  }

  /// Replacing one wave (and possibly one trader) moves each ledger by that entry alone.
  lemma LedgersAfter(g: World, i: nat, w: WaveState)
    requires i < |g.waves|
    ensures var waves := g.waves[i := w];
            SumReal(NetPaid(waves)) ==
              SumReal(NetPaid(g.waves)) - (g.waves[i].bought - g.waves[i].received) + (w.bought - w.received) &&
            SumReal(Excess(waves)) ==
              SumReal(Excess(g.waves)) - (g.waves[i].pool.x - g.waves[i].terms.seeded) + (w.pool.x - w.terms.seeded)
  {
    var waves := g.waves[i := w];
    assert NetPaid(waves) == NetPaid(g.waves)[i := w.bought - w.received];
    assert Excess(waves) == Excess(g.waves)[i := w.pool.x - w.terms.seeded];
    SumRealUpdate(NetPaid(g.waves), i, w.bought - w.received);
    SumRealUpdate(Excess(g.waves), i, w.pool.x - w.terms.seeded);
  }

  lemma TradersAfter(traders: seq<Trader>, a: nat, tr: Trader, i: nat)
    requires a < |traders|
    requires forall j: nat :: j != i ==> Held(tr, j) == Held(traders[a], j)
    ensures SumReal(Profits(traders[a := tr])) == SumReal(Profits(traders)) - Profit(traders[a]) + Profit(tr)
    ensures SumReal(Holdings(traders[a := tr], i)) == SumReal(Holdings(traders, i)) - Held(traders[a], i) + Held(tr, i)
    ensures forall j: nat :: j != i ==> Holdings(traders[a := tr], j) == Holdings(traders, j)
  {
    assert Profits(traders[a := tr]) == Profits(traders)[a := Profit(tr)];
    assert Holdings(traders[a := tr], i) == Holdings(traders, i)[a := Held(tr, i)];
    SumRealUpdate(Profits(traders), a, Profit(tr));
    SumRealUpdate(Holdings(traders, i), a, Held(tr, i));
  }

  lemma TickKeeps(g: World, i: nat)
    requires WorldInv(g) && Shaped(g) && i < |g.waves|
    ensures WorldInv(Apply(g, Tick(i)))
  {
    hide Payout, WaveStep, WaveInv;
    var w, w' := g.waves[i], WaveStep(g.waves[i], g.clocks[i]);
    var g' := Apply(g, Tick(i));
    assert WaveInv(w, g.clocks[i]) && PoolBalanced(g, i);
    WaveStepKeeps(w, g.clocks[i]);
    WaveStepConserves(w, g.clocks[i]);
    LedgersAfter(g, i, w');
    OthersBalanced(g, g', i);
  }

  /// A move in pool `i` leaves every other pool as it was.
  lemma OthersBalanced(g: World, g': World, i: nat)
    requires i < |g.waves| == |g'.waves|
    requires forall j :: 0 <= j < |g.waves| ==> PoolBalanced(g, j)
    requires forall j: nat :: j != i && j < |g.waves| ==> g'.waves[j] == g.waves[j]
    requires forall j: nat :: j != i ==> Holdings(g'.traders, j) == Holdings(g.traders, j)
    ensures forall j :: 0 <= j < |g.waves| && j != i ==> PoolBalanced(g', j)
  {
    forall j | 0 <= j < |g.waves| && j != i ensures PoolBalanced(g', j) {
      assert PoolBalanced(g, j);
    }
  }

  /// What a purchase or a sale does to the trader and the pool it trades with.
  ghost predicate Traded(tr: Trader, tr': Trader, w: WaveState, w': WaveState, i: nat) {
    Solvent(tr') && tr'.usdc0 == tr.usdc0 &&
    (forall j: nat :: j != i ==> Held(tr', j) == Held(tr, j)) &&
    Funded(w'.pool) && w' == w.(pool := w'.pool, flow := w'.flow) &&
    Product(w'.pool) >= Product(w.pool) &&
    w'.pool.y + Held(tr', i) == w.pool.y + Held(tr, i) &&
    w'.pool.x + tr'.usdc == w.pool.x + tr.usdc
  }

  lemma BuyTrades(tr: Trader, w: WaveState, i: nat, t: int, usdc: real)
    requires Solvent(tr) && Funded(w.pool)
    ensures Traded(tr, TraderBuy(tr, w, i, t, usdc).0, w, TraderBuy(tr, w, i, t, usdc).1, i)
  {
    hide Payout;
    var (tr', w') := TraderBuy(tr, w, i, t, usdc);
    assert forall j: nat :: j != i ==> Held(tr', j) == Held(tr, j);
    assert Held(tr, i) >= 0.0;
  }

  lemma SellTrades(tr: Trader, w: WaveState, i: nat, t: int)
    requires Solvent(tr) && Funded(w.pool)
    ensures Traded(tr, TraderSell(tr, w, i, t).0, w, TraderSell(tr, w, i, t).1, i)
  {
    hide Payout;
    var (tr', w') := TraderSell(tr, w, i, t);
    assert forall j: nat :: j != i ==> Held(tr', j) == Held(tr, j);
  }

  /// A purchase spends what was asked for, or all there is, on tokens of that pool; the tape has it at that block.
  lemma PurchaseIsInFull(tr: Trader, w: WaveState, i: nat, t: int, usdc: real)
    requires Funded(w.pool)
    ensures var (tr', w') := TraderBuy(tr, w, i, t, usdc);
            var spent := if usdc <= tr.usdc then usdc else tr.usdc;
            if spent > 0.0 then
              tr'.usdc == tr.usdc - spent && w'.pool.x == w.pool.x + spent && w'.pool.y < w.pool.y &&
              Held(tr', i) == Held(tr, i) + (w.pool.y - w'.pool.y) && w'.flow == Noted(w.flow, t, spent)
            else tr' == tr && w' == w
  {
    hide Payout;
    var spent := if usdc <= tr.usdc then usdc else tr.usdc;
    if spent > 0.0 { PurchaseGives(w.pool, spent); }
  }

  /// A sale sells every token of that pool for what the pool pays.
  lemma SaleIsInFull(tr: Trader, w: WaveState, i: nat, t: int)
    requires Funded(w.pool)
    ensures var (tr', w') := TraderSell(tr, w, i, t);
            if Held(tr, i) > 0.0 then
              var got := w.pool.x - w'.pool.x;
              Held(tr', i) == 0.0 && w'.pool.y == w.pool.y + Held(tr, i) && got > 0.0 && tr'.usdc == tr.usdc + got &&
              w'.flow == Noted(w.flow, t, -got)
            else tr' == tr && w' == w
  {
    hide Payout;
    if Held(tr, i) > 0.0 { PayoutBounds(w.pool.y, w.pool.x, Held(tr, i)); }
  }

  lemma TradeKeeps(g: World, g': World, a: nat, i: nat)
    requires WorldInv(g) && a < |g.traders| && i < |g.waves|
    requires |g'.waves| == |g.waves| && |g'.traders| == |g.traders|
    requires Traded(g.traders[a], g'.traders[a], g.waves[i], g'.waves[i], i)
    requires g' == g.(waves := g.waves[i := g'.waves[i]], traders := g.traders[a := g'.traders[a]])
    ensures WorldInv(g')
  {
    hide WaveInv;
    var w, w' := g.waves[i], g'.waves[i];
    assert WaveInv(w, g.clocks[i]) && PoolBalanced(g, i);
    LedgersAfter(g, i, w');
    TradersAfter(g.traders, a, g'.traders[a], i);
    RepricedKeeps(w, w', g.clocks[i]);
    OthersBalanced(g, g', i);
  }

  /// The wave's own books do not depend on its pool's reserves.
  lemma RepricedKeeps(w: WaveState, w': WaveState, t: int)
    requires WaveInv(w, t) && Funded(w'.pool) && w' == w.(pool := w'.pool, flow := w'.flow)
    ensures WaveInv(w', t)
  {
    assert SpendTarget(w', Max(t, 0)) == SpendTarget(w, Max(t, 0));
  }

  lemma MoveKeeps(g: World, m: Move)
    requires WorldInv(g) && Shaped(g) && InRange(g, m)
    ensures WorldInv(Apply(g, m))
  {
    hide Payout, WaveStep, TraderBuy, TraderSell;
    match m
    case Tick(i) => TickKeeps(g, i);
    case Buy(a, i, t, usdc) =>
      BuyTrades(g.traders[a], g.waves[i], i, t, usdc);
      TradeKeeps(g, Apply(g, m), a, i);
    case Sell(a, i, t) =>
      SellTrades(g.traders[a], g.waves[i], i, t);
      TradeKeeps(g, Apply(g, m), a, i);
  }

  /// The state after a list of moves, in order.
  function Run(g: World, moves: seq<Move>): (e: World)
    requires Shaped(g) && Playable(g, moves)
    ensures Shaped(e) && |e.waves| == |g.waves| && |e.traders| == |g.traders|
    decreases |moves|
  {
    if moves == [] then g else Run(Apply(g, moves[0]), moves[1..])
  }

  lemma {:induction false} RunThenMove(g: World, moves: seq<Move>, m: Move)
    requires Shaped(g) && Playable(g, moves) && InRange(g, m)
    ensures Playable(g, moves + [m])
    ensures Run(g, moves + [m]) == Apply(Run(g, moves), m)
    decreases |moves|
  {
    hide Apply;
    if moves != [] {
      assert (moves + [m])[1..] == moves[1..] + [m];
      RunThenMove(Apply(g, moves[0]), moves[1..], m);
    } else {
      assert Run(g, [m]) == Run(Apply(g, m), []);
    }
  }

  lemma {:induction false} RunKeeps(g: World, moves: seq<Move>)
    requires WorldInv(g) && Shaped(g) && Playable(g, moves)
    ensures WorldInv(Run(g, moves))
    decreases |moves|
  {
    hide WorldInv, Apply;
    if moves != [] {
      MoveKeeps(g, moves[0]);
      RunKeeps(Apply(g, moves[0]), moves[1..]);
    }
  }

  // ---------------------------------------------------------------- from the opening bell

  ghost predicate WaveOpens(w: WaveState) {
    ValidTerms(w.terms) && w.pool == Opening(w.terms) && w.bought == w.received == w.tokens == w.sold == 0.0 &&
    w.cappedAt.None? && w.heldAtDecay.None? && w.flow == map[]
  }

  /// Fresh pools, drivers about to run block -1, traders holding only USDC.
  ghost predicate Opens(g: World) {
    |g.clocks| == |g.waves| &&
    (forall i :: 0 <= i < |g.waves| ==> WaveOpens(g.waves[i]) && g.clocks[i] == -1) &&
    (forall a :: 0 <= a < |g.traders| ==>
       g.traders[a].usdc == g.traders[a].usdc0 >= 0.0 && g.traders[a].tokens == map[])
  }

  lemma {:induction false} SumOfZeros(s: seq<real>)
    requires forall i :: 0 <= i < |s| ==> s[i] == 0.0
    ensures SumReal(s) == 0.0
  {
    if s != [] { SumOfZeros(s[1..]); }
  }

  lemma OpeningHolds(g: World)
    requires Opens(g)
    ensures Shaped(g) && WorldInv(g)
  {
    SumOfZeros(Profits(g.traders));
    SumOfZeros(Excess(g.waves));
    SumOfZeros(NetPaid(g.waves));
    forall i | 0 <= i < |g.waves| ensures PoolBalanced(g, i) && WaveInv(g.waves[i], g.clocks[i]) {
      SumOfZeros(Holdings(g.traders, i));
    }
  }

  /// A product at least the seeded square with no more tokens than were seeded leaves at least the
  /// seeded USDC.
  lemma AtLeastSeeded(p: Reserves, seeded: real)
    requires Funded(p) && seeded > 0.0 && p.y <= seeded && Product(p) >= seeded * seeded
    ensures p.x >= seeded
  {
    if p.x < seeded { Under(p.x, p.y, seeded); }
  }

  lemma Under(x: real, y: real, s: real)
    requires 0.0 < x < s && 0.0 < y <= s
    ensures x * y < s * s
  {
    ScaleMonotone(y, x, s);
    ScaleMonotone(s, y, s);
    assert x * y < s * y;
    assert s * y <= s * s;
  }

  lemma PoolKeepsItsSeed(w: WaveState, t: int, holdings: seq<real>)
    requires WaveInv(w, t) && forall a :: 0 <= a < |holdings| ==> holdings[a] >= 0.0
    requires w.pool.y + w.tokens + SumReal(holdings) == w.terms.seeded
    requires Product(w.pool) >= Product(Opening(w.terms))
    ensures w.pool.x >= w.terms.seeded
  {
    SumRealNonNegative(holdings);
    AtLeastSeeded(w.pool, w.terms.seeded);
  }

  /// The invariant alone bounds what the traders have.
  lemma BooksBound(e: World)
    requires WorldInv(e)
    ensures forall i :: 0 <= i < |e.waves| ==> e.waves[i].pool.x >= e.waves[i].terms.seeded
    ensures SumReal(Profits(e.traders)) <= SumReal(NetPaid(e.waves))
  {
    hide WaveInv, Product;
    forall i | 0 <= i < |e.waves| ensures e.waves[i].pool.x >= e.waves[i].terms.seeded {
      assert PoolBalanced(e, i) && WaveInv(e.waves[i], e.clocks[i]);
      PoolKeepsItsSeed(e.waves[i], e.clocks[i], Holdings(e.traders, i));
    }
    SumRealNonNegative(Excess(e.waves));
  }

  /**
   No pool ever holds less USDC than it was seeded with, and together the traders take out at most
   what the waves paid in: for every interleaving of driver blocks and trades.
   */
  lemma TradersTakeAtMostWhatWavesPay(g: World, moves: seq<Move>)
    requires Opens(g) && Playable(g, moves)
    ensures Shaped(g)
    ensures forall i :: 0 <= i < |g.waves| ==> Run(g, moves).waves[i].pool.x >= Run(g, moves).waves[i].terms.seeded
    ensures SumReal(Profits(Run(g, moves).traders)) <= SumReal(NetPaid(Run(g, moves).waves))
  {
    hide Opens, WorldInv, Run;
    OpeningHolds(g);
    RunKeeps(g, moves);
    BooksBound(Run(g, moves));
  }

  /// With only duds in the window nobody can come out ahead as a group.
  lemma NoWaveNoProfit(g: World, moves: seq<Move>)
    requires Opens(g) && Playable(g, moves)
    requires forall i :: 0 <= i < |g.waves| ==> g.waves[i].terms.dud
    ensures Shaped(g) && SumReal(Profits(Run(g, moves).traders)) <= 0.0
  {
    TradersTakeAtMostWhatWavesPay(g, moves);
    OpeningHolds(g);
    RunKeeps(g, moves);
    TermsFixed(g, moves);
    var e := Run(g, moves);
    forall i | 0 <= i < |e.waves| ensures NetPaid(e.waves)[i] == 0.0 {
      assert WaveInv(e.waves[i], e.clocks[i]);
    }
    SumOfZeros(NetPaid(e.waves));
  }

  lemma {:induction false} TermsFixed(g: World, moves: seq<Move>)
    requires Shaped(g) && Playable(g, moves)
    ensures forall i :: 0 <= i < |g.waves| ==> Run(g, moves).waves[i].terms == g.waves[i].terms
    decreases |moves|
  {
    hide Payout;
    if moves != [] {
      TermsFixed(Apply(g, moves[0]), moves[1..]);
    }
  }

  /**
   A wave never spends past its schedule, nor past the blocks it had when its ceiling stopped it; it
   sells no more than its share, all but dust of it once every decay block has run; and its tokens
   are what it bought less what it sold.
   */
  lemma WaveStaysInBounds(g: World, moves: seq<Move>, i: nat)
    requires Opens(g) && i < |g.waves| && Playable(g, moves)
    ensures Shaped(g)
    ensures var w := Run(g, moves).waves[i];
            w.bought <= w.terms.perBlock * w.terms.ramp as real &&
            (w.cappedAt.Some? ==> w.bought <= w.terms.perBlock * w.cappedAt.value as real) &&
            (w.heldAtDecay.None? ==> w.sold == 0.0) &&
            (w.heldAtDecay.Some? ==>
               w.sold <= w.heldAtDecay.value * w.terms.sellBack && w.tokens == w.heldAtDecay.value - w.sold) &&
            (WaveDone(w, Run(g, moves).clocks[i]) ==>
               w.heldAtDecay.Some? && w.sold >= w.heldAtDecay.value * w.terms.sellBack - SELL_DUST)
  {
    hide Opens, Run, WaveInv;
    OpeningHolds(g);
    RunKeeps(g, moves);
    var e := Run(g, moves);
    WaveBounds(e.waves[i], e.clocks[i]);
  }

  lemma WaveSpends(w: WaveState, t: int)
    requires WaveInv(w, t)
    ensures w.bought <= SpendFor(w.terms, w.terms.ramp)
    ensures w.cappedAt.Some? ==> w.bought <= SpendFor(w.terms, w.cappedAt.value)
  {
    hide SpendFor;
    var ramp := RampOf(w);
    assert w.bought <= SpendFor(w.terms, Min(Max(t, 0), ramp));
    SpendForGrows(w.terms, Min(Max(t, 0), ramp), ramp);
    SpendForGrows(w.terms, ramp, w.terms.ramp);
  }

  lemma SpendForGrows(k: WaveTerms, m: int, n: int)
    requires k.perBlock >= 0.0 && m <= n
    ensures SpendFor(k, m) <= SpendFor(k, n)
  {
    ScaleMonotone(k.perBlock, m as real, n as real);
  }

  lemma WaveBounds(w: WaveState, t: int)
    requires WaveInv(w, t)
    ensures w.bought <= w.terms.perBlock * w.terms.ramp as real
    ensures w.cappedAt.Some? ==> w.bought <= w.terms.perBlock * w.cappedAt.value as real
    ensures w.heldAtDecay.None? ==> w.sold == 0.0
    ensures w.heldAtDecay.Some? ==>
              w.sold <= w.heldAtDecay.value * w.terms.sellBack && w.tokens == w.heldAtDecay.value - w.sold
    ensures WaveDone(w, t) ==> w.heldAtDecay.Some? && w.sold >= w.heldAtDecay.value * w.terms.sellBack - SELL_DUST
  {
    hide SellBackDue, SpendTarget;
    WaveSpends(w, t);
    if w.heldAtDecay.Some? { SellBackDueBounds(w, t - 1); }
  }

  /**
   And it keeps to its schedule whatever anyone trades: after n blocks of its driver it has spent n of its ramp blocks,
   or all of them, in full within dust, and after its k-th decay block it has sold k parts in all of its share.
   */
  lemma WaveKeepsToItsSchedule(g: World, moves: seq<Move>, i: nat)
    requires Opens(g) && i < |g.waves| && Playable(g, moves)
    ensures Shaped(g)
    ensures var w, n := Run(g, moves).waves[i], Run(g, moves).clocks[i];
            !w.terms.dud && n >= 1 ==>
              var target := w.terms.perBlock * Min(n, BlocksOf(w)) as real;
              w.bought <= target <= w.bought + 0.000000001
    ensures var w, n := Run(g, moves).waves[i], Run(g, moves).clocks[i];
            !w.terms.dud && n > BlocksOf(w) + w.terms.hold && w.cappedAt != Some(n - 1) ==>
              w.heldAtDecay.Some? && w.sold <= DueBy(w, w.heldAtDecay.value, n - 1) <= w.sold + 0.000000000001
  {
    hide Opens, Run, DueBy, WaveInv;
    OpeningHolds(g);
    RunKeeps(g, moves);
    var e := Run(g, moves);
    assert WaveInv(e.waves[i], e.clocks[i]);
    if !e.waves[i].terms.dud { WaveIsOnSchedule(e.waves[i], e.clocks[i]); }
  }

  lemma WaveIsOnSchedule(w: WaveState, t: int)
    requires WaveInv(w, t) && !w.terms.dud
    ensures t >= 1 ==> var target := w.terms.perBlock * Min(t, BlocksOf(w)) as real;
                       w.bought <= target <= w.bought + 0.000000001
    ensures t > BlocksOf(w) + w.terms.hold && w.cappedAt != Some(t - 1) ==>
              w.heldAtDecay.Some? && w.sold <= DueBy(w, w.heldAtDecay.value, t - 1) <= w.sold + 0.000000000001
  {
    hide DueBy, SellBackDue;
    if WaveSells(w, t) { SellBackFollowsItsSchedule(w, t); }
  }

  /// Once its ceiling stops a wave it never buys again, whatever anyone trades afterwards.
  lemma {:induction false} StoppedForGood(g: World, moves: seq<Move>, i: nat)
    requires WorldInv(g) && Shaped(g) && i < |g.waves| && Playable(g, moves)
    requires g.waves[i].cappedAt.Some?
    ensures Run(g, moves).waves[i].cappedAt == g.waves[i].cappedAt && Run(g, moves).waves[i].bought == g.waves[i].bought
    decreases |moves|
  {
    hide Payout, WaveStep, WaveInv;
    if moves != [] {
      var g' := Apply(g, moves[0]);
      assert WaveInv(g.waves[i], g.clocks[i]);
      WaveBuysOnlyWhileRunning(g.waves[i], g.clocks[i]);
      assert g'.waves[i].cappedAt == g.waves[i].cappedAt && g'.waves[i].bought == g.waves[i].bought;
      MoveKeeps(g, moves[0]);
      StoppedForGood(g', moves[1..], i);
    }
  }

  // ---------------------------------------------------------------- the tape

  /// Net USDC a pool's tape records over the blocks [lo, hi).
  function TapeSum(flow: map<int, real>, lo: int, hi: int): real
    requires lo <= hi
    decreases hi - lo
  {
    if lo == hi then 0.0
    else (if hi - 1 in flow then flow[hi - 1] else 0.0) + TapeSum(flow, lo, hi - 1)
  }

  ghost predicate Covers(flow: map<int, real>, lo: int, hi: int) {
    lo <= hi && forall t <- flow :: lo <= t < hi
  }

  /// The tape accounts for every USDC the pool holds beyond its seed.
  ghost predicate TapeSquares(w: WaveState) {
    forall lo, hi :: Covers(w.flow, lo, hi) ==> TapeSum(w.flow, lo, hi) == w.pool.x - w.terms.seeded
  }

  lemma {:induction false} NotedSum(flow: map<int, real>, t: int, usdc: real, lo: int, hi: int)
    requires lo <= hi
    ensures TapeSum(Noted(flow, t, usdc), lo, hi) == TapeSum(flow, lo, hi) + (if lo <= t < hi then usdc else 0.0)
    decreases hi - lo
  {
    if lo < hi { NotedSum(flow, t, usdc, lo, hi - 1); }
  }

  lemma NotedSquares(w: WaveState, w': WaveState, t: int, usdc: real)
    requires TapeSquares(w) && w'.terms == w.terms
    requires w'.flow == Noted(w.flow, t, usdc) && w'.pool.x == w.pool.x + usdc
    ensures TapeSquares(w')
  {
    forall lo, hi | Covers(w'.flow, lo, hi)
      ensures TapeSum(w'.flow, lo, hi) == w'.pool.x - w'.terms.seeded
    {
      assert t in w'.flow;
      assert forall u <- w.flow :: u in w'.flow;
      assert Covers(w.flow, lo, hi);
      NotedSum(w.flow, t, usdc, lo, hi);
    }
  }

  lemma MoveTapes(g: World, m: Move, i: nat)
    requires Shaped(g) && InRange(g, m) && i < |g.waves| && TapeSquares(g.waves[i])
    ensures TapeSquares(Apply(g, m).waves[i])
  {
    hide Payout, TapeSquares, Noted;
    var w, w' := g.waves[i], Apply(g, m).waves[i];
    if w'.flow != w.flow || w'.pool != w.pool {
      NotedSquares(w, w', if m.Tick? then g.clocks[i] else m.t, w'.pool.x - w.pool.x);
    } else {
      SameTape(w, w');
    }
  }

  lemma SameTape(w: WaveState, w': WaveState)
    requires TapeSquares(w) && w'.flow == w.flow && w'.pool == w.pool && w'.terms == w.terms
    ensures TapeSquares(w')
  {}

  lemma {:induction false} RunTapes(g: World, moves: seq<Move>, i: nat)
    requires Shaped(g) && Playable(g, moves) && i < |g.waves| && TapeSquares(g.waves[i])
    ensures TapeSquares(Run(g, moves).waves[i])
    decreases |moves|
  {
    hide Apply, TapeSquares;
    if moves != [] {
      MoveTapes(g, moves[0], i);
      RunTapes(Apply(g, moves[0]), moves[1..], i);
    }
  }

  lemma {:induction false} EmptyTapeSum(lo: int, hi: int)
    requires lo <= hi
    ensures TapeSum(map[], lo, hi) == 0.0
    decreases hi - lo
  {
    if lo < hi { EmptyTapeSum(lo, hi - 1); }
  }

  /**
   One pool on its own: its tape, which mixes the wave and the traders, sums to what it holds beyond its
   seed and never below zero.
   */
  lemma PoolTapeAccountsForReserves(g: World, moves: seq<Move>, i: nat, lo: int, hi: int)
    requires Opens(g) && Playable(g, moves) && i < |g.waves|
    ensures Shaped(g)
    ensures var w := Run(g, moves).waves[i];
            Covers(w.flow, lo, hi) ==> TapeSum(w.flow, lo, hi) == w.pool.x - w.terms.seeded >= 0.0
  {
    OpeningHolds(g);
    assert TapeSquares(g.waves[i]) by {
      forall l, h | Covers(g.waves[i].flow, l, h)
        ensures TapeSum(g.waves[i].flow, l, h) == g.waves[i].pool.x - g.waves[i].terms.seeded
      {
        EmptyTapeSum(l, h);
      }
    }
    RunTapes(g, moves, i);
    TradersTakeAtMostWhatWavesPay(g, moves);
  }

  // ---------------------------------------------------------------- one pool on its own

  /// The cash a move's trader has more for it, when it trades in pool `i`.
  function TakenBy(g: World, m: Move, i: nat): real
    requires Shaped(g) && InRange(g, m)
  {
    if m.Tick? || m.i != i then 0.0 else Apply(g, m).traders[m.a].usdc - g.traders[m.a].usdc
  }

  /// The cash the traders took out of pool `i`, less what they put in, over a run.
  function Taken(g: World, moves: seq<Move>, i: nat): real
    requires Shaped(g) && Playable(g, moves)
    decreases |moves|
  {
    if moves == [] then 0.0 else TakenBy(g, moves[0], i) + Taken(Apply(g, moves[0]), moves[1..], i)
  }

  /// The USDC a pool was seeded with and its wave paid in and did not get back, less what the pool holds.
  function Missing(w: WaveState): real { w.terms.seeded + (w.bought - w.received) - w.pool.x }

  lemma MoveTakes(g: World, m: Move, i: nat)
    requires WorldInv(g) && Shaped(g) && InRange(g, m) && i < |g.waves|
    ensures Missing(Apply(g, m).waves[i]) == Missing(g.waves[i]) + TakenBy(g, m, i)
  {
    hide Payout, WaveStep, TraderBuy, TraderSell, WaveInv;
    assert WaveInv(g.waves[i], g.clocks[i]);
    if m.i == i {
      match m
      case Tick(_) => FundedWave(g.waves[i], g.clocks[i]); WaveStepConserves(g.waves[i], g.clocks[i]);
      case Buy(a, _, t, usdc) =>
        FundedWave(g.waves[i], g.clocks[i]);
        BuyTrades(g.traders[a], g.waves[i], i, t, usdc);
      case Sell(a, _, t) =>
        FundedWave(g.waves[i], g.clocks[i]);
        SellTrades(g.traders[a], g.waves[i], i, t);
    }
  }

  lemma FundedWave(w: WaveState, t: int)
    requires WaveInv(w, t)
    ensures Funded(w.pool)
  {}

  lemma {:induction false} RunTakes(g: World, moves: seq<Move>, i: nat)
    requires WorldInv(g) && Shaped(g) && Playable(g, moves) && i < |g.waves|
    ensures Missing(Run(g, moves).waves[i]) == Missing(g.waves[i]) + Taken(g, moves, i)
    decreases |moves|
  {
    hide WorldInv, Apply, Missing, TakenBy;
    if moves != [] {
      MoveTakes(g, moves[0], i);
      MoveKeeps(g, moves[0]);
      RunTakes(Apply(g, moves[0]), moves[1..], i);
    }
  }

  /**
   In every pool on its own, and whatever happens in the others, the cash the traders took out is what the
   wave paid in and did not get back, less what the pool still holds beyond its seed: so at most that.
   */
  lemma EachPoolPaysAtMostItsWave(g: World, moves: seq<Move>, i: nat)
    requires Opens(g) && Playable(g, moves) && i < |g.waves|
    ensures Shaped(g)
    ensures var w := Run(g, moves).waves[i];
            Taken(g, moves, i) == (w.bought - w.received) - (w.pool.x - w.terms.seeded)
    ensures var w := Run(g, moves).waves[i]; Taken(g, moves, i) <= w.bought - w.received
  {
    OpeningHolds(g);
    assert WaveOpens(g.waves[i]);
    NothingMissingYet(g.waves[i]);
    hide Opens, WorldInv, Run, Taken;
    RunTakes(g, moves, i);
    TradersTakeAtMostWhatWavesPay(g, moves);
  }

  lemma NothingMissingYet(w: WaveState)
    requires WaveOpens(w)
    ensures Missing(w) == 0.0
  {}
}
