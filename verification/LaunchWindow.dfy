/**
 The objects of scripts/measureLaunchFrontRun.ts, updated in place as the source updates them: the
 pool, the wave with its driver block, the agent's trades, and the loop that runs one window. Each is
 proved to do what LaunchPool and LaunchRuns say of its value.
 */
module LaunchWindow {
  import opened Basics
  import opened LaunchPool
  import opened LaunchRuns

  class Pool {
    var x: real  // USDC
    var y: real  // tokens

    constructor (x: real, y: real)
      ensures Value() == Reserves(x, y)
    {
      this.x, this.y := x, y;
    }

    function Value(): Reserves
      reads this
    {
      Reserves(x, y)
    }

    method Buy(usdc: real) returns (out: real)
      requires Funded(Value())
      modifies this
      ensures (Value(), out) == PoolBuy(old(Value()), usdc)
    {
      if !(usdc > 0.0) { return 0.0; }
      var ny := x * y / (x + usdc * (1.0 - FEE));
      out := y - ny;
      x := x + usdc;
      y := ny;
    }

    method Sell(tokens: real) returns (out: real)
      requires Funded(Value())
      modifies this
      ensures (Value(), out) == PoolSell(old(Value()), tokens)
    {
      if !(tokens > 0.0) { return 0.0; }
      assert x * y == y * x;
      var nx := x * y / (y + tokens * (1.0 - FEE));
      out := x - nx;
      y := y + tokens;
      x := nx;
    }

    /// Sells into a copy: this pool is not touched.
    method QuoteSell(tokens: real) returns (out: real)
      requires Funded(Value())
      ensures out == PoolSell(Value(), tokens).1
    {
      var copy := new Pool(x, y);
      out := copy.Sell(tokens);
    }
  }

  class Wave {
    const terms: WaveTerms
    const pool: Pool
    var bought: real
    var tokens: real
    var sold: real
    var cappedAt: Option<int>
    var heldAtDecay: Option<real>
    var flow: map<int, real>
    ghost var received: real

    constructor (terms: WaveTerms)
      requires ValidTerms(terms)
      ensures WaveOpens(Value()) && this.terms == terms && fresh(pool)
    {
      this.terms := terms;
      pool := new Pool(terms.seeded, terms.seeded);
      bought, tokens, sold, received := 0.0, 0.0, 0.0, 0.0;
      cappedAt, heldAtDecay, flow := None, None, map[];
    }

    ghost function Value(): WaveState
      reads this, pool
    {
      WaveState(terms, pool.Value(), bought, received, tokens, sold, cappedAt, heldAtDecay, flow)
    }

    method Note(t: int, usdc: real)
      modifies this`flow
      ensures flow == Noted(old(flow), t, usdc)
    {
      flow := flow[t := (if t in flow then flow[t] else 0.0) + usdc];
    }

    method Step(t: int)
      requires Funded(pool.Value())
      modifies this, pool
      ensures Value() == WaveStep(old(Value()), t)
    {
      hide Payout, Portion, SellTowards, PoolBuy, PoolSell, Noted, Product, SpendFor, Price;
      if terms.dud || t < 0 { return; }
      var ramp := if cappedAt.Some? then cappedAt.value else terms.ramp;
      var delta := SpendFor(terms, Min(t + 1, ramp)) - bought;
      if delta > BUY_DUST {
        if Price(pool.Value()) <= terms.ceiling {
          var out := pool.Buy(delta);
          tokens := tokens + out;
          bought := bought + delta;
          Note(t, delta);
        } else {
          cappedAt := Some(Min(terms.ramp, t));
        }
        return;
      }
      var decay0 := ramp + terms.hold;
      if t < decay0 { return; }
      var held := if heldAtDecay.Some? then heldAtDecay.value else tokens;
      var fraction :=
        if terms.decay <= 0 then 1.0 else MinReal(1.0, (t - decay0 + 1) as real / terms.decay as real);
      SellBack(t, held, Portion(Portion(held, terms.sellBack), fraction));
    }

    /// The last lines of the driver block: sell what is missing from the target.
    method SellBack(t: int, held: real, target: real)
      requires Funded(pool.Value())
      modifies this, pool
      ensures Value() == SellTowards(old(Value()), t, held, target)
    {
      hide Payout;
      heldAtDecay := Some(held);
      var s := MinReal(target - sold, tokens);
      if s > SELL_DUST {
        var got := pool.Sell(s);
        tokens := tokens - s;
        sold := sold + s;
        received := received + got;
        Note(t, -got);
      }
    }
  }

  class Agent {
    const usdc0: real
    var usdc: real
    var tokens: map<nat, real>

    constructor (usdc0: real)
      ensures Value() == Trader(usdc0, usdc0, map[])
    {
      this.usdc0, usdc, tokens := usdc0, usdc0, map[];
    }

    function Value(): Trader
      reads this
    {
      Trader(usdc0, usdc, tokens)
    }

    method Buy(w: Wave, i: nat, t: int, usdc: real)
      requires Funded(w.pool.Value())
      modifies this, w`flow, w.pool
      ensures (Value(), w.Value()) == TraderBuy(old(Value()), old(w.Value()), i, t, usdc)
    {
      hide Payout;
      var amount := MinReal(usdc, this.usdc);
      if !(amount > 0.0) { return; }
      this.usdc := this.usdc - amount;
      var out := w.pool.Buy(amount);
      tokens := tokens[i := (if i in tokens then tokens[i] else 0.0) + out];
      w.Note(t, amount);
    }

    method Sell(w: Wave, i: nat, t: int)
      requires Funded(w.pool.Value())
      modifies this, w`flow, w.pool
      ensures (Value(), w.Value()) == TraderSell(old(Value()), old(w.Value()), i, t)
    {
      hide Payout;
      var held := if i in tokens then tokens[i] else 0.0;
      if !(held > 0.0) { return; }
      var got := w.pool.Sell(held);
      tokens := tokens[i := 0.0];
      usdc := usdc + got;
      w.Note(t, -got);
    }

    function Pnl(): (p: real)
      reads this
      ensures p == Profit(Value())
    {
      usdc - usdc0
    }
  }

  // ---------------------------------------------------------------- one window

  /// What an agent asks for in a block. The strategies themselves are not modelled: an agent is any
  /// function from block to orders.
  datatype Order = BuyOrder(i: nat, usdc: real) | SellOrder(i: nat)

  ghost predicate Separate(waves: seq<Wave>) {
    forall i, j :: 0 <= i < j < |waves| ==> waves[i] != waves[j] && waves[i].pool != waves[j].pool
  }

  ghost function Pools(waves: seq<Wave>): set<Pool> { set w <- waves :: w.pool }

  /// The window as a value: the waves, each driver's next block, and the agent if there is one.
  ghost function Snapshot(waves: seq<Wave>, clocks: seq<int>, agent: Agent?): World
    reads waves, Pools(waves), agent
  {
    World(seq(|waves|, i requires 0 <= i < |waves| reads waves, Pools(waves) => waves[i].Value()),
          clocks, if agent == null then [] else [agent.Value()])
  }

  method Drive(waves: seq<Wave>, i: nat, t: int, ghost clocks: seq<int>, ghost agent: Agent?)
    requires Separate(waves) && i < |waves| == |clocks| && clocks[i] == t
    requires Shaped(Snapshot(waves, clocks, agent))
    modifies waves, Pools(waves)
    ensures Snapshot(waves, clocks[i := t + 1], agent) == Apply(old(Snapshot(waves, clocks, agent)), Tick(i))
  {
    hide WaveStep;
    assert Snapshot(waves, clocks, agent).waves[i] == waves[i].Value();
    waves[i].Step(t);
  }

  /// The move an order is at block `t`, for the one agent of the window.
  function MoveOf(o: Order, t: int): Move {
    match o
    case BuyOrder(i, usdc) => Buy(0, i, t, usdc)
    case SellOrder(i) => Sell(0, i, t)
  }

  method Trade(waves: seq<Wave>, o: Order, t: int, ghost clocks: seq<int>, agent: Agent)
    requires Separate(waves) && o.i < |waves| == |clocks|
    requires Shaped(Snapshot(waves, clocks, agent))
    modifies waves, Pools(waves), agent
    ensures InRange(old(Snapshot(waves, clocks, agent)), MoveOf(o, t))
    ensures Snapshot(waves, clocks, agent) == Apply(old(Snapshot(waves, clocks, agent)), MoveOf(o, t))
  {
    hide TraderBuy, TraderSell;
    assert Snapshot(waves, clocks, agent).waves[o.i] == waves[o.i].Value();
    match o {
      case BuyOrder(i, usdc) =>
        agent.Buy(waves[i], i, t, usdc);
      case SellOrder(i) =>
        agent.Sell(waves[i], i, t);
    }
  }

  /// `moves` takes the window from `g0` to where it is now.
  ghost predicate Reached(g0: World, moves: seq<Move>, now: World) {
    Shaped(g0) && Playable(g0, moves) && now == Run(g0, moves)
  }

  /// The orders of a block, in order.
  function OrderMoves(orders: seq<Order>, t: int): seq<Move> {
    seq(|orders|, k requires 0 <= k < |orders| => MoveOf(orders[k], t))
  }

  /// A driver block of every wave, in order.
  function Ticks(n: nat): seq<Move> { seq(n, i requires 0 <= i < n => Tick(i)) }

  /// One block of a window: an agent that pays the high fee acts before the drivers, any other behind them.
  function BlockMoves(orders: seq<Order>, t: int, n: nat, highFee: bool): seq<Move> {
    if highFee then OrderMoves(orders, t) + Ticks(n) else Ticks(n) + OrderMoves(orders, t)
  }

  /// The blocks from -1 up to `end`.
  function WindowMoves(plan: int -> seq<Order>, n: nat, highFee: bool, end: int): seq<Move>
    decreases Max(end + 1, 0)
  {
    if end <= -1 then [] else WindowMoves(plan, n, highFee, end - 1) + BlockMoves(plan(end - 1), end - 1, n, highFee)
  }

  function NoOrders(t: int): seq<Order> { [] }

  /// Nobody asks for anything.
  function PlanOf(agent: Agent?, plan: int -> seq<Order>): int -> seq<Order> {
    if agent == null then NoOrders else plan
  }

  function Clocks(waves: seq<Wave>, t: int): seq<int> { seq(|waves|, _ => t) }

  method Act(waves: seq<Wave>, orders: seq<Order>, t: int, ghost clocks: seq<int>, agent: Agent,
             ghost g0: World, ghost before: seq<Move>)
    requires Separate(waves) && |waves| == |clocks| && forall k :: 0 <= k < |orders| ==> orders[k].i < |waves|
    requires Reached(g0, before, Snapshot(waves, clocks, agent))
    modifies waves, Pools(waves), agent
    ensures Reached(g0, before + OrderMoves(orders, t), Snapshot(waves, clocks, agent))
  {
    hide Run, Shaped, Apply;
    ghost var moves := OrderMoves(orders, t);
    Units(before);
    assert moves[..0] == [];
    for k := 0 to |orders|
      invariant Reached(g0, before + moves[..k], Snapshot(waves, clocks, agent))
    {
      RunIsShaped(g0, before + moves[..k]);
      Trade(waves, orders[k], t, clocks, agent);
      RunThenMove(g0, before + moves[..k], moves[k]);
      assert before + moves[..k] + [moves[k]] == before + moves[..k + 1];
    }
    assert moves[..|orders|] == moves;
  }

  method DriveAll(waves: seq<Wave>, t: int, ghost before: seq<int>, ghost agent: Agent?,
                  ghost g0: World, ghost earlier: seq<Move>)
    returns (ghost clocks: seq<int>)
    requires Separate(waves) && |waves| == |before| && forall i :: 0 <= i < |before| ==> before[i] == t
    requires Reached(g0, earlier, Snapshot(waves, before, agent))
    modifies waves, Pools(waves)
    ensures |clocks| == |waves| && forall i :: 0 <= i < |clocks| ==> clocks[i] == t + 1
    ensures Reached(g0, earlier + Ticks(|waves|), Snapshot(waves, clocks, agent))
  {
    hide Run, Shaped, Apply;
    clocks := before;
    ghost var moves := Ticks(|waves|);
    Units(earlier);
    assert moves[..0] == [];
    for i := 0 to |waves|
      invariant |clocks| == |waves|
      invariant forall j :: 0 <= j < |clocks| ==> clocks[j] == if j < i then t + 1 else t
      invariant Reached(g0, earlier + moves[..i], Snapshot(waves, clocks, agent))
    {
      RunIsShaped(g0, earlier + moves[..i]);
      Drive(waves, i, t, clocks, agent);
      RunThenMove(g0, earlier + moves[..i], moves[i]);
      assert earlier + moves[..i] + [moves[i]] == earlier + moves[..i + 1];
      clocks := clocks[i := t + 1];
    }
    assert moves[..|waves|] == moves;
  }

  lemma RunIsShaped(g: World, moves: seq<Move>)
    requires Shaped(g) && Playable(g, moves)
    ensures Shaped(Run(g, moves)) && |Run(g, moves).waves| == |g.waves| && |Run(g, moves).traders| == |g.traders|
  {}

  function WaveEnd(w: Wave): int { w.terms.ramp + w.terms.hold + w.terms.decay }

  /// Seventy blocks past the last of the waves' last blocks; with no wave, the first block.
  ghost predicate EndsAt(waves: seq<Wave>, end: int) {
    (waves == [] ==> end == -1) && (forall i :: 0 <= i < |waves| ==> end >= WaveEnd(waves[i]) + 70) &&
    (waves != [] ==> exists i :: 0 <= i < |waves| && end == WaveEnd(waves[i]) + 70)
  }

  /// The block after every wave's last, with room for the slowest agent to sell.
  method WindowEnd(waves: seq<Wave>) returns (end: int)
    ensures EndsAt(waves, end)
  {
    if waves == [] { return -1; }
    end := WaveEnd(waves[0]) + 70;
    for k := 1 to |waves|
      invariant forall i :: 0 <= i < k ==> end >= WaveEnd(waves[i]) + 70
      invariant exists i :: 0 <= i < k && end == WaveEnd(waves[i]) + 70
    {
      end := Max(end, WaveEnd(waves[k]) + 70);
    }
  }

  ghost function Bought(waves: seq<Wave>): seq<real>
    reads waves
  {
    seq(|waves|, i requires 0 <= i < |waves| reads waves => waves[i].bought)
  }

  method TotalBought(waves: seq<Wave>) returns (gross: real)
    ensures gross == SumReal(Bought(waves))
  {
    gross := 0.0;
    for i := |waves| downto 0
      invariant gross == SumReal(Bought(waves)[i..])
    {
      gross := waves[i].bought + gross;
    }
  }

  /// One turn of the window's loop.
  method PlayBlock(waves: seq<Wave>, agent: Agent?, highFee: bool, plan: int -> seq<Order>, t: int, ghost g0: World)
    requires Separate(waves) && t >= -1 && forall k :: 0 <= k < |plan(t)| ==> plan(t)[k].i < |waves|
    requires Reached(g0, WindowMoves(PlanOf(agent, plan), |waves|, highFee, t),
                     Snapshot(waves, Clocks(waves, t), agent))
    modifies waves, Pools(waves), agent
    ensures Reached(g0, WindowMoves(PlanOf(agent, plan), |waves|, highFee, t + 1),
                    Snapshot(waves, Clocks(waves, t + 1), agent))
  {
    hide Run, Shaped, Apply, WindowMoves, Reached, Ticks, OrderMoves;
    ghost var before := WindowMoves(PlanOf(agent, plan), |waves|, highFee, t);
    BlockIs(PlanOf(agent, plan), t, |waves|, highFee, agent == null);
    if agent != null && highFee {
      Act(waves, plan(t), t, Clocks(waves, t), agent, g0, before);
      before := before + OrderMoves(plan(t), t);
    }
    ghost var clocks := DriveAll(waves, t, Clocks(waves, t), agent, g0, before);
    before := before + Ticks(|waves|);
    assert clocks == Clocks(waves, t + 1);
    if agent != null && !highFee {
      Act(waves, plan(t), t, clocks, agent, g0, before);
      before := before + OrderMoves(plan(t), t);
    }
  }

  /**
   A whole window, from block -1 until every wave is over: it plays the blocks' moves and no others. Whatever the
   agent does, it ends with at most what the waves paid in on top of what it started with, and every wave that is
   not a dud has sold its share to within dust.
   */
  method RunWindow(waves: seq<Wave>, agent: Agent?, highFee: bool, plan: int -> seq<Order>)
    returns (gross: real, ghost end: int)
    requires Separate(waves) && Opens(Snapshot(waves, Clocks(waves, -1), agent))
    requires forall t, k :: 0 <= k < |plan(t)| ==> plan(t)[k].i < |waves|
    modifies waves, Pools(waves), agent
    ensures end >= -1 && EndsAt(waves, end)
    ensures Reached(old(Snapshot(waves, Clocks(waves, -1), agent)),
                    WindowMoves(PlanOf(agent, plan), |waves|, highFee, end),
                    Snapshot(waves, Clocks(waves, end), agent))
    ensures agent != null ==>
              agent.Pnl() <= SumReal(NetPaid(Snapshot(waves, Clocks(waves, end), agent).waves))
    ensures forall i :: 0 <= i < |waves| ==> waves[i].pool.x >= waves[i].terms.seeded
    ensures forall i :: 0 <= i < |waves| && !waves[i].terms.dud ==> SoldItsShare(waves[i].Value())
    ensures gross == SumReal(Bought(waves))
  {
    hide Run, Shaped, Apply, Opens, EndsAt, WindowMoves, Reached, PlanOf, SoldItsShare;
    ghost var g0, orders := Snapshot(waves, Clocks(waves, -1), agent), PlanOf(agent, plan);
    OpeningHolds(g0);
    NothingReached(g0, orders, |waves|, highFee);
    var last := WindowEnd(waves);
    end := last;
    EndIsNotBefore(waves, end, Clocks(waves, -1), agent);
    var t := -1;
    while t < last
      invariant -1 <= t <= last == end
      invariant Reached(g0, WindowMoves(orders, |waves|, highFee, t), Snapshot(waves, Clocks(waves, t), agent))
    {
      PlayBlock(waves, agent, highFee, plan, t, g0);
      t := t + 1;
    }
    WindowOver(waves, agent, end, g0, WindowMoves(orders, |waves|, highFee, end));
    gross := TotalBought(waves);
  }

  /// The wave ended its sell-back within dust of the share it owed, and not past it.
  ghost predicate SoldItsShare(w: WaveState) {
    w.heldAtDecay.Some? && -SELL_DUST <= w.sold - w.heldAtDecay.value * w.terms.sellBack <= 0.0
  }

  lemma EndIsNotBefore(waves: seq<Wave>, end: int, clocks: seq<int>, agent: Agent?)
    requires Opens(Snapshot(waves, clocks, agent))
    requires EndsAt(waves, end)
    ensures end >= -1
  {
    if waves != [] {
      var i :| 0 <= i < |waves| && end == WaveEnd(waves[i]) + 70;
      assert Snapshot(waves, clocks, agent).waves[i] == waves[i].Value();
    }
  }

  /// The moves played so far are those of the blocks up to this one.
  lemma BlockIs(plan: int -> seq<Order>, t: int, n: nat, highFee: bool, nobody: bool)
    requires t >= -1
    ensures var before, acted := WindowMoves(plan, n, highFee, t), OrderMoves(plan(t), t);
            WindowMoves(plan, n, highFee, t + 1) ==
              if highFee then before + acted + Ticks(n) else before + Ticks(n) + acted
    ensures nobody && plan(t) == [] ==>
              WindowMoves(plan, n, highFee, t + 1) == WindowMoves(plan, n, highFee, t) + Ticks(n)
  {
    var before, acted := WindowMoves(plan, n, highFee, t), OrderMoves(plan(t), t);
    Assoc(before, acted, Ticks(n));
    Assoc(before, Ticks(n), acted);
    Units(before);
    Units(before + Ticks(n));
    if plan(t) == [] { assert acted == []; }
  }

  lemma NothingReached(g: World, plan: int -> seq<Order>, n: nat, highFee: bool)
    requires Shaped(g)
    ensures Reached(g, WindowMoves(plan, n, highFee, -1), g)
  {
    RunNothing(g);
  }

  lemma RunNothing(g: World)
    requires Shaped(g)
    ensures Run(g, []) == g
  {}

  /// What the run lemmas say of the objects once every wave's blocks have run.
  lemma WindowOver(waves: seq<Wave>, agent: Agent?, end: int, g0: World, moves: seq<Move>)
    requires Opens(g0) && Reached(g0, moves, Snapshot(waves, Clocks(waves, end), agent)) && EndsAt(waves, end)
    ensures agent != null ==> agent.Pnl() <= SumReal(NetPaid(Snapshot(waves, Clocks(waves, end), agent).waves))
    ensures forall i :: 0 <= i < |waves| ==> waves[i].pool.x >= waves[i].terms.seeded
    ensures forall i :: 0 <= i < |waves| && !waves[i].terms.dud ==> SoldItsShare(waves[i].Value())
  {
    hide Run, Shaped, Apply, Opens;
    var e := Snapshot(waves, Clocks(waves, end), agent);
    TradersTakeAtMostWhatWavesPay(g0, moves);
    if agent != null { assert Profits(e.traders) == [Profit(agent.Value())]; }
    forall i | 0 <= i < |waves|
      ensures waves[i].pool.x >= waves[i].terms.seeded
      ensures !waves[i].terms.dud ==> SoldItsShare(waves[i].Value())
    {
      RunIsShaped(g0, moves);
      assert e.waves[i] == waves[i].Value();
      EndOfWave(g0, moves, i);
    }
  }

  lemma EndOfWave(g0: World, moves: seq<Move>, i: nat)
    requires Opens(g0) && Shaped(g0) && Playable(g0, moves) && i < |g0.waves|
    requires var w := Run(g0, moves).waves[i];
             Run(g0, moves).clocks[i] >= w.terms.ramp + w.terms.hold + w.terms.decay + 70
    ensures var w := Run(g0, moves).waves[i];
            !w.terms.dud ==> SoldItsShare(w)
  {
    hide Run, Apply, Opens;
    OpeningHolds(g0);
    RunKeeps(g0, moves);
    WaveStaysInBounds(g0, moves, i);
    var w, t := Run(g0, moves).waves[i], Run(g0, moves).clocks[i];
    assert WaveInv(w, t);
  }

  // ---------------------------------------------------------------- who acts when

  /// How often wave `i`'s driver runs.
  function TicksOf(moves: seq<Move>, i: nat): nat {
    if moves == [] then 0 else (if moves[0] == Tick(i) then 1 else 0) + TicksOf(moves[1..], i)
  }

  lemma {:induction false} TicksOfConcat(a: seq<Move>, b: seq<Move>, i: nat)
    ensures TicksOf(a + b, i) == TicksOf(a, i) + TicksOf(b, i)
    decreases |a|
  {
    if a == [] {
      Units(b);
    } else {
      assert (a + b)[0] == a[0] && (a + b)[1..] == a[1..] + b;
      TicksOfConcat(a[1..], b, i);
    }
  }

  lemma {:induction false} OneTickEach(n: nat, i: nat)
    ensures TicksOf(Ticks(n), i) == if i < n then 1 else 0
  {
    if n > 0 {
      assert Ticks(n) == Ticks(n - 1) + [Tick(n - 1)];
      OneTickEach(n - 1, i);
      TicksOfConcat(Ticks(n - 1), [Tick(n - 1)], i);
      assert [Tick(n - 1)][1..] == [];
    }
  }

  lemma {:induction false} OrdersTickNothing(moves: seq<Move>, i: nat)
    requires forall m <- moves :: !m.Tick?
    ensures TicksOf(moves, i) == 0
  {
    if moves != [] { OrdersTickNothing(moves[1..], i); }
  }

  lemma {:induction false} ClockCountsTicks(g: World, moves: seq<Move>, i: nat)
    requires Shaped(g) && Playable(g, moves) && i < |g.waves|
    ensures Run(g, moves).clocks[i] == g.clocks[i] + TicksOf(moves, i)
    decreases |moves|
  {
    hide WaveStep, TraderBuy, TraderSell;
    if moves != [] { ClockCountsTicks(Apply(g, moves[0]), moves[1..], i); }
  }

  lemma {:induction false} OneTickPerBlock(plan: int -> seq<Order>, n: nat, highFee: bool, end: int, i: nat)
    requires end >= -1 && i < n
    ensures TicksOf(WindowMoves(plan, n, highFee, end), i) == end + 1
    decreases end
  {
    if end > -1 {
      var t := end - 1;
      var before, acted := WindowMoves(plan, n, highFee, t), OrderMoves(plan(t), t);
      OneTickPerBlock(plan, n, highFee, t, i);
      OneTickEach(n, i);
      OrdersTickNothing(acted, i);
      TicksOfConcat(before, BlockMoves(plan(t), t, n, highFee), i);
      TicksOfConcat(acted, Ticks(n), i);
      TicksOfConcat(Ticks(n), acted, i);
    }
  }

  lemma {:induction false} BlocksFollow(plan: int -> seq<Order>, n: nat, highFee: bool, t: int, end: int)
    requires -1 <= t <= end
    ensures WindowMoves(plan, n, highFee, t) <= WindowMoves(plan, n, highFee, end)
    decreases end - t
  {
    if t < end { BlocksFollow(plan, n, highFee, t, end - 1); }
  }

  /**
   Every order of every block is played, in order: with the high fee when each driver is about to run that block,
   without it when each has just run it.
   */
  lemma EveryOrderIsPlayed(g: World, plan: int -> seq<Order>, highFee: bool, end: int, t: int, k: nat)
    requires Opens(g) && Shaped(g) && Playable(g, WindowMoves(plan, |g.waves|, highFee, end))
    requires -1 <= t < end && k < |plan(t)|
    ensures var moves, n := WindowMoves(plan, |g.waves|, highFee, end), |g.waves|;
            var j := |WindowMoves(plan, n, highFee, t)| + (if highFee then k else n + k);
            j < |moves| && moves[j] == MoveOf(plan(t)[k], t) &&
            forall i :: 0 <= i < n ==> Run(g, moves[..j]).clocks[i] == if highFee then t else t + 1
  {
    hide Run, Apply, Opens, WindowMoves, BlockMoves, OrderMoves;
    var n := |g.waves|;
    var moves, front := WindowMoves(plan, n, highFee, end), FrontOf(plan(t), t, n, highFee, k);
    var j := |WindowMoves(plan, n, highFee, t)| + (if highFee then k else n + k);
    OrderStands(plan, n, highFee, end, t, k);
    forall i | 0 <= i < n ensures Run(g, moves[..j]).clocks[i] == if highFee then t else t + 1 {
      FrontTicks(plan(t), t, n, highFee, k, i);
      OneTickPerBlock(plan, n, highFee, t, i);
      TicksOfConcat(WindowMoves(plan, n, highFee, t), front, i);
      ClockCountsTicks(g, moves[..j], i);
      OpensAtMinusOne(g, i);
    }
  }

  /// What stands in front of order `k` in its block.
  function FrontOf(orders: seq<Order>, t: int, n: nat, highFee: bool, k: nat): seq<Move>
    requires k < |orders|
  {
    (if highFee then [] else Ticks(n)) + OrderMoves(orders, t)[..k]
  }

  lemma FrontTicks(orders: seq<Order>, t: int, n: nat, highFee: bool, k: nat, i: nat)
    requires k < |orders| && i < n
    ensures TicksOf(FrontOf(orders, t, n, highFee, k), i) == if highFee then 0 else 1
  {
    hide Ticks;
    OneTickEach(n, i);
    OrdersTickNothing(OrderMoves(orders, t)[..k], i);
    TicksOfConcat(if highFee then [] else Ticks(n), OrderMoves(orders, t)[..k], i);
  }

  lemma OrderStands(plan: int -> seq<Order>, n: nat, highFee: bool, end: int, t: int, k: nat)
    requires -1 <= t < end && k < |plan(t)|
    ensures var moves, before := WindowMoves(plan, n, highFee, end), WindowMoves(plan, n, highFee, t);
            var j := |before| + (if highFee then k else n + k);
            j < |moves| && moves[j] == MoveOf(plan(t)[k], t) &&
            moves[..j] == before + FrontOf(plan(t), t, n, highFee, k)
  {
    var before, block := WindowMoves(plan, n, highFee, t), BlockMoves(plan(t), t, n, highFee);
    var front := FrontOf(plan(t), t, n, highFee, k);
    BlocksFollow(plan, n, highFee, t + 1, end);
    assert WindowMoves(plan, n, highFee, t + 1) == before + block;
    assert block[..|front|] == front && block[|front|] == MoveOf(plan(t)[k], t);
    StandsIn(WindowMoves(plan, n, highFee, end), before, block, |front|);
  }

  lemma StandsIn(moves: seq<Move>, before: seq<Move>, block: seq<Move>, k: nat)
    requires before + block <= moves && k < |block|
    ensures moves[|before| + k] == block[k] && moves[..|before| + k] == before + block[..k]
  {}

  lemma OpensAtMinusOne(g: World, i: nat)
    requires Opens(g) && i < |g.waves|
    ensures |g.clocks| == |g.waves| && g.clocks[i] == -1
  {}
}
