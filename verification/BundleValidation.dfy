/**
 Cumulative validation of a bundle (sdk/src/action.ts, with the balance checks of the venue adapters): each
 leaf is checked against what the earlier leaves left. What a venue checks besides balances is the predicate
 `extra`; the price estimate of a swap's output comes with the leaf.
 */
module BundleValidation {
  import opened Basics

  const WETH: string := "WETH"
  /// The LST is in no balance map: its venue keeps its own account of it.
  const LST: string := "LST"
  /// Stands for the lower-cased address of native USDC.
  const USDC: string := "usdc"

  datatype Token = Base(symbol: string) | Stable(address: string)

  datatype Balances = Balances(
    ethWei: int, wethWei: int, usdcUnits: int, bases: Option<map<string, int>>, stables: Option<map<string, int>>)

  datatype StableMarket = StableMarket(token: string, decimals: nat)

  datatype Asset = Settlement | Collateral(symbol: string)

  datatype Taking = Taking(token: Token, amount: nat, checked: bool)

  /**
   Amounts are parsed from decimal strings. `estimate` is None when the venue's price is not positive.
   `Overlooked` is a leaf whose takings are not deducted: what a Liquity leaf takes of WETH or USDC, `checked`
   against the working balance, and what is not, as the eUSD it takes (its venue looks at the observed balance)
   or what a lending leaf takes (its venue looks at none). `Other` takes nothing that a balance map holds.
   */
  datatype Leaf =
    | Swap(base: string, sellsBase: bool, amountIn: nat, legStable: string, estimate: Option<nat>)
    | MintLiquidity(base: string, amountBase: nat, amountQuote: nat)
    | StableSwap(market: Option<StableMarket>, sellsStable: bool, amountIn: nat)
    | LstDeposit(amount: nat)
    | LstSwap(fromWeth: bool, amount: nat)
    | AaveSupply(asset: Asset, amount: nat)
    | AaveRepay(asset: Asset, repaid: Option<nat>)
    | Overlooked(takings: seq<Taking>)
    | Other

  /// A leaf with its adapter's stable token and the priority fee it names.
  datatype Item = Item(leaf: Leaf, stableKey: string, fee: Option<int>)

  datatype Limits = Limits(defaultFee: int, maxFee: int)

  // ---------------------------------------------------------------- balances and moves

  /// The balance a check reads: a base outside the map falls back to WETH, a stable to USDC.
  function Held(w: Balances, t: Token): int {
    match t
    case Base(b) => if w.bases.Some? && b in w.bases.value then w.bases.value[b] else w.wethWei
    case Stable(a) => if w.stables.Some? && a in w.stables.value then w.stables.value[a] else w.usdcUnits
  }

  /// The tokens a leaf's spending is deducted from.
  predicate Tracked(w: Balances, t: Token) {
    match t
    case Base(b) => b == WETH || (w.bases.Some? && b in w.bases.value)
    case Stable(a) => a == USDC || (w.stables.Some? && a in w.stables.value)
  }

  ghost predicate Mirrored(w: Balances) {
    (w.bases.Some? ==> WETH in w.bases.value && w.bases.value[WETH] == w.wethWei) &&
    (w.stables.Some? && USDC in w.stables.value ==> w.stables.value[USDC] == w.usdcUnits)
  }

  ghost predicate NonNegative(w: Balances) {
    w.wethWei >= 0 && w.usdcUnits >= 0 &&
    (w.bases.Some? ==> forall b <- w.bases.value :: w.bases.value[b] >= 0) &&
    (w.stables.Some? ==> forall a <- w.stables.value :: w.stables.value[a] >= 0)
  }

  datatype Move = Spend(token: Token, amount: int) | Credit(token: Token, amount: int)

  function Less(held: int, amount: int): int { if held > amount then held - amount else 0 }

  function LessAt(held: Option<map<string, int>>, key: string, amount: int): Option<map<string, int>> {
    if held.Some? && key in held.value then Some(held.value[key := Less(held.value[key], amount)]) else held
  }

  function Moved(w: Balances, m: Move): Balances {
    match m
    case Spend(Base(b), a) =>
      w.(wethWei := if b == WETH then Less(w.wethWei, a) else w.wethWei, bases := LessAt(w.bases, b, a))
    case Credit(Base(b), a) =>
      w.(wethWei := if b == WETH then w.wethWei + a else w.wethWei,
         bases := if w.bases.None? then None
                  else Some(w.bases.value[b := (if b in w.bases.value then w.bases.value[b] else 0) + a]))
    case Spend(Stable(k), a) =>
      w.(usdcUnits := if k == USDC then Less(w.usdcUnits, a) else w.usdcUnits, stables := LessAt(w.stables, k, a))
    case Credit(Stable(k), a) =>
      w.(usdcUnits := if k == USDC then w.usdcUnits + a else w.usdcUnits,
         stables := if w.stables.Some? && k in w.stables.value
                    then Some(w.stables.value[k := w.stables.value[k] + a]) else w.stables)
  }

  function MovedAll(w: Balances, moves: seq<Move>): Balances
    decreases |moves|
  {
    if moves == [] then w else MovedAll(Moved(w, moves[0]), moves[1..])
  }

  function Spent(moves: seq<Move>, t: Token): int {
    if moves == [] then 0
    else (if moves[0].Spend? && moves[0].token == t then moves[0].amount else 0) + Spent(moves[1..], t)
  }

  function Credited(moves: seq<Move>, t: Token): int {
    if moves == [] then 0
    else (if moves[0].Credit? && moves[0].token == t then moves[0].amount else 0) + Credited(moves[1..], t)
  }

  function PowerOfTen(n: nat): (p: nat)
    ensures p > 0
  {
    if n == 0 then 1 else 10 * PowerOfTen(n - 1)
  }

  function Times(amount: nat, factor: nat): nat { amount * factor }

  function Over(amount: nat, divisor: nat): nat
    requires divisor > 0
  {
    amount / divisor
  }

  function RescaleDecimals(amount: nat, from: nat, to: nat): nat {
    if from == to then amount
    else if to > from then Times(amount, PowerOfTen(to - from))
    else Over(amount, PowerOfTen(from - to))
  }

  function DecimalsOf(market: StableMarket, token: string): nat {
    if token == USDC then 6 else market.decimals
  }

  function AssetToken(asset: Asset, stableKey: string): Token {
    match asset
    case Settlement => Stable(stableKey)
    case Collateral(symbol) => Base(symbol)
  }

  /// What a leaf takes from and gives to the working balance; `max` is what a repayment of "max" amounts to.
  function LeafMoves(leaf: Leaf, stableKey: string, max: int): seq<Move> {
    match leaf
    case Swap(base, sellsBase, amountIn, _, estimate) =>
      var source := if sellsBase then Base(base) else Stable(stableKey);
      var target := if sellsBase then Stable(stableKey) else Base(base);
      [Spend(source, amountIn)] + if estimate.Some? then [Credit(target, estimate.value)] else []
    case MintLiquidity(base, amountBase, amountQuote) =>
      [Spend(Base(base), amountBase), Spend(Stable(stableKey), amountQuote)]
    case StableSwap(market, sellsStable, amountIn) =>
      if market.None? then []
      else
        var source := if sellsStable then market.value.token else USDC;
        var target := if sellsStable then USDC else market.value.token;
        [Spend(Stable(source), amountIn),
         Credit(Stable(target), RescaleDecimals(amountIn, DecimalsOf(market.value, source),
                                                DecimalsOf(market.value, target)))]
    case LstDeposit(amount) => [Spend(Base(WETH), amount)]
    case LstSwap(fromWeth, amount) => if fromWeth then [Spend(Base(WETH), amount)] else []
    case AaveSupply(asset, amount) => [Spend(AssetToken(asset, stableKey), amount)]
    case AaveRepay(asset, repaid) =>
      [Spend(AssetToken(asset, stableKey), if repaid.Some? then repaid.value else max)]
    case Overlooked(_) => []
    case Other => []
  }

  /// The token a repayment of "max" empties.
  function RepaidToken(item: Item): Token {
    if item.leaf.AaveRepay? then AssetToken(item.leaf.asset, item.stableKey) else Base(WETH)
  }

  function MovesAt(w: Balances, item: Item): seq<Move> {
    LeafMoves(item.leaf, item.stableKey, Held(w, RepaidToken(item)))
  }

  function Applied(w: Balances, item: Item): Balances { MovedAll(w, MovesAt(w, item)) }

  // ---------------------------------------------------------------- acceptance

  predicate AssetCovered(w: Balances, asset: Asset, amount: nat) {
    amount > 0 &&
    match asset
    case Settlement => amount <= Held(w, Stable(USDC))
    case Collateral(symbol) => symbol == LST || amount <= Held(w, Base(symbol))
  }

  /// What the adapters check of the amounts.
  predicate BalanceCheck(w: Balances, leaf: Leaf) {
    match leaf
    case Swap(base, sellsBase, amountIn, legStable, _) =>
      amountIn > 0 && amountIn <= Held(w, if sellsBase then Base(base) else Stable(legStable))
    case MintLiquidity(base, amountBase, amountQuote) =>
      (amountBase > 0 || amountQuote > 0) &&
      amountBase <= Held(w, Base(base)) && amountQuote <= Held(w, Stable(USDC))
    case StableSwap(market, sellsStable, amountIn) =>
      amountIn > 0 && market.Some? && amountIn <= Held(w, Stable(if sellsStable then market.value.token else USDC))
    case LstDeposit(amount) => amount > 0 && amount <= Held(w, Base(WETH))
    case LstSwap(fromWeth, amount) => amount > 0 && (fromWeth ==> amount <= Held(w, Base(WETH)))
    case AaveSupply(asset, amount) => AssetCovered(w, asset, amount)
    case AaveRepay(asset, repaid) => repaid.Some? ==> AssetCovered(w, asset, repaid.value)
    case Overlooked(takings) => forall g <- takings :: g.checked ==> g.amount <= Held(w, g.token)
    case Other => true
  }

  datatype Rules = Rules(bundleFee: Option<int>, limits: Limits, extra: (Leaf, Balances) -> bool)

  function FeeOf(item: Item, rules: Rules): int {
    if rules.bundleFee.Some? then rules.bundleFee.value
    else if item.fee.Some? then item.fee.value else rules.limits.defaultFee
  }

  predicate Acceptable(w: Balances, item: Item, rules: Rules) {
    FeeOf(item, rules) <= rules.limits.maxFee && BalanceCheck(w, item.leaf) && rules.extra(item.leaf, w)
  }

  function WorkAfter(w: Balances, items: seq<Item>): Balances {
    if items == [] then w
    else var n := |items| - 1; Applied(WorkAfter(w, items[..n]), items[n])
  }

  predicate Accepted(w: Balances, items: seq<Item>, rules: Rules) {
    items == [] ||
    var n := |items| - 1;
    Accepted(w, items[..n], rules) && Acceptable(WorkAfter(w, items[..n]), items[n], rules)
  }

  /// Dropping the last leaves of an accepted bundle leaves an accepted bundle.
  lemma {:induction false} AcceptanceIsPrefixClosed(w: Balances, items: seq<Item>, rules: Rules, n: nat)
    requires n <= |items| && Accepted(w, items, rules)
    ensures Accepted(w, items[..n], rules)
    ensures n < |items| ==> Acceptable(WorkAfter(w, items[..n]), items[n], rules)
  {
    hide Acceptable, WorkAfter;
    var last := |items| - 1;
    if n == |items| {
      assert items[..n] == items;
    } else if n < last {
      AcceptanceIsPrefixClosed(w, items[..last], rules, n);
      assert items[..last][..n] == items[..n];
    }
  }

  // ---------------------------------------------------------------- mirrors

  lemma MoveKeepsMirrors(w: Balances, m: Move)
    requires Mirrored(w) && NonNegative(w) && m.amount >= 0
    ensures Mirrored(Moved(w, m)) && NonNegative(Moved(w, m))
    ensures forall t :: Tracked(w, t) ==> Tracked(Moved(w, m), t)
  {}

  lemma {:induction false} MovesKeepMirrors(w: Balances, moves: seq<Move>)
    requires Mirrored(w) && NonNegative(w) && forall m <- moves :: m.amount >= 0
    ensures Mirrored(MovedAll(w, moves)) && NonNegative(MovedAll(w, moves))
    ensures forall t :: Tracked(w, t) ==> Tracked(MovedAll(w, moves), t)
    decreases |moves|
  {
    hide Mirrored, NonNegative, Moved, Tracked;
    if moves != [] {
      MoveKeepsMirrors(w, moves[0]);
      MovesKeepMirrors(Moved(w, moves[0]), moves[1..]);
    }
  }

  lemma HeldIsNonNegative(w: Balances, t: Token)
    requires NonNegative(w)
    ensures Held(w, t) >= 0
  {}

  lemma MovesAreNonNegative(w: Balances, item: Item)
    requires NonNegative(w)
    ensures forall m <- MovesAt(w, item) :: m.amount >= 0
  {
    HeldIsNonNegative(w, RepaidToken(item));
  }

  lemma MoveKeepsNonNegative(w: Balances, m: Move)
    requires NonNegative(w) && m.amount >= 0
    ensures NonNegative(Moved(w, m))
  {}

  lemma LeafKeepsNonNegative(w: Balances, item: Item)
    requires NonNegative(w)
    ensures NonNegative(Applied(w, item))
  {
    hide NonNegative, Moved, LeafMoves;
    var moves := MovesAt(w, item);
    MovesAreNonNegative(w, item);
    AtMostTwoMoves(item, Held(w, RepaidToken(item)));
    MovesOneByOne(w, moves);
    if |moves| > 0 { MoveKeepsNonNegative(w, moves[0]); }
    if |moves| > 1 { MoveKeepsNonNegative(Moved(w, moves[0]), moves[1]); }
  }

  lemma AtMostTwoMoves(item: Item, max: int)
    ensures |LeafMoves(item.leaf, item.stableKey, max)| <= 2
  {}

  /// Every leaf, checked or not, leaves WETH equal to its entry and USDC to its, and nothing negative.
  lemma LeafKeepsMirrors(w: Balances, item: Item)
    requires Mirrored(w) && NonNegative(w)
    ensures Mirrored(Applied(w, item)) && NonNegative(Applied(w, item))
    ensures forall t :: Tracked(w, t) ==> Tracked(Applied(w, item), t)
  {
    hide Mirrored, NonNegative, MovesAt, MovedAll, Tracked;
    MovesAreNonNegative(w, item);
    MovesKeepMirrors(w, MovesAt(w, item));
  }

  lemma {:induction false} MirrorsNeverPart(w: Balances, items: seq<Item>)
    requires Mirrored(w) && NonNegative(w)
    ensures Mirrored(WorkAfter(w, items)) && NonNegative(WorkAfter(w, items))
    ensures forall t :: Tracked(w, t) ==> Tracked(WorkAfter(w, items), t)
  {
    hide Mirrored, NonNegative, Applied, Tracked;
    if items != [] {
      var n := |items| - 1;
      MirrorsNeverPart(w, items[..n]);
      LeafKeepsMirrors(WorkAfter(w, items[..n]), items[n]);
    }
  }

  /// Without a WETH entry the first credit makes one, and it then equals wethWei only if that was zero.
  lemma MissingWethEntryPartsTheMirror(w: Balances, amount: nat)
    requires w.bases.Some? && WETH !in w.bases.value
    ensures var w' := Moved(w, Credit(Base(WETH), amount));
            WETH in w'.bases.value && (w'.bases.value[WETH] == w'.wethWei <==> w.wethWei == 0)
  {}

  // ---------------------------------------------------------------- coverage

  /// The leaf's venue checks the very stable its adapter's leaves are deducted from.
  predicate VenueAgrees(item: Item) {
    match item.leaf
    case Swap(_, sellsBase, _, legStable, _) => sellsBase || legStable == item.stableKey
    case MintLiquidity(_, _, _) => item.stableKey == USDC
    case AaveSupply(asset, _) => asset.Settlement? ==> item.stableKey == USDC
    case AaveRepay(asset, _) => asset.Settlement? ==> item.stableKey == USDC
    case _ => true
  }

  lemma MoveIsExact(w: Balances, m: Move, t: Token)
    requires Mirrored(w) && NonNegative(w) && Tracked(w, t) && m.amount >= 0
    requires m.Spend? && m.token == t ==> m.amount <= Held(w, t)
    ensures Held(Moved(w, m), t) == Held(w, t) - Spent([m], t) + Credited([m], t)
  {}

  /// No move takes more of `t` than is held when it is made.
  predicate Affordable(w: Balances, moves: seq<Move>, t: Token)
    decreases |moves|
  {
    moves == [] ||
    ((moves[0].Spend? && moves[0].token == t ==> moves[0].amount <= Held(w, t)) &&
     Affordable(Moved(w, moves[0]), moves[1..], t))
  }

  lemma {:induction false} MovesAreExact(w: Balances, moves: seq<Move>, t: Token)
    requires Mirrored(w) && NonNegative(w) && Tracked(w, t) && forall m <- moves :: m.amount >= 0
    requires Affordable(w, moves, t)
    ensures Held(MovedAll(w, moves), t) == Held(w, t) - Spent(moves, t) + Credited(moves, t)
    decreases |moves|
  {
    hide Mirrored, NonNegative, Moved, Tracked, Held;
    if moves != [] {
      MoveIsExact(w, moves[0], t);
      MoveKeepsMirrors(w, moves[0]);
      MovesAreExact(Moved(w, moves[0]), moves[1..], t);
    }
  }

  lemma CheckMakesAffordable(w: Balances, item: Item, t: Token)
    requires Mirrored(w) && NonNegative(w) && Tracked(w, t) && t != Base(LST)
    requires VenueAgrees(item) && BalanceCheck(w, item.leaf)
    ensures Affordable(w, MovesAt(w, item), t)
  {
    if item.leaf.MintLiquidity? {
      var first := Spend(Base(item.leaf.base), item.leaf.amountBase);
      if t.Stable? { assert Held(Moved(w, first), t) == Held(w, t); }
    }
  }

  /// The balance of `t` after the bundle's leaves, with every amount deducted and given in full.
  function Ledger(w: Balances, items: seq<Item>, t: Token): int
    decreases |items|, 0
  {
    if items == [] then Held(w, t)
    else
      var n := |items| - 1;
      var moves := LedgerMoves(w, items[..n], items[n]);
      Ledger(w, items[..n], t) - Spent(moves, t) + Credited(moves, t)
  }

  function LedgerMoves(w: Balances, before: seq<Item>, item: Item): seq<Move>
    decreases |before|, 1
  {
    LeafMoves(item.leaf, item.stableKey, Ledger(w, before, RepaidToken(item)))
  }

  lemma MaxMattersToItsTokenOnly(item: Item, m: int, n: int, t: Token)
    requires RepaidToken(item) == t ==> m == n
    ensures Spent(LeafMoves(item.leaf, item.stableKey, m), t) == Spent(LeafMoves(item.leaf, item.stableKey, n), t)
    ensures Credited(LeafMoves(item.leaf, item.stableKey, m), t) == Credited(LeafMoves(item.leaf, item.stableKey, n), t)
  {}

  lemma CheckBoundsSpending(w: Balances, item: Item, t: Token)
    requires NonNegative(w) && Tracked(w, t) && t != Base(LST)
    requires VenueAgrees(item) && BalanceCheck(w, item.leaf)
    ensures Spent(MovesAt(w, item), t) <= Held(w, t)
  {
    HeldIsNonNegative(w, t);
    SpentOfFew(MovesAt(w, item), t);
  }

  lemma SpentOfFew(moves: seq<Move>, t: Token)
    requires |moves| <= 2
    ensures Spent(moves, t) == (if |moves| > 0 && moves[0].Spend? && moves[0].token == t then moves[0].amount else 0) +
                               (if |moves| > 1 && moves[1].Spend? && moves[1].token == t then moves[1].amount else 0)
  {
    if |moves| == 2 { assert Spent(moves[1..][1..], t) == 0; }
  }

  ghost predicate AllVenuesAgree(items: seq<Item>) { forall item <- items :: VenueAgrees(item) }

  /// The working balance is the exact ledger: nothing deducted from an accepted bundle was cut off at zero.
  lemma {:induction false} AcceptedBundleNeverSaturates(w: Balances, items: seq<Item>, rules: Rules, t: Token)
    requires Mirrored(w) && NonNegative(w) && Tracked(w, t) && t != Base(LST)
    requires AllVenuesAgree(items) && Accepted(w, items, rules)
    ensures Held(WorkAfter(w, items), t) == Ledger(w, items, t) >= 0
  {
    hide Mirrored, NonNegative, Tracked, Held, BalanceCheck, Affordable, LeafMoves, Spent, Credited, MovedAll,
         VenueAgrees;
    if items == [] {
      HeldIsNonNegative(w, t);
    } else {
      var n := |items| - 1;
      AcceptedBundleNeverSaturates(w, items[..n], rules, t);
      MirrorsNeverPart(w, items[..n]);
      var work, last := WorkAfter(w, items[..n]), items[n];
      if RepaidToken(last) == t { assert Held(work, t) == Ledger(w, items[..n], t); }
      MaxMattersToItsTokenOnly(last, Held(work, RepaidToken(last)), Ledger(w, items[..n], RepaidToken(last)), t);
      CheckMakesAffordable(work, last, t);
      MovesAreNonNegative(work, last);
      MovesAreExact(work, MovesAt(work, last), t);
      LeafKeepsMirrors(work, last);
      HeldIsNonNegative(Applied(work, last), t);
    }
  }

  // ---------------------------------------------------------------- what the bundle really takes

  /// What a leaf takes of `t` without its being deducted.
  function OverlookedBy(leaf: Leaf, t: Token): nat {
    if leaf.Overlooked? then TakenOf(leaf.takings, t) else 0
  }

  function TakenOf(takings: seq<Taking>, t: Token): nat {
    if takings == [] then 0 else (if takings[0].token == t then takings[0].amount else 0) + TakenOf(takings[1..], t)
  }

  lemma TakenOfOne(g: Taking, t: Token)
    ensures TakenOf([g], t) == if g.token == t then g.amount else 0
  {
    assert [g][1..] == [];
    assert TakenOf([], t) == 0;
  }

  function OverlookedIn(items: seq<Item>, t: Token): nat {
    if items == [] then 0 else OverlookedBy(items[0].leaf, t) + OverlookedIn(items[1..], t)
  }

  lemma {:induction false} OverlookedPush(items: seq<Item>, item: Item, t: Token)
    ensures OverlookedIn(items + [item], t) == OverlookedIn(items, t) + OverlookedBy(item.leaf, t)
  {
    if items == [] {
      assert [] + [item] == [item] && [item][1..] == [];
    } else {
      assert (items + [item])[0] == items[0] && (items + [item])[1..] == items[1..] + [item];
      OverlookedPush(items[1..], item, t);
    }
  }

  /// What is left of `t` once the bundle's leaves have run, whatever the deduction knows of.
  function TrueLedger(w: Balances, items: seq<Item>, t: Token): int {
    Ledger(w, items, t) - OverlookedIn(items, t)
  }

  /// What leaf `n` takes of `t` in all.
  function TrueSpending(w: Balances, items: seq<Item>, n: nat, t: Token): int
    requires n < |items|
  {
    Spent(LedgerMoves(w, items[..n], items[n]), t) + OverlookedBy(items[n].leaf, t)
  }

  /// What of the working balance leaf `n` leaves untouched, going by what is deducted for it.
  function LeftBy(w: Balances, items: seq<Item>, n: nat, t: Token): int
    requires n < |items|
  {
    var work := WorkAfter(w, items[..n]);
    Held(work, t) - Spent(MovesAt(work, items[n]), t)
  }

  /**
   On every prefix, an accepted bundle has taken no more of a token than it started with and was credited
   if and only if what its leaves took so far without deduction is within what the working balance has left.
   */
  lemma AcceptedBundleIsCoveredIff(w: Balances, items: seq<Item>, rules: Rules, t: Token, n: nat)
    requires Mirrored(w) && NonNegative(w) && Tracked(w, t) && t != Base(LST)
    requires AllVenuesAgree(items) && Accepted(w, items, rules) && n < |items|
    ensures LeftBy(w, items, n, t) >= 0
    ensures TrueSpending(w, items, n, t) <= TrueLedger(w, items[..n], t) <==>
            OverlookedIn(items[..n + 1], t) <= LeftBy(w, items, n, t)
  {
    hide Mirrored, NonNegative, Tracked, Held, BalanceCheck, LeafMoves, Spent, VenueAgrees, Accepted, WorkAfter,
         Ledger, OverlookedIn;
    AcceptanceIsPrefixClosed(w, items, rules, n);
    AcceptedBundleNeverSaturates(w, items[..n], rules, t);
    MirrorsNeverPart(w, items[..n]);
    var work, last := WorkAfter(w, items[..n]), items[n];
    MaxMattersToItsTokenOnly(last, Held(work, RepaidToken(last)), Ledger(w, items[..n], RepaidToken(last)), t);
    CheckBoundsSpending(work, last, t);
    assert items[..n + 1] == items[..n] + [last];
    OverlookedPush(items[..n], last, t);
  }

  /// In particular when no leaf takes the token without its being deducted.
  lemma AcceptedBundleIsCovered(w: Balances, items: seq<Item>, rules: Rules, t: Token, n: nat)
    requires Mirrored(w) && NonNegative(w) && Tracked(w, t) && t != Base(LST)
    requires AllVenuesAgree(items) && Accepted(w, items, rules) && n < |items|
    requires OverlookedIn(items[..n + 1], t) == 0
    ensures TrueSpending(w, items, n, t) <= TrueLedger(w, items[..n], t)
  {
    hide Mirrored, NonNegative, Tracked, OverlookedIn, TrueSpending, TrueLedger, LeftBy, Accepted, AllVenuesAgree;
    AcceptedBundleIsCoveredIff(w, items, rules, t, n);
  }

  /// `amount` USDC held, and two leaves that each take all of it for eUSD: accepted, and short by as much again.
  lemma TwoOverlookedLeavesTakeTwiceWhatIsHeld(w: Balances, amount: nat, rules: Rules)
    requires amount > 0 && Held(w, Stable(USDC)) == amount
    requires (forall balances :: rules.extra(Overlooked([Taking(Stable(USDC), amount, true)]), balances))
    requires rules.bundleFee == None
    requires rules.limits.defaultFee <= rules.limits.maxFee
    ensures var swap := Item(Overlooked([Taking(Stable(USDC), amount, true)]), "", None);
            Accepted(w, [swap, swap], rules) && WorkAfter(w, [swap, swap]) == w &&
            TrueLedger(w, [swap, swap], Stable(USDC)) + amount == 0
  {
    var swap := Item(Overlooked([Taking(Stable(USDC), amount, true)]), "", None);
    var t := Stable(USDC);
    assert [swap, swap] == [swap] + [swap] && [] + [swap] == [swap];
    OverlookedLeafChangesNothing(w, [], swap, t);
    OverlookedLeafChangesNothing(w, [swap], swap, t);
    assert [swap, swap][..1] == [swap] && [swap][..0] == [];
    assert Accepted(w, [], rules) && Accepted(w, [swap], rules);
    TakenOfOne(Taking(t, amount, true), t);
  }

  lemma OverlookedLeafChangesNothing(w: Balances, before: seq<Item>, item: Item, t: Token)
    requires item.leaf.Overlooked?
    ensures WorkAfter(w, before + [item]) == WorkAfter(w, before)
    ensures Ledger(w, before + [item], t) == Ledger(w, before, t)
    ensures OverlookedIn(before + [item], t) == OverlookedIn(before, t) + OverlookedBy(item.leaf, t)
  {
    var items := before + [item];
    assert items[..|items| - 1] == before;
    OverlookedPush(before, item, t);
  }

  // ---------------------------------------------------------------- what a stable swap credits

  lemma {:induction false} PowersAdd(a: nat, b: nat)
    ensures PowerOfTen(a + b) == Times(PowerOfTen(a), PowerOfTen(b))
  {
    if a > 0 {
      PowersAdd(a - 1, b);
      TimesAssoc(10, PowerOfTen(a - 1), PowerOfTen(b));
      assert PowerOfTen(a) == Times(10, PowerOfTen(a - 1));
    }
  }

  lemma TimesAssoc(a: nat, b: nat, c: nat)
    ensures Times(a, Times(b, c)) == Times(Times(a, b), c)
  {}

  lemma TimesMonotone(a: nat, b: nat, c: nat)
    requires c > 0
    ensures a <= b ==> Times(a, c) <= Times(b, c)
    ensures a < b ==> Times(a, c) < Times(b, c)
  {}

  lemma OverBounds(a: nat, d: nat)
    requires d > 0
    ensures Times(Over(a, d), d) <= a < Times(Over(a, d) + 1, d)
  {}

  /// Rescaled, an amount is worth the same dollars, less what does not make up one unit.
  lemma RescalingKeepsTheDollars(amount: nat, from: nat, to: nat)
    ensures var r := RescaleDecimals(amount, from, to);
            Times(r, PowerOfTen(from)) <= Times(amount, PowerOfTen(to)) < Times(r + 1, PowerOfTen(from))
    ensures from <= to ==> Times(RescaleDecimals(amount, from, to), PowerOfTen(from)) == Times(amount, PowerOfTen(to))
  {
    hide Times, Over, PowerOfTen;
    var r := RescaleDecimals(amount, from, to);
    if from <= to {
      if from < to {
        var up := to - from;
        PowersAdd(up, from);
        TimesAssoc(amount, PowerOfTen(up), PowerOfTen(from));
      }
      TimesMonotone(r, r + 1, PowerOfTen(from));
    } else {
      var down := from - to;
      PowersAdd(down, to);
      OverBounds(amount, PowerOfTen(down));
      TimesAssoc(r, PowerOfTen(down), PowerOfTen(to));
      TimesAssoc(r + 1, PowerOfTen(down), PowerOfTen(to));
      TimesMonotone(Times(r, PowerOfTen(down)), amount, PowerOfTen(to));
      TimesMonotone(amount, Times(r + 1, PowerOfTen(down)), PowerOfTen(to));
    }
  }

  /// A stable swap takes its input in full and credits the other stable with no more dollars than it took.
  lemma StableSwapCreditsItsWorth(market: StableMarket, sellsStable: bool, amountIn: nat, key: string, max: int)
    requires market.token != USDC
    ensures var moves := LeafMoves(StableSwap(Some(market), sellsStable, amountIn), key, max);
            var dollars, other := Stable(USDC), Stable(market.token);
            var source, target := if sellsStable then other else dollars, if sellsStable then dollars else other;
            var sourceUnit := PowerOfTen(DecimalsOf(market, source.address));
            var targetUnit := PowerOfTen(DecimalsOf(market, target.address));
            Spent(moves, source) == amountIn &&
            Spent(moves, target) == Credited(moves, source) == 0 <= Credited(moves, target) &&
            Times(Credited(moves, target), sourceUnit) <= Times(amountIn, targetUnit) <
              Times(Credited(moves, target) + 1, sourceUnit)
  {
    hide Times, PowerOfTen;
    var source, target := if sellsStable then market.token else USDC, if sellsStable then USDC else market.token;
    var amount := RescaleDecimals(amountIn, DecimalsOf(market, source), DecimalsOf(market, target));
    RescalingKeepsTheDollars(amountIn, DecimalsOf(market, source), DecimalsOf(market, target));
    var moves := LeafMoves(StableSwap(Some(market), sellsStable, amountIn), key, max);
    assert moves == [Spend(Stable(source), amountIn), Credit(Stable(target), amount)];
    assert moves[1..] == [Credit(Stable(target), amount)];
    OneCredit(Stable(target), amount, Stable(source));
    OneCredit(Stable(target), amount, Stable(target));
  }

  /// Between the six decimals of dollars and the eighteen of a stable: a million million to one.
  lemma DollarsToEighteenDecimals(amount: nat)
    ensures RescaleDecimals(amount, 6, 18) == amount * 1000000000000
    ensures RescaleDecimals(amount, 18, 6) == amount / 1000000000000
    ensures RescaleDecimals(amount, 6, 6) == amount
  {
    assert PowerOfTen(4) == 10000;
    PowersAdd(4, 4);
    PowersAdd(8, 4);
  }

  lemma OneCredit(token: Token, amount: nat, t: Token)
    ensures Spent([Credit(token, amount)], t) == 0
    ensures Credited([Credit(token, amount)], t) == if t == token then amount else 0
  {
    assert [Credit(token, amount)][1..] == [];
    assert Spent([], t) == Credited([], t) == 0;
  }

  // ---------------------------------------------------------------- exactly the covered bundles

  /// What the adapters ask of a leaf whatever the balances are.
  predicate WellFormed(leaf: Leaf) {
    match leaf
    case Swap(_, _, amountIn, _, _) => amountIn > 0
    case MintLiquidity(_, amountBase, amountQuote) => amountBase > 0 || amountQuote > 0
    case StableSwap(market, _, amountIn) => amountIn > 0 && market.Some?
    case LstDeposit(amount) => amount > 0
    case LstSwap(_, amount) => amount > 0
    case AaveSupply(_, amount) => amount > 0
    case AaveRepay(_, repaid) => repaid.Some? ==> repaid.value > 0
    case _ => true
  }

  /// Every token the leaf is checked for is one that spending is deducted from.
  ghost predicate SpendsTracked(w: Balances, item: Item) {
    (forall m <- LeafMoves(item.leaf, item.stableKey, 0) :: m.Spend? ==> Tracked(w, m.token) && m.token != Base(LST)) &&
    (item.leaf.Overlooked? ==>
       forall g <- item.leaf.takings :: g.checked ==> Tracked(w, g.token) && g.token != Base(LST))
  }

  /// What is deducted for the leaf, or what it is checked for, is on the ledger.
  ghost predicate SpendingCovered(w: Balances, before: seq<Item>, item: Item) {
    (forall m <- LedgerMoves(w, before, item) :: m.Spend? ==> m.amount <= Ledger(w, before, m.token)) &&
    (item.leaf.Overlooked? ==> forall g <- item.leaf.takings :: g.checked ==> g.amount <= Ledger(w, before, g.token))
  }

  /// Leaf by leaf: the fee fits, the leaf is well formed, its venue has nothing else against it, and what it is
  /// checked for is on the ledger of what is deducted.
  ghost predicate CoveredThroughout(w: Balances, items: seq<Item>, rules: Rules) {
    forall n: nat :: n < |items| ==> CoveredAt(w, items, rules, n)
  }

  ghost predicate CoveredAt(w: Balances, items: seq<Item>, rules: Rules, n: nat)
    requires n < |items|
  {
    FeeOf(items[n], rules) <= rules.limits.maxFee && WellFormed(items[n].leaf) &&
    rules.extra(items[n].leaf, WorkAfter(w, items[..n])) && SpendingCovered(w, items[..n], items[n])
  }

  lemma CheckIsCoverage(w: Balances, item: Item)
    requires SpendsTracked(w, item) && VenueAgrees(item)
    ensures BalanceCheck(w, item.leaf) <==>
            WellFormed(item.leaf) &&
            (forall m <- MovesAt(w, item) :: m.Spend? ==> m.amount <= Held(w, m.token)) &&
            (item.leaf.Overlooked? ==> forall g <- item.leaf.takings :: g.checked ==> g.amount <= Held(w, g.token))
  {
    var moves := MovesAt(w, item);
    assert |moves| > 0 ==> moves[0] in moves;
    assert |moves| > 1 ==> moves[1] in moves;
  }

  lemma MaxMattersToRepaymentsOnly(item: Item, m: int, n: int)
    requires item.leaf.AaveRepay? ==> m == n
    ensures LeafMoves(item.leaf, item.stableKey, m) == LeafMoves(item.leaf, item.stableKey, n)
  {}

  lemma MovesSpendTheSameTokens(item: Item, m: int, n: int)
    ensures forall x <- LeafMoves(item.leaf, item.stableKey, m) :: x.Spend? ==>
              exists y <- LeafMoves(item.leaf, item.stableKey, n) :: y.Spend? && y.token == x.token
  {
    var xs, ys := LeafMoves(item.leaf, item.stableKey, m), LeafMoves(item.leaf, item.stableKey, n);
    forall x | x in xs && x.Spend? ensures exists y <- ys :: y.Spend? && y.token == x.token {
      if x == xs[0] { assert ys[0] in ys; } else { assert ys[1] in ys; }
    }
  }

  lemma RepaidTokenIsTracked(w: Balances, item: Item)
    requires SpendsTracked(w, item) && item.leaf.AaveRepay?
    ensures Tracked(w, RepaidToken(item)) && RepaidToken(item) != Base(LST)
  {
    var moves := LeafMoves(item.leaf, item.stableKey, 0);
    assert moves[0] in moves;
  }

  /// One leaf after an accepted bundle: the balance check and the ledger say the same.
  lemma NextLeafIsAcceptedIffCovered(w: Balances, before: seq<Item>, item: Item, rules: Rules)
    requires Mirrored(w) && NonNegative(w) && AllVenuesAgree(before) && Accepted(w, before, rules)
    requires SpendsTracked(w, item) && VenueAgrees(item)
    ensures BalanceCheck(WorkAfter(w, before), item.leaf) <==> WellFormed(item.leaf) && SpendingCovered(w, before, item)
  {
    hide Mirrored, NonNegative, Held, BalanceCheck, LeafMoves, VenueAgrees, Accepted, WorkAfter, Ledger, Tracked,
         WellFormed, RepaidToken;
    var work := WorkAfter(w, before);
    MirrorsNeverPart(w, before);
    assert SpendsTracked(work, item);
    CheckIsCoverage(work, item);
    forall t | Tracked(w, t) && t != Base(LST) ensures Held(work, t) == Ledger(w, before, t) {
      AcceptedBundleNeverSaturates(w, before, rules, t);
    }
    if item.leaf.AaveRepay? { RepaidTokenIsTracked(w, item); }
    MaxMattersToRepaymentsOnly(item, Held(work, RepaidToken(item)), Ledger(w, before, RepaidToken(item)));
    MovesSpendTheSameTokens(item, Held(work, RepaidToken(item)), 0);
    assert forall m <- MovesAt(work, item) :: m.Spend? ==> Held(work, m.token) == Ledger(w, before, m.token);
  }

  /// When every token checked for is tracked, a bundle is accepted exactly when the ledger of what is deducted
  /// covers each leaf. Leaves the deduction overlooks are on that ledger only as far as they are checked.
  lemma {:induction false} AcceptedIffCovered(w: Balances, items: seq<Item>, rules: Rules)
    requires Mirrored(w) && NonNegative(w) && AllVenuesAgree(items) && forall item <- items :: SpendsTracked(w, item)
    ensures Accepted(w, items, rules) <==> CoveredThroughout(w, items, rules)
  {
    hide Mirrored, NonNegative, BalanceCheck, LeafMoves, VenueAgrees, WorkAfter, Ledger, WellFormed, SpendsTracked,
         SpendingCovered, CoveredAt;
    if items != [] {
      var n := |items| - 1;
      var front := items[..n];
      AcceptedIffCovered(w, front, rules);
      forall k: nat | k < n ensures CoveredAt(w, front, rules, k) == CoveredAt(w, items, rules, k) {
        CoveredAtLooksBack(w, items, rules, n, k);
      }
      if Accepted(w, front, rules) {
        NextLeafIsAcceptedIffCovered(w, front, items[n], rules);
        CoveredAtMeans(w, items, rules, n);
      } else {
        assert !CoveredThroughout(w, front, rules);
        var k: nat :| k < n && !CoveredAt(w, front, rules, k);
        assert !CoveredAt(w, items, rules, k);
      }
    }
  }

  lemma CoveredAtLooksBack(w: Balances, items: seq<Item>, rules: Rules, n: nat, k: nat)
    requires k < n <= |items|
    ensures CoveredAt(w, items[..n], rules, k) == CoveredAt(w, items, rules, k)
  {
    assert items[..n][..k] == items[..k];
  }

  lemma CoveredAtMeans(w: Balances, items: seq<Item>, rules: Rules, n: nat)
    requires n < |items|
    ensures CoveredAt(w, items, rules, n) <==>
            FeeOf(items[n], rules) <= rules.limits.maxFee && WellFormed(items[n].leaf) &&
            rules.extra(items[n].leaf, WorkAfter(w, items[..n])) && SpendingCovered(w, items[..n], items[n])
  {}

  // ---------------------------------------------------------------- what a leaf does to what is held

  /// Every token that spending is deducted from holds `out` less of the one, `in` more of the other, and else the same.
  ghost predicate Exchanged(w: Balances, w': Balances, source: Token, out: int, target: Token, into: int) {
    forall t :: Tracked(w, t) ==>
      Held(w', t) == Held(w, t) - (if t == source then out else 0) + (if t == target then into else 0)
  }

  ghost predicate Unchanged(w: Balances, w': Balances) { forall t :: Held(w', t) == Held(w, t) }

  lemma SpendLands(w: Balances, token: Token, amount: nat)
    requires Mirrored(w) && NonNegative(w) && (Tracked(w, token) ==> amount <= Held(w, token))
    ensures Exchanged(w, Moved(w, Spend(token, amount)), token, amount, token, 0)
    ensures Mirrored(Moved(w, Spend(token, amount))) && NonNegative(Moved(w, Spend(token, amount)))
    ensures forall t :: Tracked(w, t) ==> Tracked(Moved(w, Spend(token, amount)), t)
  {}

  lemma CreditLands(w: Balances, token: Token, amount: nat)
    requires Mirrored(w) && NonNegative(w) && Tracked(w, token)
    ensures Exchanged(w, Moved(w, Credit(token, amount)), token, 0, token, amount)
  {}

  lemma AppliedIs(w: Balances, item: Item)
    ensures var moves := MovesAt(w, item);
            |moves| <= 2 &&
            Applied(w, item) == if moves == [] then w else if |moves| == 1 then Moved(w, moves[0])
                                else Moved(Moved(w, moves[0]), moves[1])
  {
    AtMostTwoMoves(item, Held(w, RepaidToken(item)));
    MovesOneByOne(w, MovesAt(w, item));
  }

  /// A swap takes its input and gives what its venue's price makes of it, or nothing where there is no price.
  lemma SwapPaysAndReceives(w: Balances, item: Item)
    requires Mirrored(w) && NonNegative(w) && item.leaf.Swap?
    requires Tracked(w, Base(item.leaf.base)) && Tracked(w, Stable(item.stableKey))
    requires item.leaf.amountIn <= Held(w, if item.leaf.sellsBase then Base(item.leaf.base) else Stable(item.stableKey))
    ensures var base, stable := Base(item.leaf.base), Stable(item.stableKey);
            var received := if item.leaf.estimate.Some? then item.leaf.estimate.value else 0;
            if item.leaf.sellsBase then Exchanged(w, Applied(w, item), base, item.leaf.amountIn, stable, received)
            else Exchanged(w, Applied(w, item), stable, item.leaf.amountIn, base, received)
  {
    hide Mirrored, NonNegative, Tracked, Held, Moved;
    var leaf := item.leaf;
    var source := if leaf.sellsBase then Base(leaf.base) else Stable(item.stableKey);
    var target := if leaf.sellsBase then Stable(item.stableKey) else Base(leaf.base);
    AppliedIs(w, item);
    SpendLands(w, source, leaf.amountIn);
    if leaf.estimate.Some? { CreditLands(Moved(w, Spend(source, leaf.amountIn)), target, leaf.estimate.value); }
  }

  /// A base that the map has no entry for gets one with what was bought of it.
  lemma BoughtBaseIsTracked(w: Balances, item: Item)
    requires item.leaf.Swap? && !item.leaf.sellsBase && item.leaf.estimate.Some?
    requires w.bases.Some? && item.leaf.base !in w.bases.value
    ensures Tracked(Applied(w, item), Base(item.leaf.base))
    ensures Held(Applied(w, item), Base(item.leaf.base)) == item.leaf.estimate.value
  {
    AppliedIs(w, item);
  }

  /// A stable swap takes its input and gives the other stable, rescaled to its decimals.
  lemma StableSwapPaysAndReceives(w: Balances, item: Item)
    requires Mirrored(w) && NonNegative(w) && item.leaf.StableSwap? && item.leaf.market.Some?
    requires var market := item.leaf.market.value;
             market.token != USDC && Tracked(w, Stable(market.token)) &&
             item.leaf.amountIn <= Held(w, Stable(if item.leaf.sellsStable then market.token else USDC))
    ensures var market, amount := item.leaf.market.value, item.leaf.amountIn;
            var dollars, other := Stable(USDC), Stable(market.token);
            if item.leaf.sellsStable
            then Exchanged(w, Applied(w, item), other, amount, dollars, RescaleDecimals(amount, market.decimals, 6))
            else Exchanged(w, Applied(w, item), dollars, amount, other, RescaleDecimals(amount, 6, market.decimals))
  {
    var market, leaf := item.leaf.market.value, item.leaf;
    var source := Stable(if leaf.sellsStable then market.token else USDC);
    var target := Stable(if leaf.sellsStable then USDC else market.token);
    assert Tracked(w, Stable(USDC));
    hide Mirrored, NonNegative, Tracked, Held, Moved, RescaleDecimals;
    AppliedIs(w, item);
    SpendLands(w, source, leaf.amountIn);
    var received := if leaf.sellsStable then RescaleDecimals(leaf.amountIn, market.decimals, 6)
                    else RescaleDecimals(leaf.amountIn, 6, market.decimals);
    CreditLands(Moved(w, Spend(source, leaf.amountIn)), target, received);
  }

  /// Minting liquidity takes both its amounts.
  lemma MintPaysBoth(w: Balances, item: Item)
    requires Mirrored(w) && NonNegative(w) && item.leaf.MintLiquidity?
    requires item.leaf.amountBase <= Held(w, Base(item.leaf.base))
    requires item.leaf.amountQuote <= Held(w, Stable(item.stableKey))
    ensures forall t :: Tracked(w, t) ==>
              Held(Applied(w, item), t) ==
                Held(w, t) - (if t == Base(item.leaf.base) then item.leaf.amountBase else 0) -
                (if t == Stable(item.stableKey) then item.leaf.amountQuote else 0)
  {
    AppliedIs(w, item);
    var first := Spend(Base(item.leaf.base), item.leaf.amountBase);
    assert Held(Moved(w, first), Stable(item.stableKey)) == Held(w, Stable(item.stableKey));
    hide Mirrored, NonNegative, Tracked, Held, Moved;
    SpendLands(w, first.token, first.amount);
    SpendLands(Moved(w, first), Stable(item.stableKey), item.leaf.amountQuote);
  }

  /// A deposit of WETH, or its sale, for the LST takes it; a sale of the LST, a Liquity or lending leaf and the
  /// leaves that take nothing leave everything as it is.
  lemma OtherLeavesPay(w: Balances, item: Item)
    requires Mirrored(w) && NonNegative(w)
    ensures item.leaf.LstDeposit? && item.leaf.amount <= Held(w, Base(WETH)) ==>
              Exchanged(w, Applied(w, item), Base(WETH), item.leaf.amount, Base(WETH), 0)
    ensures item.leaf.LstSwap? && item.leaf.fromWeth && item.leaf.amount <= Held(w, Base(WETH)) ==>
              Exchanged(w, Applied(w, item), Base(WETH), item.leaf.amount, Base(WETH), 0)
    ensures ((item.leaf.LstSwap? && !item.leaf.fromWeth) || item.leaf.Overlooked? || item.leaf.Other? ||
             (item.leaf.StableSwap? && item.leaf.market.None?)) ==> Unchanged(w, Applied(w, item))
  {
    hide Mirrored, NonNegative, Tracked, Held, Moved;
    AppliedIs(w, item);
    var takes := item.leaf.LstDeposit? || (item.leaf.LstSwap? && item.leaf.fromWeth);
    if takes && item.leaf.amount <= Held(w, Base(WETH)) {
      SpendLands(w, Base(WETH), item.leaf.amount);
    }
  }

  /// Supplying or repaying an amount takes it; repaying "max" takes all there is.
  lemma AaveLeavesPay(w: Balances, item: Item)
    requires Mirrored(w) && NonNegative(w) && (item.leaf.AaveSupply? || item.leaf.AaveRepay?)
    ensures var token := match item.leaf.asset case Settlement => Stable(item.stableKey) case Collateral(b) => Base(b);
            item.leaf.AaveSupply? && item.leaf.amount <= Held(w, token) ==>
              Exchanged(w, Applied(w, item), token, item.leaf.amount, token, 0)
    ensures var token := match item.leaf.asset case Settlement => Stable(item.stableKey) case Collateral(b) => Base(b);
            item.leaf.AaveRepay? && item.leaf.repaid.Some? && item.leaf.repaid.value <= Held(w, token) ==>
              Exchanged(w, Applied(w, item), token, item.leaf.repaid.value, token, 0)
    ensures var token := match item.leaf.asset case Settlement => Stable(item.stableKey) case Collateral(b) => Base(b);
            item.leaf.AaveRepay? && item.leaf.repaid.None? && Tracked(w, token) ==>
              Held(Applied(w, item), token) == 0 && Exchanged(w, Applied(w, item), token, Held(w, token), token, 0)
  {
    var token := AssetToken(item.leaf.asset, item.stableKey);
    HeldIsNonNegative(w, token);
    hide Mirrored, NonNegative, Tracked, Held, Moved;
    AppliedIs(w, item);
    var amount := if item.leaf.AaveSupply? then item.leaf.amount
                  else if item.leaf.repaid.Some? then item.leaf.repaid.value else Held(w, token);
    if amount <= Held(w, token) { SpendLands(w, token, amount); }
  }

  /**
   The bundle the credit is there for: buying a base and selling what the estimate makes of it is accepted when the
   stable for the first leg is held, however little of the base is.
   */
  lemma BuyThenSellIsAccepted(w: Balances, base: string, stable: string, amount: nat, received: nat, back: Option<nat>,
                              feeOut: Option<int>, feeBack: Option<int>, rules: Rules)
    requires Mirrored(w) && NonNegative(w) && Tracked(w, Base(base)) && Tracked(w, Stable(stable))
    requires 0 < amount <= Held(w, Stable(stable)) && received > 0
    requires var buy, sell := Item(Swap(base, false, amount, stable, Some(received)), stable, feeOut),
                              Item(Swap(base, true, received, stable, back), stable, feeBack);
             (forall item <- [buy, sell] :: FeeOf(item, rules) <= rules.limits.maxFee) &&
             forall item <- [buy, sell], balances :: rules.extra(item.leaf, balances)
    ensures var buy, sell := Item(Swap(base, false, amount, stable, Some(received)), stable, feeOut),
                             Item(Swap(base, true, received, stable, back), stable, feeBack);
            Accepted(w, [buy, sell], rules)
  {
    var buy, sell := Item(Swap(base, false, amount, stable, Some(received)), stable, feeOut),
                     Item(Swap(base, true, received, stable, back), stable, feeBack);
    SwapPaysAndReceives(w, buy);
    HeldIsNonNegative(w, Base(base));
    assert buy in [buy, sell] && sell in [buy, sell];
    assert [buy, sell][..1] == [buy] && [buy][..0] == [];
    hide Mirrored, NonNegative, Tracked, Held, Applied, FeeOf;
    assert WorkAfter(w, [buy]) == Applied(w, buy) by { assert WorkAfter(w, []) == w; }
    assert Acceptable(w, buy, rules) && Acceptable(Applied(w, buy), sell, rules);
    assert Accepted(w, [], rules);
    assert Accepted(w, [buy], rules);
  }

  /// A leaf of nothing is refused, whatever is held.
  lemma NothingIsRefused(w: Balances, base: string, key: string, estimate: Option<nat>, market: Option<StableMarket>,
                         side: bool, asset: Asset)
    ensures !BalanceCheck(w, Swap(base, side, 0, key, estimate)) && !BalanceCheck(w, MintLiquidity(base, 0, 0)) &&
            !BalanceCheck(w, StableSwap(market, side, 0)) && !BalanceCheck(w, LstDeposit(0)) &&
            !BalanceCheck(w, LstSwap(side, 0)) && !BalanceCheck(w, AaveSupply(asset, 0)) &&
            !BalanceCheck(w, AaveRepay(asset, Some(0)))
  {}

  // ---------------------------------------------------------------- where spending is forgotten

  /// The same leaf over and over, as a bundle that supplies `amount` of a base to Aave `n` times.
  function Supplies(base: string, amount: nat, n: nat): (items: seq<Item>)
    ensures |items| == n
    ensures forall item <- items :: item == Item(AaveSupply(Collateral(base), amount), USDC, None)
  {
    seq(n, _ => Item(AaveSupply(Collateral(base), amount), USDC, None))
  }

  lemma OneSupply(w: Balances, base: string, amount: nat)
    ensures Applied(w, Item(AaveSupply(Collateral(base), amount), USDC, None)) == Moved(w, Spend(Base(base), amount))
  {
    var m := Spend(Base(base), amount);
    assert [m][1..] == [];
    assert MovedAll(w, [m]) == MovedAll(Moved(w, m), []);
  }

  /// A tracked base runs out: the bundle is accepted exactly when all the supplies together are held.
  lemma {:induction false} TrackedSuppliesRunOut(w: Balances, base: string, amount: nat, n: nat, rules: Rules)
    requires Mirrored(w) && NonNegative(w) && Tracked(w, Base(base)) && base != LST && amount > 0
    requires (forall balances :: rules.extra(AaveSupply(Collateral(base), amount), balances)) && rules.bundleFee == None
    requires rules.limits.defaultFee <= rules.limits.maxFee
    ensures Accepted(w, Supplies(base, amount, n), rules) <==> n * amount <= Held(w, Base(base))
    ensures n * amount <= Held(w, Base(base)) ==>
              Held(WorkAfter(w, Supplies(base, amount, n)), Base(base)) == Held(w, Base(base)) - n * amount
  {
    hide Mirrored, NonNegative, Tracked, Held, Moved, Applied, Acceptable, Supplies;
    var t := Base(base);
    if n == 0 {
      HeldIsNonNegative(w, t);
    } else {
      var before, m := Supplies(base, amount, n - 1), Spend(t, amount);
      var work := WorkAfter(w, before);
      TrackedSuppliesRunOut(w, base, amount, n - 1, rules);
      SuppliesGrow(base, amount, n);
      MirrorsNeverPart(w, before);
      OneSupply(work, base, amount);
      OneSupplyIsAcceptable(work, base, amount, rules);
      if amount <= Held(work, t) { MoveIsExact(work, m, t); }
      assert (n - 1) * amount + amount == n * amount;
    }
  }

  lemma SuppliesGrow(base: string, amount: nat, n: nat)
    requires n > 0
    ensures var items := Supplies(base, amount, n);
            items[..n - 1] == Supplies(base, amount, n - 1) &&
            items[n - 1] == Item(AaveSupply(Collateral(base), amount), USDC, None)
  {}

  lemma OneSupplyIsAcceptable(w: Balances, base: string, amount: nat, rules: Rules)
    requires (forall balances :: rules.extra(AaveSupply(Collateral(base), amount), balances)) && rules.bundleFee == None
    requires rules.limits.defaultFee <= rules.limits.maxFee && base != LST && amount > 0
    ensures Acceptable(w, Item(AaveSupply(Collateral(base), amount), USDC, None), rules) <==>
            amount <= Held(w, Base(base))
  {}

  /// A base with no entry of its own is checked against WETH and never deducted: any number of supplies pass.
  lemma {:induction false} UntrackedSuppliesNeverRunOut(w: Balances, base: string, amount: nat, n: nat, rules: Rules)
    requires !Tracked(w, Base(base)) && base != LST && amount > 0
    requires (forall balances :: rules.extra(AaveSupply(Collateral(base), amount), balances)) && rules.bundleFee == None
    requires rules.limits.defaultFee <= rules.limits.maxFee
    ensures WorkAfter(w, Supplies(base, amount, n)) == w
    ensures Accepted(w, Supplies(base, amount, n), rules) <==> n == 0 || amount <= w.wethWei
  {
    if n > 0 {
      UntrackedSuppliesNeverRunOut(w, base, amount, n - 1, rules);
      OneSupply(w, base, amount);
      assert Supplies(base, amount, n)[..n - 1] == Supplies(base, amount, n - 1);
    }
  }

  /// The same leaf over and over: `amount` of a stable paid for a base.
  function Buys(base: string, stable: string, amount: nat, estimate: Option<nat>, n: nat): (items: seq<Item>)
    ensures |items| == n
    ensures forall item <- items :: item == Item(Swap(base, false, amount, stable, estimate), stable, None)
  {
    seq(n, _ => Item(Swap(base, false, amount, stable, estimate), stable, None))
  }

  lemma OneBuy(w: Balances, base: string, stable: string, amount: nat, estimate: Option<nat>, rules: Rules)
    requires !Tracked(w, Stable(stable)) && amount > 0
    requires (forall balances :: rules.extra(Swap(base, false, amount, stable, estimate), balances))
    requires rules.bundleFee == None
    requires rules.limits.defaultFee <= rules.limits.maxFee
    ensures var item := Item(Swap(base, false, amount, stable, estimate), stable, None);
            Applied(w, item).usdcUnits == w.usdcUnits && Applied(w, item).stables == w.stables &&
            (Acceptable(w, item, rules) <==> amount <= w.usdcUnits)
  {
    var item := Item(Swap(base, false, amount, stable, estimate), stable, None);
    MovesOneByOne(w, MovesAt(w, item));
  }

  /// A stable with no entry of its own is checked against USDC and never deducted: any number of buys pass.
  lemma {:induction false} UntrackedStablesNeverRunOut(
      w: Balances, base: string, stable: string, amount: nat, estimate: Option<nat>, n: nat, rules: Rules)
    requires !Tracked(w, Stable(stable)) && amount > 0
    requires (forall balances :: rules.extra(Swap(base, false, amount, stable, estimate), balances))
    requires rules.bundleFee == None
    requires rules.limits.defaultFee <= rules.limits.maxFee
    ensures var items := Buys(base, stable, amount, estimate, n);
            WorkAfter(w, items).usdcUnits == w.usdcUnits && WorkAfter(w, items).stables == w.stables &&
            (Accepted(w, items, rules) <==> n == 0 || amount <= w.usdcUnits)
  {
    hide Applied, Acceptable;
    if n > 0 {
      var items, before := Buys(base, stable, amount, estimate, n), Buys(base, stable, amount, estimate, n - 1);
      UntrackedStablesNeverRunOut(w, base, stable, amount, estimate, n - 1, rules);
      assert items[..n - 1] == before;
      OneBuy(WorkAfter(w, before), base, stable, amount, estimate, rules);
    }
  }

  lemma RefusedLeafRefusesTheBundle(w: Balances, items: seq<Item>, rules: Rules, n: nat)
    requires n < |items| && !Acceptable(WorkAfter(w, items[..n]), items[n], rules)
    ensures !Accepted(w, items, rules)
  {
    hide Acceptable, WorkAfter;
    if Accepted(w, items, rules) { AcceptanceIsPrefixClosed(w, items, rules, n); }
  }

  // ---------------------------------------------------------------- the working balance

  class Holdings {
    var of: map<string, int>

    constructor (entries: map<string, int>)
      ensures of == entries
    {
      of := entries;
    }
  }

  class Snapshot {
    var ethWei: int
    var wethWei: int
    var usdcUnits: int
    var bases: Holdings?
    var stables: Holdings?

    ghost predicate Valid()
      reads this
    {
      bases != null ==> bases != stables
    }

    function Value(): Balances
      reads this, bases, stables
    {
      Balances(ethWei, wethWei, usdcUnits, if bases == null then None else Some(bases.of),
               if stables == null then None else Some(stables.of))
    }

    /// A copy to work on: the entries are copied too, and a missing map of stables becomes an empty one.
    constructor CopyOf(balances: Snapshot)
      ensures Valid() && (bases != null ==> fresh(bases)) && stables != null && fresh(stables) &&
              Value() == WorkOf(balances.Value())
      ensures bases == null <==> balances.bases == null
      ensures bases != null ==> bases.of == balances.bases.of
      ensures stables.of == if balances.stables == null then map[] else balances.stables.of
    {
      ethWei, wethWei, usdcUnits := balances.ethWei, balances.wethWei, balances.usdcUnits;
      stables := new Holdings(if balances.stables == null then map[] else balances.stables.of);
      if balances.bases == null {
        bases := null;
      } else {
        bases := new Holdings(balances.bases.of);
      }
    }

    method SpendBase(symbol: string, amount: int)
      requires Valid()
      modifies this`wethWei, bases
      ensures Valid() && Value() == Moved(old(Value()), Spend(Base(symbol), amount))
    {
      if symbol == WETH { wethWei := Less(wethWei, amount); }
      if bases != null && symbol in bases.of {
        bases.of := bases.of[symbol := Less(bases.of[symbol], amount)];
      }
    }

    method CreditBase(symbol: string, amount: int)
      requires Valid()
      modifies this`wethWei, bases
      ensures Valid() && Value() == Moved(old(Value()), Credit(Base(symbol), amount))
    {
      if symbol == WETH { wethWei := wethWei + amount; }
      if bases != null {
        bases.of := bases.of[symbol := (if symbol in bases.of then bases.of[symbol] else 0) + amount];
      }
    }

    method SpendStable(key: string, amount: int)
      requires Valid()
      modifies this`usdcUnits, stables
      ensures Valid() && Value() == Moved(old(Value()), Spend(Stable(key), amount))
    {
      if key == USDC { usdcUnits := Less(usdcUnits, amount); }
      if stables != null && key in stables.of {
        stables.of := stables.of[key := Less(stables.of[key], amount)];
      }
    }

    method CreditStable(key: string, amount: int)
      requires Valid()
      modifies this`usdcUnits, stables
      ensures Valid() && Value() == Moved(old(Value()), Credit(Stable(key), amount))
    {
      if key == USDC { usdcUnits := usdcUnits + amount; }
      if stables != null && key in stables.of {
        stables.of := stables.of[key := stables.of[key] + amount];
      }
    }

    /// A signed move; while nothing held is negative it is a spend or a credit.
    method MoveStable(key: string, delta: int)
      requires Valid() && NonNegative(Value())
      modifies this`usdcUnits, stables
      ensures Valid()
      ensures delta <= 0 ==> Value() == Moved(old(Value()), Spend(Stable(key), -delta))
      ensures delta >= 0 ==> Value() == Moved(old(Value()), Credit(Stable(key), delta))
    {
      if key == USDC { usdcUnits := Max(usdcUnits + delta, 0); }
      if stables != null && key in stables.of {
        stables.of := stables.of[key := Max(stables.of[key] + delta, 0)];
      }
    }

    method SpendAsset(asset: Asset, stableKey: string, amount: int)
      requires Valid()
      modifies this`wethWei, this`usdcUnits, bases, stables
      ensures Valid() && Value() == Moved(old(Value()), Spend(AssetToken(asset, stableKey), amount))
    {
      match asset
      case Settlement => SpendStable(stableKey, amount);
      case Collateral(symbol) => SpendBase(symbol, amount);
    }

    method ApplyLeafSpend(item: Item)
      requires Valid() && NonNegative(Value())
      modifies this`wethWei, this`usdcUnits, bases, stables
      ensures Valid() && Value() == Applied(old(Value()), item)
    {
      hide Moved, MovedAll, NonNegative, Held;
      ghost var was := Value();
      MovesOneByOne(was, MovesAt(was, item));
      var stableKey := item.stableKey;
      match item.leaf
      case Swap(base, sellsBase, amountIn, _, estimate) =>
        if sellsBase {
          SpendBase(base, amountIn);
          if estimate.Some? { CreditStable(stableKey, estimate.value); }
        } else {
          SpendStable(stableKey, amountIn);
          if estimate.Some? { CreditBase(base, estimate.value); }
        }
      case MintLiquidity(base, amountBase, amountQuote) =>
        SpendBase(base, amountBase);
        SpendStable(stableKey, amountQuote);
      case StableSwap(market, sellsStable, amountIn) =>
        if market.Some? {
          var source := if sellsStable then market.value.token else USDC;
          var target := if sellsStable then USDC else market.value.token;
          MoveKeepsNonNegative(was, Spend(Stable(source), amountIn));
          var delta: int := amountIn;
          MoveStable(source, -delta);
          MoveStable(target, RescaleDecimals(amountIn, DecimalsOf(market.value, source),
                                             DecimalsOf(market.value, target)));
        }
      case LstDeposit(amount) => SpendBase(WETH, amount);
      case LstSwap(fromWeth, amount) => if fromWeth { SpendBase(WETH, amount); }
      case AaveSupply(asset, amount) => SpendAsset(asset, stableKey, amount);
      case AaveRepay(asset, repaid) =>
        SpendAsset(asset, stableKey,
                   if repaid.Some? then repaid.value else Held(Value(), AssetToken(asset, stableKey)));
      case Overlooked(_) =>
      case Other =>
    }
  }

  lemma MovesOneByOne(w: Balances, moves: seq<Move>)
    requires |moves| <= 2
    ensures MovedAll(w, moves) ==
            if moves == [] then w else if |moves| == 1 then Moved(w, moves[0]) else Moved(Moved(w, moves[0]), moves[1])
  {
    if |moves| == 2 {
      var after := Moved(Moved(w, moves[0]), moves[1]);
      assert MovedAll(after, moves[1..][1..]) == after;
    }
  }

  function WorkOf(w: Balances): Balances {
    w.(stables := if w.stables.None? then Some(map[]) else w.stables)
  }

  /// The copy holds of every token what the caller's snapshot holds, and deducts from the same.
  lemma CopyReadsTheSame(w: Balances)
    ensures forall t :: Held(WorkOf(w), t) == Held(w, t) && Tracked(WorkOf(w), t) == Tracked(w, t)
    ensures WorkOf(w).ethWei == w.ethWei && WorkOf(w).wethWei == w.wethWei && WorkOf(w).usdcUnits == w.usdcUnits
  {}

  lemma CopyIsNonNegative(w: Balances)
    requires NonNegative(w)
    ensures NonNegative(WorkOf(w)) && (Mirrored(w) ==> Mirrored(WorkOf(w)))
  {}

  lemma AcceptableFits(w: Balances, item: Item, rules: Rules)
    requires Acceptable(w, item, rules)
    ensures FeeOf(item, rules) <= rules.limits.maxFee
  {}

  datatype Intent = Intent(leaf: Leaf, fee: int, index: nat)

  datatype Verdict = Valid(intents: seq<Intent>) | FeeTooHigh | LeafRefused(index: nat)

  /// The bundle is valid exactly when accepted; a refusal names the first leaf not acceptable. The caller's
  /// snapshot is not among what the method may change.
  method ValidateLeafItems(items: seq<Item>, balances: Snapshot, rules: Rules) returns (verdict: Verdict)
    requires NonNegative(balances.Value())
    ensures verdict.FeeTooHigh? <==> rules.bundleFee.Some? && rules.bundleFee.value > rules.limits.maxFee
    ensures !verdict.FeeTooHigh? ==> (verdict.Valid? <==> Accepted(WorkOf(balances.Value()), items, rules))
    ensures verdict.Valid? ==> |verdict.intents| == |items|
    ensures verdict.Valid? ==> forall i :: 0 <= i < |items| ==>
              verdict.intents[i] == Intent(items[i].leaf, FeeOf(items[i], rules), i)
    ensures verdict.Valid? ==> forall i :: 0 <= i < |items| ==>
              verdict.intents[i].fee <= rules.limits.maxFee &&
              verdict.intents[i].fee == (match (rules.bundleFee, items[i].fee)
                                         case (Some(fee), _) => fee
                                         case (None, Some(own)) => own
                                         case (None, None) => rules.limits.defaultFee)
    ensures verdict.LeafRefused? ==>
              verdict.index < |items| && Accepted(WorkOf(balances.Value()), items[..verdict.index], rules) &&
              !Acceptable(WorkAfter(WorkOf(balances.Value()), items[..verdict.index]), items[verdict.index], rules)
  {
    hide Acceptable, Applied, NonNegative;
    if rules.bundleFee.Some? && rules.bundleFee.value > rules.limits.maxFee { return FeeTooHigh; }
    ghost var start := WorkOf(balances.Value());
    CopyIsNonNegative(balances.Value());
    var work := new Snapshot.CopyOf(balances);
    var intents := [];
    for i := 0 to |items|
      invariant work.Valid() && fresh(work) && (work.bases != null ==> fresh(work.bases)) &&
                (work.stables != null ==> fresh(work.stables))
      invariant work.Value() == WorkAfter(start, items[..i]) && NonNegative(work.Value())
      invariant Accepted(start, items[..i], rules)
      invariant |intents| == i
      invariant forall k :: 0 <= k < i ==> intents[k] == Intent(items[k].leaf, FeeOf(items[k], rules), k)
      invariant forall k :: 0 <= k < i ==> intents[k].fee <= rules.limits.maxFee
    {
      assert items[..i + 1][..i] == items[..i];
      if !Acceptable(work.Value(), items[i], rules) {
        RefusedLeafRefusesTheBundle(start, items, rules, i);
        return LeafRefused(i);
      }
      AcceptableFits(work.Value(), items[i], rules);
      LeafKeepsNonNegative(work.Value(), items[i]);
      work.ApplyLeafSpend(items[i]);
      intents := intents + [Intent(items[i].leaf, FeeOf(items[i], rules), i)];
    }
    assert items[..|items|] == items;
    return Valid(intents);
  }
}
