/**
 Who took out of a contract what who else put in (core/src/rosterTransfers.ts): nets per agent, and each
 taker's amount attributed to the putters in proportion to what they put.
 */
module RosterPairs {
  import opened Basics
  import opened ProRata

  type Agent = string

  /// An agent and what it put in, or took out.
  datatype Side = Side(agent: Agent, amount: nat)

  datatype Pair = Pair(from: Agent, to: Agent, amount: nat)

  function Amounts(sides: seq<Side>): seq<nat> {
    seq(|sides|, k requires 0 <= k < |sides| => sides[k].amount)
  }

  function Total(sides: seq<Side>): nat { Sum(Amounts(sides)) }

  ghost predicate OncePerAgent(sides: seq<Side>) {
    forall i, j :: 0 <= i < j < |sides| ==> sides[i].agent != sides[j].agent
  }

  /// What of one taker's amount is attributed to one putter: its share, at most what it put, and nothing
  /// between an agent and itself.
  function Attributed(put: Side, take: Side, total: nat): nat
    requires total > 0
  {
    if put.agent == take.agent then 0 else Min(Share(take.amount, put.amount, total), put.amount)
  }

  function PairOf(put: Side, take: Side, total: nat): seq<Pair>
    requires total > 0
  {
    var amount := Attributed(put, take, total);
    if amount == 0 then [] else [Pair(put.agent, take.agent, amount)]
  }

  function PairsOfTaker(puts: seq<Side>, take: Side, total: nat): seq<Pair>
    requires total > 0
  {
    if puts == [] then [] else PairOf(puts[0], take, total) + PairsOfTaker(puts[1..], take, total)
  }

  function PairsOf(puts: seq<Side>, takes: seq<Side>, total: nat): seq<Pair>
    requires total > 0
  {
    if takes == [] then [] else PairsOfTaker(puts, takes[0], total) + PairsOf(puts, takes[1..], total)
  }

  function Pairs(puts: seq<Side>, takes: seq<Side>): seq<Pair> {
    if Total(puts) == 0 then [] else PairsOf(puts, takes, Total(puts))
  }

  method ProRataPairs(puts: seq<Side>, takes: seq<Side>) returns (out: seq<Pair>)
    ensures out == Pairs(puts, takes)
  {
    var total := 0;
    for i := |puts| downto 0
      invariant total == Total(puts[i..])
    {
      assert Amounts(puts[i..]) == [puts[i].amount] + Amounts(puts[i + 1..]);
      assert Amounts(puts[i..])[1..] == Amounts(puts[i + 1..]);
      total := puts[i].amount + total;
    }
    assert puts[0..] == puts;
    if total <= 0 { return []; }
    out := [];
    assert takes[0..] == takes;
    for t := 0 to |takes|
      invariant out + PairsOf(puts, takes[t..], total) == PairsOf(puts, takes, total)
    {
      assert takes[t..][1..] == takes[t + 1..];
      Assoc(out, PairsOfTaker(puts, takes[t], total), PairsOf(puts, takes[t + 1..], total));
      ghost var before := out;
      Units(out);
      for p := 0 to |puts|
        invariant out + PairsOfTaker(puts[p..], takes[t], total) == before + PairsOfTaker(puts, takes[t], total)
      {
        assert puts[p..][1..] == puts[p + 1..];
        Assoc(out, PairOf(puts[p], takes[t], total), PairsOfTaker(puts[p + 1..], takes[t], total));
        Units(out);
        if puts[p].agent != takes[t].agent {
          var amount := takes[t].amount * puts[p].amount / total;
          if amount > puts[p].amount { amount := puts[p].amount; }
          if amount > 0 { out := out + [Pair(puts[p].agent, takes[t].agent, amount)]; }
        }
      }
      Units(out);
    }
    Units(out);
  }

  // ---------------------------------------------------------------- what the pairs add up to

  /// What the pairs attribute to one taker.
  function TakenBy(pairs: seq<Pair>, taker: Agent): nat {
    if pairs == [] then 0 else (if pairs[0].to == taker then pairs[0].amount else 0) + TakenBy(pairs[1..], taker)
  }

  /// What the pairs attribute to one putter.
  function PutBy(pairs: seq<Pair>, putter: Agent): nat {
    if pairs == [] then 0 else (if pairs[0].from == putter then pairs[0].amount else 0) + PutBy(pairs[1..], putter)
  }

  lemma {:induction false} ByConcat(a: seq<Pair>, b: seq<Pair>, who: Agent)
    ensures TakenBy(a + b, who) == TakenBy(a, who) + TakenBy(b, who)
    ensures PutBy(a + b, who) == PutBy(a, who) + PutBy(b, who)
  {
    if a == [] {
      Units(b);
    } else {
      assert (a + b)[0] == a[0] && (a + b)[1..] == a[1..] + b;
      ByConcat(a[1..], b, who);
    }
  }

  lemma ByOne(put: Side, take: Side, total: nat, who: Agent)
    requires total > 0
    ensures TakenBy(PairOf(put, take, total), who) == if take.agent == who then Attributed(put, take, total) else 0
    ensures PutBy(PairOf(put, take, total), who) == if put.agent == who then Attributed(put, take, total) else 0
  {
    var out := PairOf(put, take, total);
    if out != [] { assert out[1..] == []; }
  }

  /// One taker's pairs are the other putters' shares of what it took, the take capped.
  lemma {:induction false} TakerShares(puts: seq<Side>, take: Side, total: nat)
    requires total > 0
    ensures TakenBy(PairsOfTaker(puts, take, total), take.agent) ==
              Sum(Shares(Amounts(Others(puts, take.agent)), Min(take.amount, total), total))
  {
    hide Share, Attributed, PairOf, TakenBy;
    if puts != [] {
      var rest, others := puts[1..], Others(puts[1..], take.agent);
      TakerShares(rest, take, total);
      ByConcat(PairOf(puts[0], take, total), PairsOfTaker(rest, take, total), take.agent);
      ByOne(puts[0], take, total, take.agent);
      if puts[0].agent == take.agent {
        OwnPairIsNothing(puts[0], take, total);
        Units(others);
      } else {
        AttributedIsCappedShare(puts[0], take, total);
        ShareCommutes(puts[0].amount, Min(take.amount, total), total);
        OneMorePart(puts[0], others, Min(take.amount, total), total);
      }
    } else {
      NoPairsNothingTaken(take.agent);
    }
  }

  lemma OneMorePart(put: Side, others: seq<Side>, amount: nat, total: nat)
    requires total > 0
    ensures Sum(Shares(Amounts([put] + others), amount, total)) ==
              Share(put.amount, amount, total) + Sum(Shares(Amounts(others), amount, total))
  {
    hide Share;
    var puts := [put] + others;
    assert Amounts(puts)[1..] == Amounts(others);
    assert Shares(Amounts(puts), amount, total)[1..] == Shares(Amounts(others), amount, total);
  }

  lemma NoPairsNothingTaken(who: Agent)
    ensures TakenBy([], who) == 0
  {}

  lemma ShareCommutes(a: nat, b: nat, whole: nat)
    requires whole > 0
    ensures Share(a, b, whole) == Share(b, a, whole)
  {
    assert a * b == b * a;
  }

  lemma ShareAtMostPart(part: nat, amount: nat, whole: nat)
    requires whole > 0 && amount <= whole
    ensures Share(part, amount, whole) <= part
  {
    ShareBounds(part, amount, whole);
    Order(amount, whole, part);
    Order(part, Share(part, amount, whole), whole);
    assert part * amount == amount * part && part * whole == whole * part;
  }

  lemma {:induction false} OtherTakersTakeNothing(puts: seq<Side>, take: Side, total: nat, who: Agent)
    requires total > 0 && who != take.agent
    ensures TakenBy(PairsOfTaker(puts, take, total), who) == 0
  {
    if puts != [] {
      OtherTakersTakeNothing(puts[1..], take, total, who);
      ByConcat(PairOf(puts[0], take, total), PairsOfTaker(puts[1..], take, total), who);
      ByOne(puts[0], take, total, who);
    }
  }

  lemma {:induction false} TakenIsTheTakersOwn(puts: seq<Side>, takes: seq<Side>, total: nat, t: nat)
    requires total > 0 && OncePerAgent(takes) && t < |takes|
    ensures TakenBy(PairsOf(puts, takes, total), takes[t].agent) ==
              TakenBy(PairsOfTaker(puts, takes[t], total), takes[t].agent)
  {
    ByConcat(PairsOfTaker(puts, takes[0], total), PairsOf(puts, takes[1..], total), takes[t].agent);
    if t == 0 {
      AbsentTakesNothing(puts, takes[1..], total, takes[0].agent);
    } else {
      OtherTakersTakeNothing(puts, takes[0], total, takes[t].agent);
      TakenIsTheTakersOwn(puts, takes[1..], total, t - 1);
    }
  }

  lemma {:induction false} AbsentTakesNothing(puts: seq<Side>, takes: seq<Side>, total: nat, who: Agent)
    requires total > 0 && forall k :: 0 <= k < |takes| ==> takes[k].agent != who
    ensures TakenBy(PairsOf(puts, takes, total), who) == 0
  {
    if takes != [] {
      ByConcat(PairsOfTaker(puts, takes[0], total), PairsOf(puts, takes[1..], total), who);
      OtherTakersTakeNothing(puts, takes[0], total, who);
      AbsentTakesNothing(puts, takes[1..], total, who);
    }
  }

  /**
   A taker is charged what the other putters' part of everything put in is of its take, the take counted up to
   everything put in, short of that by less than one unit per putter: so at most what it took, and all of it but less
   than one unit per putter when it put nothing in itself and took no more than was put.
   */
  lemma TakerIsAttributedWhatItTook(puts: seq<Side>, takes: seq<Side>, t: nat)
    requires OncePerAgent(takes) && t < |takes|
    ensures var who, total, charged := takes[t].agent, Total(puts), TakenBy(Pairs(puts, takes), takes[t].agent);
            var part := Total(Others(puts, who)) * Min(takes[t].amount, total);
            total > 0 ==> charged * total <= part <= charged * total + |Others(puts, who)| * (total - 1)
    ensures TakenBy(Pairs(puts, takes), takes[t].agent) <= takes[t].amount
    ensures Total(puts) > 0 && takes[t].amount <= Total(puts) &&
            (forall k :: 0 <= k < |puts| ==> puts[k].agent != takes[t].agent) ==>
              takes[t].amount < TakenBy(Pairs(puts, takes), takes[t].agent) + |puts|
  {
    var total, who := Total(puts), takes[t].agent;
    if total > 0 {
      var parts, amount := Amounts(Others(puts, who)), Min(takes[t].amount, total);
      TakenIsTheTakersOwn(puts, takes, total, t);
      TakerShares(puts, takes[t], total);
      SharesBounds(parts, amount, total);
      OthersTakeLess(puts, who);
      SharesNeverExceed(parts, amount, total);
      if takes[t].amount <= total && forall k :: 0 <= k < |puts| ==> puts[k].agent != who {
        NobodyLeftOut(puts, who);
        SharesFallShortByLessThanOneEach(parts, amount);
      }
    }
  }

  lemma {:induction false} NobodyLeftOut(sides: seq<Side>, who: Agent)
    requires forall k :: 0 <= k < |sides| ==> sides[k].agent != who
    ensures Others(sides, who) == sides
  {
    if sides != [] { NobodyLeftOut(sides[1..], who); }
  }

  // ---------------------------------------------------------------- the putters' side

  lemma {:induction false} PutIsThePuttersOwn(puts: seq<Side>, take: Side, total: nat, p: nat)
    requires total > 0 && OncePerAgent(puts) && p < |puts|
    ensures PutBy(PairsOfTaker(puts, take, total), puts[p].agent) == Attributed(puts[p], take, total)
  {
    ByConcat(PairOf(puts[0], take, total), PairsOfTaker(puts[1..], take, total), puts[p].agent);
    ByOne(puts[0], take, total, puts[p].agent);
    if p == 0 {
      AbsentPutsNothing(puts[1..], take, total, puts[0].agent);
    } else {
      PutIsThePuttersOwn(puts[1..], take, total, p - 1);
    }
  }

  lemma {:induction false} AbsentPutsNothing(puts: seq<Side>, take: Side, total: nat, who: Agent)
    requires total > 0 && forall k :: 0 <= k < |puts| ==> puts[k].agent != who
    ensures PutBy(PairsOfTaker(puts, take, total), who) == 0
  {
    if puts != [] {
      ByConcat(PairOf(puts[0], take, total), PairsOfTaker(puts[1..], take, total), who);
      ByOne(puts[0], take, total, who);
      AbsentPutsNothing(puts[1..], take, total, who);
    }
  }

  /// What counts of each take: no more than everything that was put in.
  function CappedAmounts(takes: seq<Side>, total: nat): seq<nat> {
    seq(|takes|, k requires 0 <= k < |takes| => Min(takes[k].amount, total))
  }

  function CappedTotal(takes: seq<Side>, total: nat): nat { Sum(CappedAmounts(takes, total)) }

  /// One side without an agent: what it took of its own put counts for nobody.
  function Others(takes: seq<Side>, who: Agent): seq<Side> {
    if takes == [] then [] else (if takes[0].agent == who then [] else [takes[0]]) + Others(takes[1..], who)
  }

  /// What others took, each counted up to all that was put in.
  function TakenByOthers(puts: seq<Side>, takes: seq<Side>, who: Agent): nat {
    CappedTotal(Others(takes, who), Total(puts))
  }

  /// The cap on a pair does what capping the take would do.
  lemma AttributedIsCappedShare(put: Side, take: Side, total: nat)
    requires total > 0 && put.agent != take.agent
    ensures Attributed(put, take, total) == Share(Min(take.amount, total), put.amount, total)
  {
    hide Share;
    ShareCommutes(take.amount, put.amount, total);
    ShareCommutes(total, put.amount, total);
    if take.amount <= total {
      ShareAtMostPart(put.amount, take.amount, total);
    } else {
      ShareAtLeastPart(put.amount, take.amount, total);
      ShareAtMostPart(put.amount, total, total);
      ShareAtLeastPart(put.amount, total, total);
    }
  }

  lemma ShareAtLeastPart(part: nat, amount: nat, whole: nat)
    requires 0 < whole <= amount
    ensures Share(part, amount, whole) >= part
  {
    ShareBounds(part, amount, whole);
    var s := Share(part, amount, whole);
    assert part * whole == whole * part && part * amount == amount * part;
    Order(whole, amount, part);
    if s < part { Order(s, part, whole); }
  }

  /// A putter's pairs over all takers are its shares of what the others took, each take capped.
  lemma {:induction false} PutterShares(puts: seq<Side>, takes: seq<Side>, total: nat, p: nat)
    requires total > 0 && OncePerAgent(puts) && p < |puts|
    ensures PutBy(PairsOf(puts, takes, total), puts[p].agent) ==
              Sum(Shares(CappedAmounts(Others(takes, puts[p].agent), total), puts[p].amount, total))
  {
    hide Share, Attributed, PairsOfTaker;
    if takes != [] {
      var who := puts[p].agent;
      var others := Others(takes[1..], who);
      PutterShares(puts, takes[1..], total, p);
      ByConcat(PairsOfTaker(puts, takes[0], total), PairsOf(puts, takes[1..], total), who);
      PutIsThePuttersOwn(puts, takes[0], total, p);
      if who == takes[0].agent {
        OwnPairIsNothing(puts[p], takes[0], total);
        Units(others);
      } else {
        AttributedIsCappedShare(puts[p], takes[0], total);
        OneMoreShare(takes[0], others, puts[p].amount, total);
      }
    }
  }

  lemma OneMoreShare(take: Side, others: seq<Side>, amount: nat, total: nat)
    requires total > 0
    ensures Sum(Shares(CappedAmounts([take] + others, total), amount, total)) ==
              Share(Min(take.amount, total), amount, total) + Sum(Shares(CappedAmounts(others, total), amount, total))
  {
    hide Share;
    var takes := [take] + others;
    assert CappedAmounts(takes, total)[1..] == CappedAmounts(others, total);
    assert Shares(CappedAmounts(takes, total), amount, total)[1..] ==
           Shares(CappedAmounts(others, total), amount, total);
  }

  lemma OwnPairIsNothing(put: Side, take: Side, total: nat)
    requires total > 0 && put.agent == take.agent
    ensures Attributed(put, take, total) == 0
  {}

  /**
   Nobody is charged with more than it put, over all its takers, when the others' takes, each counted up to
   all that was put in, make no more than that.
   */
  lemma PutterIsAttributedAtMostWhatItPut(puts: seq<Side>, takes: seq<Side>, p: nat)
    requires OncePerAgent(puts) && p < |puts| && TakenByOthers(puts, takes, puts[p].agent) <= Total(puts)
    ensures PutBy(Pairs(puts, takes), puts[p].agent) <= puts[p].amount
  {
    if Total(puts) > 0 {
      PutterShares(puts, takes, Total(puts), p);
      SharesNeverExceed(CappedAmounts(Others(takes, puts[p].agent), Total(puts)), puts[p].amount, Total(puts));
    }
  }

  /// In particular when no more was taken than put.
  lemma NobodyIsOverchargedUnlessOvertaken(puts: seq<Side>, takes: seq<Side>, p: nat)
    requires OncePerAgent(puts) && p < |puts| && Total(takes) <= Total(puts)
    ensures PutBy(Pairs(puts, takes), puts[p].agent) <= puts[p].amount
  {
    OthersTakeLess(takes, puts[p].agent);
    CappingTakesLess(Others(takes, puts[p].agent), Total(puts));
    PutterIsAttributedAtMostWhatItPut(puts, takes, p);
  }

  lemma {:induction false} OthersTakeLess(takes: seq<Side>, who: Agent)
    ensures Total(Others(takes, who)) <= Total(takes)
  {
    if takes != [] {
      var others := Others(takes[1..], who);
      OthersTakeLess(takes[1..], who);
      assert Amounts(takes)[1..] == Amounts(takes[1..]);
      assert Amounts([takes[0]] + others)[1..] == Amounts(others);
      Units(others);
    }
  }

  lemma {:induction false} CappingTakesLess(takes: seq<Side>, total: nat)
    ensures CappedTotal(takes, total) <= Total(takes)
  {
    if takes != [] {
      assert CappedAmounts(takes, total)[1..] == CappedAmounts(takes[1..], total);
      assert Amounts(takes)[1..] == Amounts(takes[1..]);
      CappingTakesLess(takes[1..], total);
    }
  }

  /// A putter is charged its share of what the others took, each take capped, short of it by less than one
  /// unit per taker: so it is overcharged as soon as they exceed what was put in by that much for it.
  lemma PutterIsChargedItsShare(puts: seq<Side>, takes: seq<Side>, p: nat)
    requires OncePerAgent(puts) && p < |puts| && Total(puts) > 0
    ensures var who, put, total := puts[p].agent, puts[p].amount, Total(puts);
            var charged, slack := PutBy(Pairs(puts, takes), who), |Others(takes, who)| * (total - 1);
            charged * total <= TakenByOthers(puts, takes, who) * put <= charged * total + slack
    ensures var who, put, total := puts[p].agent, puts[p].amount, Total(puts);
            var charged, slack := PutBy(Pairs(puts, takes), who), |Others(takes, who)| * (total - 1);
            TakenByOthers(puts, takes, who) * put > put * total + slack ==> charged > put
  {
    var total := Total(puts);
    PutterShares(puts, takes, total, p);
    SharesBounds(CappedAmounts(Others(takes, puts[p].agent), total), puts[p].amount, total);
    Order(PutBy(Pairs(puts, takes), puts[p].agent), puts[p].amount, total);
  }

  /// For a single putter, whether it takes too or not, the condition is exact.
  lemma OnlyPutterIsOverchargedIffOvertaken(put: Side, takes: seq<Side>)
    requires put.amount > 0
    ensures PutBy(Pairs([put], takes), put.agent) <= put.amount <==>
            TakenByOthers([put], takes, put.agent) <= put.amount
  {
    var total := put.amount;
    assert Amounts([put]) == [total];
    SumOne(total);
    PutterShares([put], takes, total, 0);
    WholeShares(CappedAmounts(Others(takes, put.agent), total), total);
  }

  lemma {:induction false} WholeShares(amounts: seq<nat>, whole: nat)
    requires whole > 0
    ensures Sum(Shares(amounts, whole, whole)) == Sum(amounts)
  {
    hide Share;
    if amounts != [] {
      WholeShares(amounts[1..], whole);
      assert Shares(amounts, whole, whole)[1..] == Shares(amounts[1..], whole, whole);
      ShareCommutes(amounts[0], whole, whole);
      WholeShare(whole, amounts[0]);
    }
  }

  /// The cap is per pair, not per putter: with more taken than put, one putter is charged twice over.
  lemma OvertakenPutterIsChargedTwice()
    ensures var puts, takes := [Side("a", 10)], [Side("b", 10), Side("c", 10)];
            PutBy(Pairs(puts, takes), "a") == 20
  {
    var puts, takes := [Side("a", 10)], [Side("b", 10), Side("c", 10)];
    assert Amounts(puts) == [10];
    SumOne(10);
    assert Total(puts) == 10;
    assert Share(10, 10, 10) == 10;
    var b, c := Pair("a", "b", 10), Pair("a", "c", 10);
    assert PairsOfTaker(puts, takes[0], 10) == [b] && PairsOfTaker(puts, takes[1], 10) == [c] by {
      assert puts[1..] == [];
    }
    assert takes[1..] == [takes[1]] && takes[1..][1..] == [];
    assert PairsOf(puts, takes[1..], 10) == [c] + PairsOf(puts, [], 10) == [c];
    assert Pairs(puts, takes) == [b] + [c];
    ByConcat([b], [c], "a");
    assert [b][1..] == [] && [c][1..] == [];
    assert PutBy([b], "a") == 10 && PutBy([c], "a") == 10;
  }
}
