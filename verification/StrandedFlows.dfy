/**
 What agents have left inside contracts, capped by what the contracts still hold
 (sdk/src/agentMarkets.ts): one agent at a time, and across all of them pro rata. Addresses are
 compared without case in the source; here an address is its lower-case form.
 */
module StrandedFlows {
  import opened Basics
  import opened ProRata

  type Address = string

  datatype Flow = Flow(market: Address, token: Address, amount: nat)

  datatype Key = Key(market: Address, token: Address)

  function KeyOf(f: Flow): Key { Key(f.market, f.token) }

  /// Flows go to one place when they are of one token into one contract.
  lemma PlaceIsContractAndToken(f: Flow, g: Flow)
    ensures KeyOf(f) == KeyOf(g) <==> f.market == g.market && f.token == g.token
  {}

  // ---------------------------------------------------------------- one agent

  function Clamped(f: Flow, balances: map<Key, nat>): seq<Flow> {
    if KeyOf(f) !in balances then [f]
    else
      var amount := Min(balances[KeyOf(f)], f.amount);
      if amount > 0 then [f.(amount := amount)] else []
  }

  function Clamp(flows: seq<Flow>, balances: map<Key, nat>): seq<Flow> {
    if flows == [] then [] else Clamped(flows[0], balances) + Clamp(flows[1..], balances)
  }

  method ClampToBalances(flows: seq<Flow>, balances: map<Key, nat>) returns (out: seq<Flow>)
    ensures out == Clamp(flows, balances)
  {
    out := [];
    assert flows[0..] == flows;
    for i := 0 to |flows|
      invariant out + Clamp(flows[i..], balances) == Clamp(flows, balances)
    {
      assert flows[i..][1..] == flows[i + 1..];
      Assoc(out, Clamped(flows[i], balances), Clamp(flows[i + 1..], balances));
      var f := flows[i];
      if KeyOf(f) !in balances {
        out := out + [f];
      } else {
        var held := balances[KeyOf(f)];
        var amount := if held < f.amount then held else f.amount;
        if amount > 0 { out := out + [f.(amount := amount)]; } else { Units(out); }
      }
    }
    Units(out);
  }

  // ---------------------------------------------------------------- all agents

  /// The amounts of the flows into one (contract, token), in order.
  function Into(flows: seq<Flow>, k: Key): seq<nat> {
    if flows == [] then []
    else (if KeyOf(flows[0]) == k then [flows[0].amount] else []) + Into(flows[1..], k)
  }

  function TotalInto(flows: seq<Flow>, k: Key): nat { Sum(Into(flows, k)) }

  function Flat(byAgent: seq<seq<Flow>>): seq<Flow> {
    if byAgent == [] then [] else byAgent[0] + Flat(byAgent[1..])
  }

  function Allocated(f: Flow, total: nat, balances: map<Key, nat>): seq<Flow> {
    if KeyOf(f) !in balances then [f]
    else if total == 0 then []
    else
      var held := balances[KeyOf(f)];
      var amount := if held >= total then f.amount else Share(f.amount, held, total);
      if amount > 0 then [f.(amount := amount)] else []
  }

  function AllocateFlows(flows: seq<Flow>, all: seq<Flow>, balances: map<Key, nat>): seq<Flow> {
    if flows == [] then []
    else Allocated(flows[0], TotalInto(all, KeyOf(flows[0])), balances) + AllocateFlows(flows[1..], all, balances)
  }

  function Allocate(byAgent: seq<seq<Flow>>, balances: map<Key, nat>): seq<seq<Flow>> {
    seq(|byAgent|, a requires 0 <= a < |byAgent| => AllocateFlows(byAgent[a], Flat(byAgent), balances))
  }

  lemma {:induction false} IntoConcat(a: seq<Flow>, b: seq<Flow>, k: Key)
    ensures Into(a + b, k) == Into(a, k) + Into(b, k)
  {
    if a == [] {
      Units(b);
      Units(Into(b, k));
    } else {
      assert (a + b)[0] == a[0] && (a + b)[1..] == a[1..] + b;
      IntoConcat(a[1..], b, k);
      Assoc(if KeyOf(a[0]) == k then [a[0].amount] else [], Into(a[1..], k), Into(b, k));
    }
  }

  lemma TotalOne(f: Flow, k: Key)
    ensures TotalInto([f], k) == if KeyOf(f) == k then f.amount else 0
  {
    assert [f][1..] == [];
    assert Into([f], k) == if KeyOf(f) == k then [f.amount] else [];
    SumOne(f.amount);
  }

  lemma TotalConcat(a: seq<Flow>, b: seq<Flow>, k: Key)
    ensures TotalInto(a + b, k) == TotalInto(a, k) + TotalInto(b, k)
  {
    IntoConcat(a, b, k);
    SumConcat(Into(a, k), Into(b, k));
  }

  function Lookup(totals: map<Key, nat>, k: Key): nat { if k in totals then totals[k] else 0 }

  /// The source's two passes: the totals per (contract, token), then each agent's share of what is held.
  method AllocateToBalances(byAgent: seq<seq<Flow>>, balances: map<Key, nat>) returns (out: seq<seq<Flow>>)
    ensures out == Allocate(byAgent, balances)
  {
    hide Flat, TotalInto, Lookup, AllocateFlows;
    var totals := TotalsOf(byAgent);
    out := [];
    for a := 0 to |byAgent|
      invariant |out| == a && forall b :: 0 <= b < a ==> out[b] == Allocate(byAgent, balances)[b]
    {
      var shares := AllocateOne(byAgent[a], totals, Flat(byAgent), balances);
      out := out + [shares];
    }
  }

  method TotalsOf(byAgent: seq<seq<Flow>>) returns (totals: map<Key, nat>)
    ensures forall k :: Lookup(totals, k) == TotalInto(Flat(byAgent), k)
  {
    totals := map[];
    assert Flat(byAgent[..0]) == [];
    forall k ensures TotalInto([], k) == 0 { NoneInto(k); }
    hide Flat, TotalInto;
    for a := 0 to |byAgent|
      invariant forall k :: Lookup(totals, k) == TotalInto(Flat(byAgent[..a]), k)
    {
      FlatLast(byAgent, a);
      totals := AddTotals(totals, byAgent[a], Flat(byAgent[..a]));
    }
    assert byAgent[..|byAgent|] == byAgent;
  }

  /// The inner loop of the first pass: one agent's flows on top of the totals so far.
  method AddTotals(before: map<Key, nat>, flows: seq<Flow>, ghost counted: seq<Flow>) returns (totals: map<Key, nat>)
    requires forall k :: Lookup(before, k) == TotalInto(counted, k)
    ensures forall k :: Lookup(totals, k) == TotalInto(counted + flows, k)
  {
    totals := before;
    assert flows[..0] == [];
    Units(counted);
    for i := 0 to |flows|
      invariant forall k :: Lookup(totals, k) == TotalInto(counted + flows[..i], k)
    {
      var f := flows[i];
      assert counted + flows[..i + 1] == counted + flows[..i] + [f];
      forall k ensures TotalInto(counted + flows[..i + 1], k) ==
                       TotalInto(counted + flows[..i], k) + (if k == KeyOf(f) then f.amount else 0) {
        TotalConcat(counted + flows[..i], [f], k);
        TotalOne(f, k);
      }
      ghost var was := totals;
      totals := totals[KeyOf(f) := Lookup(totals, KeyOf(f)) + f.amount];
      assert forall k :: Lookup(totals, k) == Lookup(was, k) + (if k == KeyOf(f) then f.amount else 0);
    }
    assert flows[..|flows|] == flows;
  }

  method AllocateOne(flows: seq<Flow>, totals: map<Key, nat>, ghost all: seq<Flow>, balances: map<Key, nat>)
    returns (out: seq<Flow>)
    requires forall k :: Lookup(totals, k) == TotalInto(all, k)
    ensures out == AllocateFlows(flows, all, balances)
  {
    out := [];
    assert flows[0..] == flows;
    for i := 0 to |flows|
      invariant out + AllocateFlows(flows[i..], all, balances) == AllocateFlows(flows, all, balances)
    {
      assert flows[i..][1..] == flows[i + 1..];
      var f := flows[i];
      Assoc(out, Allocated(f, TotalInto(all, KeyOf(f)), balances), AllocateFlows(flows[i + 1..], all, balances));
      out := out + Allocated(f, Lookup(totals, KeyOf(f)), balances);
    }
    Units(out);
  }

  lemma {:induction false} FlatLast(byAgent: seq<seq<Flow>>, a: nat)
    requires a < |byAgent|
    ensures Flat(byAgent[..a + 1]) == Flat(byAgent[..a]) + byAgent[a]
  {
    if a == 0 {
      assert byAgent[..1][1..] == [];
      Units(byAgent[0]);
    } else {
      FlatLast(byAgent[1..], a - 1);
      assert byAgent[..a + 1][1..] == byAgent[1..][..a] && byAgent[..a][1..] == byAgent[1..][..a - 1];
      Assoc(byAgent[0], Flat(byAgent[1..][..a - 1]), byAgent[a]);
    }
  }

  // ---------------------------------------------------------------- conservation

  /// What all agents together are told is in one (contract, token) is the sum of its shares.
  lemma {:induction false} AllocatedTotal(flows: seq<Flow>, all: seq<Flow>, balances: map<Key, nat>, k: Key)
    requires k in balances && TotalInto(all, k) > 0
    ensures TotalInto(AllocateFlows(flows, all, balances), k) ==
              if balances[k] >= TotalInto(all, k) then TotalInto(flows, k)
              else Sum(Shares(Into(flows, k), balances[k], TotalInto(all, k)))
  {
    hide Share, Sum, Allocated;
    if flows == [] {
      assert Shares(Into(flows, k), balances[k], TotalInto(all, k)) == Into(flows, k);
      assert TotalInto([], k) == 0 by { NoneInto(k); }
    } else {
      var f, rest := flows[0], flows[1..];
      AllocatedTotal(rest, all, balances, k);
      TotalConcat(Allocated(f, TotalInto(all, KeyOf(f)), balances), AllocateFlows(rest, all, balances), k);
      OneAllocated(f, TotalInto(all, KeyOf(f)), balances, k);
      if KeyOf(f) == k {
        SumFirst(f.amount, Into(rest, k), balances[k], TotalInto(all, k));
      } else {
        Units(Into(rest, k));
      }
    }
  }

  lemma NoneInto(k: Key)
    ensures TotalInto([], k) == 0
  {}

  lemma SumFirst(first: nat, rest: seq<nat>, amount: nat, whole: nat)
    requires whole > 0
    ensures Sum([first] + rest) == first + Sum(rest)
    ensures Sum(Shares([first] + rest, amount, whole)) == Share(first, amount, whole) + Sum(Shares(rest, amount, whole))
  {
    hide Share;
    assert Shares([first] + rest, amount, whole) == [Share(first, amount, whole)] + Shares(rest, amount, whole);
    SumConcat([first], rest);
    SumOne(first);
    SumConcat([Share(first, amount, whole)], Shares(rest, amount, whole));
    SumOne(Share(first, amount, whole));
  }

  lemma OneAllocated(f: Flow, total: nat, balances: map<Key, nat>, k: Key)
    requires k in balances && (KeyOf(f) == k ==> total > 0)
    ensures TotalInto(Allocated(f, total, balances), k) ==
              if KeyOf(f) != k then 0
              else if balances[k] >= total then f.amount else Share(f.amount, balances[k], total)
  {
    var out := Allocated(f, total, balances);
    if out != [] { TotalOne(out[0], k); }
  }

  lemma {:induction false} AllocatedNothing(flows: seq<Flow>, all: seq<Flow>, balances: map<Key, nat>, k: Key)
    requires k in balances && TotalInto(all, k) == 0
    ensures TotalInto(AllocateFlows(flows, all, balances), k) == 0
  {
    if flows != [] {
      AllocatedNothing(flows[1..], all, balances, k);
      var first := Allocated(flows[0], TotalInto(all, KeyOf(flows[0])), balances);
      TotalConcat(first, AllocateFlows(flows[1..], all, balances), k);
      if first != [] { TotalOne(first[0], k); }
    }
  }

  lemma {:induction false} FlatAllocate(byAgent: seq<seq<Flow>>, all: seq<Flow>, balances: map<Key, nat>)
    ensures Flat(seq(|byAgent|, a requires 0 <= a < |byAgent| => AllocateFlows(byAgent[a], all, balances))) ==
              AllocateFlows(Flat(byAgent), all, balances)
  {
    var split := seq(|byAgent|, a requires 0 <= a < |byAgent| => AllocateFlows(byAgent[a], all, balances));
    if byAgent != [] {
      var rest := byAgent[1..];
      assert split[1..] == seq(|rest|, a requires 0 <= a < |rest| => AllocateFlows(rest[a], all, balances));
      FlatAllocate(rest, all, balances);
      AllocateFlowsConcat(byAgent[0], Flat(rest), all, balances);
    }
  }

  lemma {:induction false} AllocateFlowsConcat(a: seq<Flow>, b: seq<Flow>, all: seq<Flow>, balances: map<Key, nat>)
    ensures AllocateFlows(a + b, all, balances) == AllocateFlows(a, all, balances) + AllocateFlows(b, all, balances)
  {
    if a == [] {
      Units(b);
      Units(AllocateFlows(b, all, balances));
    } else {
      assert (a + b)[0] == a[0] && (a + b)[1..] == a[1..] + b;
      AllocateFlowsConcat(a[1..], b, all, balances);
      Assoc(Allocated(a[0], TotalInto(all, KeyOf(a[0])), balances), AllocateFlows(a[1..], all, balances),
            AllocateFlows(b, all, balances));
    }
  }

  /**
   Over all agents, never more of a token is reported in a contract than the contract holds; the split
   loses less than one unit per flow; and a contract that still holds everything is reported exactly.
   */
  lemma NeverMoreThanHeld(byAgent: seq<seq<Flow>>, balances: map<Key, nat>, k: Key)
    requires k in balances
    ensures var reported, put := TotalInto(Flat(Allocate(byAgent, balances)), k), TotalInto(Flat(byAgent), k);
            reported <= balances[k] &&
            (balances[k] >= put ==> reported == put) &&
            (balances[k] < put ==> balances[k] < reported + |Into(Flat(byAgent), k)|)
  {
    var all := Flat(byAgent);
    FlatAllocate(byAgent, all, balances);
    if TotalInto(all, k) == 0 {
      AllocatedNothing(all, all, balances, k);
    } else {
      AllocatedTotal(all, all, balances, k);
      SharesNeverExceed(Into(all, k), balances[k], TotalInto(all, k));
      SharesFallShortByLessThanOneEach(Into(all, k), balances[k]);
    }
  }

  /// A contract whose balance is not known is reported as it is.
  lemma {:induction false} UnknownIsKept(flows: seq<Flow>, all: seq<Flow>, balances: map<Key, nat>, k: Key)
    requires k !in balances
    ensures Into(AllocateFlows(flows, all, balances), k) == Into(flows, k) == Into(Clamp(flows, balances), k)
  {
    if flows != [] {
      var f, rest := flows[0], flows[1..];
      UnknownIsKept(rest, all, balances, k);
      IntoConcat(Allocated(f, TotalInto(all, KeyOf(f)), balances), AllocateFlows(rest, all, balances), k);
      IntoConcat(Clamped(f, balances), Clamp(rest, balances), k);
      OneInto(f, Allocated(f, TotalInto(all, KeyOf(f)), balances), k);
      OneInto(f, Clamped(f, balances), k);
    }
  }

  lemma OneInto(f: Flow, out: seq<Flow>, k: Key)
    requires out == [] || (|out| == 1 && KeyOf(out[0]) == KeyOf(f))
    ensures Into(out, k) == if out != [] && KeyOf(f) == k then [out[0].amount] else []
  {
    if out != [] { assert out[1..] == []; }
  }

  /**
   Every agent has its own flows back where the contract still holds all that was put in, and else its part of what is
   held, short of it by less than one unit per flow.
   */
  lemma EachAgentHasItsShare(byAgent: seq<seq<Flow>>, balances: map<Key, nat>, a: nat, k: Key)
    requires k in balances && a < |byAgent|
    ensures var put, own := TotalInto(Flat(byAgent), k), TotalInto(byAgent[a], k);
            var reported := TotalInto(Allocate(byAgent, balances)[a], k);
            (put <= balances[k] ==> reported == own) &&
            (put > balances[k] ==>
               reported * put <= own * balances[k] <= reported * put + |Into(byAgent[a], k)| * (put - 1))
  {
    hide Flat, Into, AllocateFlows, Share, Sum, Shares;
    var all := Flat(byAgent);
    if TotalInto(all, k) == 0 {
      AllocatedNothing(byAgent[a], all, balances, k);
      OwnIsPart(byAgent, a, k);
    } else {
      AllocatedTotal(byAgent[a], all, balances, k);
      SharesBounds(Into(byAgent[a], k), balances[k], TotalInto(all, k));
    }
  }

  lemma OwnIsPart(byAgent: seq<seq<Flow>>, a: nat, k: Key)
    requires a < |byAgent|
    ensures TotalInto(byAgent[a], k) <= TotalInto(Flat(byAgent), k)
  {
    FlatLast(byAgent, a);
    TotalConcat(Flat(byAgent[..a]), byAgent[a], k);
    PrefixIsPart(byAgent, a + 1, k);
  }

  lemma {:induction false} PrefixIsPart(byAgent: seq<seq<Flow>>, n: nat, k: Key)
    requires n <= |byAgent|
    ensures TotalInto(Flat(byAgent[..n]), k) <= TotalInto(Flat(byAgent), k)
    decreases |byAgent| - n
  {
    if n < |byAgent| {
      FlatLast(byAgent, n);
      TotalConcat(Flat(byAgent[..n]), byAgent[n], k);
      PrefixIsPart(byAgent, n + 1, k);
    } else {
      assert byAgent[..n] == byAgent;
    }
  }

  ghost predicate DistinctKeys(flows: seq<Flow>) {
    forall i, j :: 0 <= i < j < |flows| ==> KeyOf(flows[i]) != KeyOf(flows[j])
  }

  lemma {:induction false} OnlyFlowInto(flows: seq<Flow>, i: nat)
    requires DistinctKeys(flows) && i < |flows|
    ensures Into(flows, KeyOf(flows[i])) == [flows[i].amount]
  {
    if i == 0 {
      NoFlowInto(flows[1..], KeyOf(flows[0]));
    } else {
      OnlyFlowInto(flows[1..], i - 1);
    }
  }

  lemma {:induction false} NoFlowInto(flows: seq<Flow>, k: Key)
    requires forall i :: 0 <= i < |flows| ==> KeyOf(flows[i]) != k
    ensures Into(flows, k) == []
  {
    if flows != [] { NoFlowInto(flows[1..], k); }
  }

  /// For one agent whose flows go to different places the split is the single-agent cap.
  lemma OneAgentIsClamped(flows: seq<Flow>, balances: map<Key, nat>)
    requires DistinctKeys(flows)
    ensures Allocate([flows], balances) == [Clamp(flows, balances)]
  {
    Units(flows);
    assert Flat([flows]) == flows;
    assert flows[0..] == flows;
    AllocateIsClamp(flows, 0, balances);
  }

  lemma {:induction false} AllocateIsClamp(all: seq<Flow>, i: nat, balances: map<Key, nat>)
    requires DistinctKeys(all) && i <= |all|
    ensures AllocateFlows(all[i..], all, balances) == Clamp(all[i..], balances)
    decreases |all| - i
  {
    if i < |all| {
      var f := all[i];
      assert all[i..][1..] == all[i + 1..];
      AllocateIsClamp(all, i + 1, balances);
      OnlyFlowInto(all, i);
      assert Sum([f.amount]) == f.amount;
      if f.amount > 0 && KeyOf(f) in balances { WholeShare(f.amount, balances[KeyOf(f)]); }
    }
  }
}
