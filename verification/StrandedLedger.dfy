/**
 The running net of an agent's token transfers into registry contracts (sdk/src/agentMarkets.ts, class
 StrandedLedger and fetchAgentTransfers). Fed one block range at a time, it holds what one pass over the
 same logs would give.
 */
module StrandedLedger {
  import opened Basics
  import opened StrandedFlows

  /// A Transfer log. Three topics is the ERC-20 shape; any argument can be missing.
  datatype Log = Log(token: Address, topics: nat, from: Option<Address>, to: Option<Address>, value: Option<nat>)

  /// What one log adds to the net into `k`.
  function Delta(log: Log, me: Address, markets: set<Address>, k: Key): int {
    if log.topics != 3 || log.value.None? || log.from.None? || log.to.None? then 0
    else
      var value: int := log.value.value;
      if log.from.value == me && log.to.value in markets then
        if k == Key(log.to.value, log.token) then value else 0
      else if log.to.value == me && log.from.value in markets then
        if k == Key(log.from.value, log.token) then -value else 0
      else 0
  }

  /// A transfer of the agent's into an entry counts up there, one out of an entry to it counts down there, and nothing
  /// else counts anywhere.
  lemma TransferCounts(token: Address, from: Address, to: Address, value: nat, me: Address, markets: set<Address>,
                       k: Key)
    ensures var log, all: int := Log(token, 3, Some(from), Some(to), Some(value)), value;
            (from == me && to in markets ==> Delta(log, me, markets, k) == if k == Key(to, token) then all else 0) &&
            (to == me && from in markets && !(from == me && to in markets) ==>
               Delta(log, me, markets, k) == if k == Key(from, token) then -all else 0) &&
            (!(from == me && to in markets) && !(to == me && from in markets) ==> Delta(log, me, markets, k) == 0)
  {}

  /// Nor does a log of another shape, or one with an argument missing.
  lemma OtherLogsCountNothing(log: Log, me: Address, markets: set<Address>, k: Key)
    requires log.topics != 3 || log.from.None? || log.to.None? || log.value.None?
    ensures Delta(log, me, markets, k) == 0
  {}

  /// What goes in and comes back leaves nothing.
  lemma ThereAndBack(token: Address, market: Address, value: nat, me: Address, markets: set<Address>, k: Key)
    requires market in markets && me !in markets
    ensures var there, back := Log(token, 3, Some(me), Some(market), Some(value)),
                               Log(token, 3, Some(market), Some(me), Some(value));
            NetOf([there], me, markets, Key(market, token)) == value && NetOf([there, back], me, markets, k) == 0
  {
    var there, back := Log(token, 3, Some(me), Some(market), Some(value)),
                       Log(token, 3, Some(market), Some(me), Some(value));
    NetOfOne(there, me, markets, Key(market, token));
    NetOfOne(there, me, markets, k);
    NetOfOne(back, me, markets, k);
    assert [there, back] == [there] + [back];
    NetOfConcat([there], [back], me, markets, k);
  }

  function DeltaOf(me: Address, markets: set<Address>, k: Key): Log -> int {
    (log: Log) => Delta(log, me, markets, k)
  }

  function NetOf(logs: seq<Log>, me: Address, markets: set<Address>, k: Key): int {
    SumBy(logs, DeltaOf(me, markets, k))
  }

  lemma NetOfConcat(a: seq<Log>, b: seq<Log>, me: Address, markets: set<Address>, k: Key)
    ensures NetOf(a + b, me, markets, k) == NetOf(a, me, markets, k) + NetOf(b, me, markets, k)
  {
    SumByConcat(a, b, DeltaOf(me, markets, k));
  }

  /// The order of the logs does not matter.
  lemma NetOfPermutes(a: seq<Log>, b: seq<Log>, me: Address, markets: set<Address>, k: Key)
    requires multiset(a) == multiset(b)
    ensures NetOf(a, me, markets, k) == NetOf(b, me, markets, k)
  {
    SumByPermutes(a, b, DeltaOf(me, markets, k));
  }

  // ---------------------------------------------------------------- what is fetched

  function SentBy(logs: seq<Log>, me: Address): seq<Log> {
    if logs == [] then [] else (if logs[0].from == Some(me) then [logs[0]] else []) + SentBy(logs[1..], me)
  }

  function ReceivedBy(logs: seq<Log>, me: Address): seq<Log> {
    if logs == [] then [] else (if logs[0].to == Some(me) then [logs[0]] else []) + ReceivedBy(logs[1..], me)
  }

  /// The node is asked twice, by sender and by recipient; a transfer to oneself comes back both times.
  function Fetched(logs: seq<Log>, me: Address): seq<Log> { SentBy(logs, me) + ReceivedBy(logs, me) }

  /// The transfers to oneself: the ones both answers have.
  function ToOneself(logs: seq<Log>, me: Address): seq<Log> {
    if logs == [] then []
    else (if logs[0].from == logs[0].to == Some(me) then [logs[0]] else []) + ToOneself(logs[1..], me)
  }

  lemma NetOfOne(log: Log, me: Address, markets: set<Address>, k: Key)
    ensures NetOf([log], me, markets, k) == Delta(log, me, markets, k)
  {
    assert [log][1..] == [];
    assert NetOf([log], me, markets, k) == Delta(log, me, markets, k) + NetOf([], me, markets, k);
  }

  lemma {:induction false} NetOfSides(logs: seq<Log>, me: Address, markets: set<Address>, k: Key)
    ensures NetOf(SentBy(logs, me), me, markets, k) + NetOf(ReceivedBy(logs, me), me, markets, k) ==
              NetOf(logs, me, markets, k) + NetOf(ToOneself(logs, me), me, markets, k)
  {
    if logs != [] {
      var log, rest := logs[0], logs[1..];
      NetOfSides(rest, me, markets, k);
      NetOfOne(log, me, markets, k);
      NetOfConcat(if log.from == Some(me) then [log] else [], SentBy(rest, me), me, markets, k);
      NetOfConcat(if log.to == Some(me) then [log] else [], ReceivedBy(rest, me), me, markets, k);
      NetOfConcat(if log.from == log.to == Some(me) then [log] else [], ToOneself(rest, me), me, markets, k);
    }
  }

  /// The two answers together net as all the logs do, with transfers to oneself counted once more. Those
  /// net to nothing, unless the agent is itself an entry.
  lemma FetchedNets(logs: seq<Log>, me: Address, markets: set<Address>, k: Key)
    ensures NetOf(Fetched(logs, me), me, markets, k) ==
              NetOf(logs, me, markets, k) + NetOf(ToOneself(logs, me), me, markets, k)
    ensures me !in markets ==> NetOf(Fetched(logs, me), me, markets, k) == NetOf(logs, me, markets, k)
  {
    NetOfConcat(SentBy(logs, me), ReceivedBy(logs, me), me, markets, k);
    NetOfSides(logs, me, markets, k);
    if me !in markets { ToOneselfNetsNothing(logs, me, markets, k); }
  }

  lemma {:induction false} ToOneselfNetsNothing(logs: seq<Log>, me: Address, markets: set<Address>, k: Key)
    requires me !in markets
    ensures NetOf(ToOneself(logs, me), me, markets, k) == 0
  {
    if logs != [] {
      ToOneselfNetsNothing(logs[1..], me, markets, k);
      NetOfOne(logs[0], me, markets, k);
      NetOfConcat(if logs[0].from == logs[0].to == Some(me) then [logs[0]] else [],
                  ToOneself(logs[1..], me), me, markets, k);
    }
  }

  // ---------------------------------------------------------------- the ledger

  function At(net: map<Key, int>, k: Key): int { if k in net then net[k] else 0 }

  class Ledger {
    var net: map<Key, int>

    constructor ()
      ensures net == map[]
    {
      net := map[];
    }

    method Apply(logs: seq<Log>, me: Address, markets: set<Address>)
      modifies this
      ensures forall k :: At(net, k) == At(old(net), k) + NetOf(logs, me, markets, k)
    {
      assert logs[..0] == [];
      for i := 0 to |logs|
        invariant forall k :: At(net, k) == At(old(net), k) + NetOf(logs[..i], me, markets, k)
      {
        var log := logs[i];
        forall k
          ensures NetOf(logs[..i + 1], me, markets, k) ==
                  NetOf(logs[..i], me, markets, k) + Delta(log, me, markets, k)
        {
          assert logs[..i + 1] == logs[..i] + [log];
          NetOfConcat(logs[..i], [log], me, markets, k);
          assert [log][1..] == [];
        }
        ghost var was := net;
        if log.topics == 3 && log.value.Some? && log.from.Some? && log.to.Some? {
          if log.from.value == me && log.to.value in markets {
            var k := Key(log.to.value, log.token);
            net := net[k := At(net, k) + log.value.value];
          } else if log.to.value == me && log.from.value in markets {
            var k := Key(log.from.value, log.token);
            net := net[k := At(net, k) - log.value.value];
          }
        }
        assert forall k :: At(net, k) == At(was, k) + Delta(log, me, markets, k);
      }
      assert logs[..|logs|] == logs;
    }

    /// Only what is still in there: one flow for every contract and token with a positive net.
    method Outstanding() returns (flows: seq<Flow>)
      ensures DistinctKeys(flows)
      ensures forall f <- flows :: f.amount > 0 && f.amount == At(net, KeyOf(f))
      ensures forall k :: At(net, k) > 0 ==> exists f <- flows :: KeyOf(f) == k
    {
      flows := [];
      var left := net.Keys;
      while left != {}
        invariant left <= net.Keys && DistinctKeys(flows)
        invariant forall f <- flows :: f.amount > 0 && f.amount == At(net, KeyOf(f)) && KeyOf(f) !in left
        invariant forall k <- net.Keys - left :: net[k] > 0 ==> exists f <- flows :: KeyOf(f) == k
      {
        var k :| k in left;
        left := left - {k};
        if net[k] > 0 {
          var f := Flow(k.market, k.token, net[k]);
          assert KeyOf(f) == k;
          assert forall g <- flows :: KeyOf(g) != k;
          ghost var was := flows;
          flows := flows + [f];
          assert forall g <- was :: g in flows;
          assert f in flows;
        }
      }
    }
  }
}
