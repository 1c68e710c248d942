/**
 Nets of registered agents against participant-created contracts (core/src/rosterTransfers.ts): who put a
 token in, who took it out, and the movements the pairing makes of them.
 */
module RosterNets {
  import opened Basics
  import opened RosterPairs

  type Address = string

  /// A Transfer log; a missing address reads as "", a missing value as zero.
  datatype Log = Log(token: Address, topics: nat, from: Address, to: Address, value: int, block: nat)

  datatype Key = Key(contract: Address, token: Address)

  /// Registered addresses with their agents, and the contracts watched.
  datatype Book = Book(roster: map<Address, Agent>, contracts: set<Address>)

  datatype Bump = Bump(key: Key, agent: Agent, delta: int)

  datatype Entry = Entry(net: map<Agent, int>, block: nat)

  datatype Movement = Movement(key: Key, pair: Pair, block: nat)

  /// What a log adds to whose net; transfers between two registered addresses are none of these.
  function BumpOf(log: Log, book: Book): Option<Bump> {
    if log.topics != 3 || log.value <= 0 then None
    else if log.from in book.roster && log.to in book.contracts && log.to !in book.roster then
      Some(Bump(Key(log.to, log.token), book.roster[log.from], log.value))
    else if log.to in book.roster && log.from in book.contracts && log.from !in book.roster then
      Some(Bump(Key(log.from, log.token), book.roster[log.to], -log.value))
    else None
  }

  predicate Touches(log: Log, book: Book, key: Key) {
    BumpOf(log, book).Some? && BumpOf(log, book).value.key == key
  }

  function DeltaOf(book: Book, key: Key, agent: Agent): Log -> int {
    (log: Log) =>
      if Touches(log, book, key) && BumpOf(log, book).value.agent == agent then BumpOf(log, book).value.delta else 0
  }

  /// What an agent sent into the contract less what it received from it.
  function NetOf(logs: seq<Log>, book: Book, key: Key, agent: Agent): int {
    SumBy(logs, DeltaOf(book, key, agent))
  }

  /**
   A log counts once or not at all: up for a registered sender into a watched contract that is not registered itself,
   down for a registered recipient out of one. Transfers of nothing, of another shape, and between two registered
   addresses count for nobody.
   */
  lemma LogCountsOnce(log: Log, book: Book, key: Key, agent: Agent)
    ensures var puts := log.from in book.roster && log.to in book.contracts && log.to !in book.roster;
            var takes := log.to in book.roster && log.from in book.contracts && log.from !in book.roster;
            DeltaOf(book, key, agent)(log) ==
              if log.topics == 3 && log.value > 0 && puts && key == Key(log.to, log.token) &&
                 agent == book.roster[log.from]
              then log.value
              else if log.topics == 3 && log.value > 0 && takes && key == Key(log.from, log.token) &&
                      agent == book.roster[log.to]
              then -log.value else 0
  {}

  function NetAt(nets: map<Key, Entry>, key: Key, agent: Agent): int {
    if key in nets && agent in nets[key].net then nets[key].net[agent] else 0
  }

  ghost predicate LastBlock(logs: seq<Log>, book: Book, key: Key, block: nat) {
    (exists log <- logs :: Touches(log, book, key) && log.block == block) &&
    forall log <- logs :: Touches(log, book, key) ==> log.block <= block
  }

  ghost predicate NetsOf(nets: map<Key, Entry>, logs: seq<Log>, book: Book) {
    (forall key, agent :: NetAt(nets, key, agent) == NetOf(logs, book, key, agent)) &&
    (forall key :: key in nets <==> exists log <- logs :: Touches(log, book, key)) &&
    (forall key <- nets :: LastBlock(logs, book, key, nets[key].block))
  }

  function Bumped(nets: map<Key, Entry>, b: Bump, block: nat): map<Key, Entry> {
    var entry := if b.key in nets then nets[b.key] else Entry(map[], block);
    nets[b.key := Entry(entry.net[b.agent := NetAt(nets, b.key, b.agent) + b.delta], Max(entry.block, block))]
  }

  method ContractNets(logs: seq<Log>, book: Book) returns (nets: map<Key, Entry>)
    ensures NetsOf(nets, logs, book)
  {
    nets := map[];
    for i := 0 to |logs|
      invariant NetsOf(nets, logs[..i], book)
    {
      assert logs[..i + 1] == logs[..i] + [logs[i]];
      NetsGrow(nets, logs[..i], logs[i], book);
      var bump := BumpOf(logs[i], book);
      if bump.Some? { nets := Bumped(nets, bump.value, logs[i].block); }
    }
    assert logs[..|logs|] == logs;
  }

  lemma BumpedAt(nets: map<Key, Entry>, b: Bump, block: nat, key: Key, agent: Agent)
    ensures NetAt(Bumped(nets, b, block), key, agent) ==
              NetAt(nets, key, agent) + if key == b.key && agent == b.agent then b.delta else 0
  {}

  lemma NetsGrow(nets: map<Key, Entry>, logs: seq<Log>, log: Log, book: Book)
    requires NetsOf(nets, logs, book)
    ensures var bump := BumpOf(log, book);
            NetsOf(if bump.Some? then Bumped(nets, bump.value, log.block) else nets, logs + [log], book)
  {
    hide SumBy;
    var bump := BumpOf(log, book);
    var nets' := if bump.Some? then Bumped(nets, bump.value, log.block) else nets;
    forall key, agent ensures NetAt(nets', key, agent) == NetOf(logs + [log], book, key, agent) {
      SumByPush(logs, log, DeltaOf(book, key, agent));
      assert NetAt(nets, key, agent) == NetOf(logs, book, key, agent);
      if bump.Some? { BumpedAt(nets, bump.value, log.block, key, agent); }
    }
    forall key ensures key in nets' <==> exists x <- logs + [log] :: Touches(x, book, key) {
      if Touches(log, book, key) { assert log in logs + [log]; }
    }
    forall key <- nets' ensures LastBlock(logs + [log], book, key, nets'[key].block) {
      assert log in logs + [log];
    }
  }

  /// The nets do not depend on the order of the logs.
  lemma NetsDoNotDependOnOrder(a: seq<Log>, b: seq<Log>, book: Book, nets: map<Key, Entry>)
    requires multiset(a) == multiset(b) && NetsOf(nets, a, book)
    ensures NetsOf(nets, b, book)
  {
    forall key, agent ensures NetAt(nets, key, agent) == NetOf(b, book, key, agent) {
      SumByPermutes(a, b, DeltaOf(book, key, agent));
    }
    assert forall log :: log in a <==> log in multiset(a);
    assert forall log :: log in b <==> log in multiset(b);
  }

  // ---------------------------------------------------------------- putters and takers

  /// Who put something in, with its net, and who took something out; an even net is on neither side.
  ghost predicate SplitOf(nets: map<Key, Entry>, key: Key, puts: seq<Side>, takes: seq<Side>) {
    OncePerAgent(puts) && OncePerAgent(takes) &&
    (forall side :: side in puts <==> NetAt(nets, key, side.agent) == side.amount > 0) &&
    (forall side :: side in takes <==> -NetAt(nets, key, side.agent) == side.amount > 0)
  }

  method Split(nets: map<Key, Entry>, key: Key) returns (puts: seq<Side>, takes: seq<Side>)
    requires key in nets
    ensures SplitOf(nets, key, puts, takes)
  {
    puts, takes := [], [];
    var net := nets[key].net;
    var left := net.Keys;
    while left != {}
      invariant left <= net.Keys && OncePerAgent(puts) && OncePerAgent(takes)
      invariant forall side :: side in puts <==> side.agent in net.Keys - left && net[side.agent] == side.amount > 0
      invariant forall side :: side in takes <==> side.agent in net.Keys - left && -net[side.agent] == side.amount > 0
    {
      var agent :| agent in left;
      left := left - {agent};
      assert forall side <- puts + takes :: side.agent != agent;
      if net[agent] > 0 {
        puts := puts + [Side(agent, net[agent])];
      } else if net[agent] < 0 {
        takes := takes + [Side(agent, -net[agent])];
      }
    }
  }

  /// Nobody is on both sides of a contract, so no taker is left out of its own pairing.
  lemma SidesAreDisjoint(nets: map<Key, Entry>, key: Key, puts: seq<Side>, takes: seq<Side>)
    requires SplitOf(nets, key, puts, takes)
    ensures forall i, j :: 0 <= i < |puts| && 0 <= j < |takes| ==> puts[i].agent != takes[j].agent
  {
    forall i, j | 0 <= i < |puts| && 0 <= j < |takes| ensures puts[i].agent != takes[j].agent {
      assert puts[i] in puts && takes[j] in takes;
    }
  }

  // ---------------------------------------------------------------- movements

  function MovementsOf(key: Key, pairs: seq<Pair>, block: nat): seq<Movement> {
    seq(|pairs|, k requires 0 <= k < |pairs| => Movement(key, pairs[k], block))
  }

  function PairsAt(out: seq<Movement>, key: Key): seq<Pair> {
    if out == [] then [] else (if out[0].key == key then [out[0].pair] else []) + PairsAt(out[1..], key)
  }

  lemma {:induction false} PairsAtConcat(a: seq<Movement>, b: seq<Movement>, key: Key)
    ensures PairsAt(a + b, key) == PairsAt(a, key) + PairsAt(b, key)
  {
    if a == [] {
      Units(b);
    } else {
      assert (a + b)[0] == a[0] && (a + b)[1..] == a[1..] + b;
      PairsAtConcat(a[1..], b, key);
    }
  }

  lemma {:induction false} PairsAtOwn(key: Key, pairs: seq<Pair>, block: nat, other: Key)
    ensures PairsAt(MovementsOf(key, pairs, block), other) == if key == other then pairs else []
  {
    if pairs != [] {
      assert MovementsOf(key, pairs, block)[1..] == MovementsOf(key, pairs[1..], block);
      PairsAtOwn(key, pairs[1..], block, other);
    }
  }

  lemma EmptyHasNoPairs()
    ensures forall key :: PairsAt([], key) == []
  {}

  lemma MovementsAre(key: Key, pairs: seq<Pair>, block: nat)
    ensures forall m <- MovementsOf(key, pairs, block) :: m.key == key && m.block == block
  {}

  datatype Sides = Sides(puts: seq<Side>, takes: seq<Side>)

  ghost predicate Paired(out: seq<Movement>, nets: map<Key, Entry>, key: Key, sides: Sides) {
    SplitOf(nets, key, sides.puts, sides.takes) && PairsAt(out, key) == Pairs(sides.puts, sides.takes)
  }

  /// The movements are, per contract and token, the pairs of the putters and takers its nets split into.
  method ContractMovements(logs: seq<Log>, book: Book)
    returns (out: seq<Movement>, nets: map<Key, Entry>, ghost sides: map<Key, Sides>)
    ensures NetsOf(nets, logs, book) && sides.Keys == nets.Keys
    ensures forall key <- nets :: Paired(out, nets, key, sides[key])
    ensures forall m <- out :: m.key in nets && m.block == nets[m.key].block
  {
    hide NetsOf, SplitOf, PairsAt, Pairs, MovementsOf;
    nets := ContractNets(logs, book);
    EmptyHasNoPairs();
    out, sides := [], map[];
    var left := nets.Keys;
    while left != {}
      invariant left <= nets.Keys && sides.Keys == nets.Keys - left
      invariant forall key <- sides :: Paired(out, nets, key, sides[key])
      invariant forall key <- left :: PairsAt(out, key) == []
      invariant forall m <- out :: m.key in nets && m.block == nets[m.key].block
    {
      var key :| key in left;
      var puts, takes := Split(nets, key);
      var pairs := ProRataPairs(puts, takes);
      var added := MovementsOf(key, pairs, nets[key].block);
      MovementsAre(key, pairs, nets[key].block);
      forall k ensures PairsAt(out + added, k) == PairsAt(out, k) + if k == key then pairs else [] {
        PairsAtConcat(out, added, k);
        PairsAtOwn(key, pairs, nets[key].block, k);
      }
      left, sides, out := left - {key}, sides[key := Sides(puts, takes)], out + added;
    }
  }

  // ---------------------------------------------------------------- what is attributed

  /**
   Who took out of a contract is charged at most what it took, and all of it but less than one unit per
   putter when no more was taken than put.
   */
  lemma TakerIsCharged(nets: map<Key, Entry>, key: Key, puts: seq<Side>, takes: seq<Side>, agent: Agent)
    requires SplitOf(nets, key, puts, takes) && NetAt(nets, key, agent) < 0
    ensures TakenBy(Pairs(puts, takes), agent) <= -NetAt(nets, key, agent)
    ensures -NetAt(nets, key, agent) <= Total(puts) ==>
              -NetAt(nets, key, agent) < TakenBy(Pairs(puts, takes), agent) + |puts|
  {
    hide Pairs, TakenBy, Total;
    var side := Side(agent, -NetAt(nets, key, agent));
    assert side in takes;
    var t :| 0 <= t < |takes| && takes[t] == side;
    TakerIsAttributedWhatItTook(puts, takes, t);
    SidesAreDisjoint(nets, key, puts, takes);
  }

  /// The pairs are exactly the positive attributions of a putter to a taker.
  lemma {:induction false} PairsOfAre(puts: seq<Side>, takes: seq<Side>, total: nat, pair: Pair)
    requires total > 0
    ensures pair in PairsOf(puts, takes, total) <==>
            pair.amount > 0 && exists put <- puts, take <- takes ::
              put.agent == pair.from && take.agent == pair.to && Attributed(put, take, total) == pair.amount
  {
    if takes != [] {
      PairsOfTakerAre(puts, takes[0], total, pair);
      PairsOfAre(puts, takes[1..], total, pair);
    }
  }

  lemma {:induction false} PairsOfTakerAre(puts: seq<Side>, take: Side, total: nat, pair: Pair)
    requires total > 0
    ensures pair in PairsOfTaker(puts, take, total) <==>
            pair.amount > 0 && pair.to == take.agent && exists put <- puts ::
              put.agent == pair.from && Attributed(put, take, total) == pair.amount
  {
    if puts != [] { PairsOfTakerAre(puts[1..], take, total, pair); }
  }

  function AmountOf(): Side -> int { (side: Side) => side.amount }

  lemma {:induction false} TotalIsSumBy(s: seq<Side>)
    ensures Total(s) == SumBy(s, AmountOf())
  {
    if s != [] {
      assert Amounts(s)[1..] == Amounts(s[1..]);
      TotalIsSumBy(s[1..]);
    }
  }

  lemma {:induction false} OnceInTheMultiset(s: seq<Side>, side: Side)
    requires OncePerAgent(s)
    ensures multiset(s)[side] == if side in s then 1 else 0
  {
    if s != [] {
      OnceInTheMultiset(s[1..], side);
      assert s == [s[0]] + s[1..];
    }
  }

  lemma SameSidesSameTotal(a: seq<Side>, b: seq<Side>)
    requires OncePerAgent(a) && OncePerAgent(b) && forall side :: side in a <==> side in b
    ensures Total(a) == Total(b)
  {
    forall side ensures multiset(a)[side] == multiset(b)[side] {
      OnceInTheMultiset(a, side);
      OnceInTheMultiset(b, side);
    }
    TotalIsSumBy(a);
    TotalIsSumBy(b);
    assert multiset(a) == multiset(b);
    SumByPermutes(a, b, AmountOf());
  }

  /// Whatever the order of the logs, and of the agents on either side, the same amounts go between the same agents.
  lemma AttributionDoesNotDependOnOrder(
      a: seq<Log>, b: seq<Log>, book: Book, netsA: map<Key, Entry>, netsB: map<Key, Entry>, key: Key,
      x: Sides, y: Sides, pair: Pair)
    requires multiset(a) == multiset(b) && NetsOf(netsA, a, book) && NetsOf(netsB, b, book)
    requires SplitOf(netsA, key, x.puts, x.takes) && SplitOf(netsB, key, y.puts, y.takes)
    ensures pair in Pairs(x.puts, x.takes) <==> pair in Pairs(y.puts, y.takes)
  {
    hide Total, PairsOf, Attributed;
    NetsDoNotDependOnOrder(a, b, book, netsA);
    assert forall agent :: NetAt(netsA, key, agent) == NetAt(netsB, key, agent) by {
      forall agent ensures NetAt(netsA, key, agent) == NetAt(netsB, key, agent) {
        assert NetAt(netsB, key, agent) == NetOf(b, book, key, agent);
      }
    }
    SameSidesSameTotal(x.puts, y.puts);
    var total := Total(x.puts);
    if total > 0 {
      PairsOfAre(x.puts, x.takes, total, pair);
      PairsOfAre(y.puts, y.takes, total, pair);
    }
  }
}
