/**
 The registry section of an observation, built block by block (sdk/src/agentMarkets.ts, class
 MarketRegistryWatcher). The incremental state equals its from-scratch definition, the list it shows is
 bounded and newest first, and each block's transfers reach the ledger once however often the fetch
 fails. Runs on which the registry does not shrink.
 */
module RegistryWatcher {
  import opened Basics
  import opened StrandedFlows
  import opened StrandedLedger

  const REGISTRY_OBSERVATION_LIMIT: nat := 128
  const REGISTRY_PINNED_LIMIT: nat := 32

  datatype Entry = Entry(market: Address, creator: Address, kind: string, verified: bool)

  // ---------------------------------------------------------------- the environment's listings

  function EnvironmentCreatorsOf(entries: seq<Entry>): set<Address> {
    set e <- entries | e.kind == "erc20" && e.verified :: e.creator
  }

  /// Indices of the entries made by a creator of a verified token: from scratch, over the whole list.
  function PinnedSet(known: seq<Entry>): set<nat> {
    set i: nat | i < |known| && known[i].creator in EnvironmentCreatorsOf(known)
  }

  /// An entry is the environment's when its creator has a verified token in the list, before it or behind it.
  lemma PinnedIffCreatorHasVerifiedToken(known: seq<Entry>, k: nat)
    ensures k in PinnedSet(known) <==>
            k < |known| && exists e <- known :: e.kind == "erc20" && e.verified && e.creator == known[k].creator
  {}

  /// A set of indices below `n` in ascending order.
  function Ascending(s: set<nat>, n: nat): seq<nat> {
    if n == 0 then [] else Ascending(s, n - 1) + (if n - 1 in s then [n - 1] else [])
  }

  ghost predicate Rises(r: seq<nat>) { forall i, j :: 0 <= i < j < |r| ==> r[i] < r[j] }

  lemma {:induction false} AscendingIsSorted(s: set<nat>, n: nat)
    ensures forall i :: 0 <= i < |Ascending(s, n)| ==> Ascending(s, n)[i] < n && Ascending(s, n)[i] in s
    ensures Rises(Ascending(s, n)) && |Ascending(s, n)| <= n
  {
    if n > 0 {
      AscendingIsSorted(s, n - 1);
      var r, r0 := Ascending(s, n), Ascending(s, n - 1);
      assert forall i :: 0 <= i < |r| ==> r[i] == if i < |r0| then r0[i] else n - 1;
    }
  }

  lemma {:induction false} AscendingHasAll(s: set<nat>, n: nat, k: nat)
    requires k in s && k < n
    ensures k in Ascending(s, n)
  {
    if k < n - 1 { AscendingHasAll(s, n - 1, k); }
  }

  lemma CreatorsGrow(known: seq<Entry>, added: seq<Entry>)
    ensures EnvironmentCreatorsOf(known + added) == EnvironmentCreatorsOf(known) + EnvironmentCreatorsOf(added)
  {
    forall c
      ensures c in EnvironmentCreatorsOf(known + added) <==>
              c in EnvironmentCreatorsOf(known) + EnvironmentCreatorsOf(added)
    {
      if c in EnvironmentCreatorsOf(known) {
        var e :| e in known && e.kind == "erc20" && e.verified && e.creator == c;
        assert e in known + added;
      }
      if c in EnvironmentCreatorsOf(added) {
        var e :| e in added && e.kind == "erc20" && e.verified && e.creator == c;
        assert e in known + added;
      }
    }
  }

  /// Adding a set changes the size exactly when it adds a member.
  lemma SameSizeSameSet<T>(a: set<T>, b: set<T>)
    ensures |a + b| > |a| <==> !(b <= a)
  {
    var extra := b - a;
    assert a + b == a + extra && |a + extra| == |a| + |extra|;
  }

  /// With no new creator, the fresh entries are the only ones that can be newly pinned.
  lemma PinnedWithoutNewCreators(known: seq<Entry>, added: seq<Entry>)
    requires EnvironmentCreatorsOf(added) <= EnvironmentCreatorsOf(known)
    ensures PinnedSet(known + added) ==
              PinnedSet(known) + set i: nat | |known| <= i < |known + added| &&
                  (known + added)[i].creator in EnvironmentCreatorsOf(known)
  {
    CreatorsGrow(known, added);
    assert EnvironmentCreatorsOf(known + added) == EnvironmentCreatorsOf(known);
  }

  /// Starting over pins what was pinned already, and all else a known creator made.
  lemma PinnedAnew(known: seq<Entry>, added: seq<Entry>)
    ensures PinnedSet(known + added) ==
              PinnedSet(known) + set i: nat | 0 <= i < |known + added| &&
                  (known + added)[i].creator in EnvironmentCreatorsOf(known + added)
  {
    CreatorsGrow(known, added);
  }

  // ---------------------------------------------------------------- what is shown

  function Down(hi: nat, lo: nat): seq<nat>
    requires lo <= hi
    decreases hi - lo
  {
    if lo == hi then [] else [hi - 1] + Down(hi - 1, lo)
  }

  function Reversed(s: seq<nat>): (r: seq<nat>)
    ensures |r| == |s| && forall i :: 0 <= i < |s| ==> r[i] == s[|s| - 1 - i]
  {
    seq(|s|, i requires 0 <= i < |s| => s[|s| - 1 - i])
  }

  function LastOf(s: seq<nat>, n: nat): seq<nat> { if |s| <= n then s else s[|s| - n..] }

  function WindowStart(n: nat): nat { Max(0, n - REGISTRY_OBSERVATION_LIMIT) }

  /// The indices shown: the newest entries, then the newest of the environment's older ones.
  function Shown(known: seq<Entry>): seq<nat> {
    var start := WindowStart(|known|);
    Down(|known|, start) + Reversed(LastOf(Ascending(PinnedSet(known), start), REGISTRY_PINNED_LIMIT))
  }

  lemma {:induction false} DownIs(hi: nat, lo: nat)
    requires lo <= hi
    ensures |Down(hi, lo)| == hi - lo && forall i :: 0 <= i < hi - lo ==> Down(hi, lo)[i] == hi - 1 - i
    decreases hi - lo
  {
    if lo < hi { DownIs(hi - 1, lo); }
  }

  /// The older listings, oldest first.
  function Older(known: seq<Entry>): seq<nat> { Ascending(PinnedSet(known), WindowStart(|known|)) }

  /// The list read off by position.
  lemma ShownAt(known: seq<Entry>)
    ensures var shown, older, w := Shown(known), Older(known), |known| - WindowStart(|known|);
            |shown| == w + Min(|older|, REGISTRY_PINNED_LIMIT) &&
            (forall i :: 0 <= i < w ==> shown[i] == |known| - 1 - i) &&
            (forall i :: w <= i < |shown| ==> shown[i] == older[|older| - 1 - (i - w)])
  {
    hide Ascending, PinnedSet;
    DownIs(|known|, WindowStart(|known|));
  }

  /**
   The list is strictly newest first, so nothing is shown twice, and it holds at most 128 + 32 entries,
   each inside the window or an older listing of the environment's.
   */
  lemma ShownIsNewestFirst(known: seq<Entry>)
    ensures var shown := Shown(known);
            |shown| <= 128 + 32 &&
            (forall i, j :: 0 <= i < j < |shown| ==> shown[i] > shown[j]) &&
            (forall i :: 0 <= i < |shown| ==>
              shown[i] < |known| && (shown[i] >= |known| - 128 || shown[i] in PinnedSet(known)))
  {
    hide Ascending, PinnedSet, Shown;
    ShownAt(known);
    AscendingIsSorted(PinnedSet(known), WindowStart(|known|));
    var shown, older, w := Shown(known), Older(known), |known| - WindowStart(|known|);
    forall i, j | 0 <= i < j < |shown| ensures shown[i] > shown[j] {
      if w <= j { assert older[|older| - 1 - (j - w)] < WindowStart(|known|); }
    }
  }

  lemma WindowIsShown(known: seq<Entry>, k: nat)
    requires WindowStart(|known|) <= k < |known|
    ensures k in Shown(known)
  {
    hide Shown, PinnedSet, Ascending;
    ShownAt(known);
    assert Shown(known)[|known| - 1 - k] == k;
  }

  lemma NewestOlderAreShown(known: seq<Entry>, p: nat)
    requires p < |Older(known)| <= p + REGISTRY_PINNED_LIMIT
    ensures Older(known)[p] in Shown(known)
  {
    hide Shown, PinnedSet, Ascending;
    ShownAt(known);
    assert Shown(known)[|known| - WindowStart(|known|) + (|Older(known)| - 1 - p)] == Older(known)[p];
  }

  /// Every entry of the window is shown; a listing of the environment's is left out only when 32 newer
  /// ones outside the window are.
  lemma ShownLeavesOutOnlyOlderListings(known: seq<Entry>, k: nat)
    requires k < |known| && (k >= |known| - 128 || k in PinnedSet(known)) && k !in Shown(known)
    ensures var shown, w := Shown(known), Min(|known|, 128);
            |shown| == w + 32 &&
            forall i :: w <= i < |shown| ==> k < shown[i] && shown[i] in PinnedSet(known)
  {
    hide Ascending, PinnedSet, Shown;
    ShownAt(known);
    if k >= WindowStart(|known|) {
      WindowIsShown(known, k);
      assert false;
    } else {
      var older := Older(known);
      AscendingIsSorted(PinnedSet(known), WindowStart(|known|));
      AscendingHasAll(PinnedSet(known), WindowStart(|known|), k);
      var p :| 0 <= p < |older| && older[p] == k;
      if |older| <= p + REGISTRY_PINNED_LIMIT {
        NewestOlderAreShown(known, p);
        assert false;
      }
    }
  }

  // ---------------------------------------------------------------- the ledger's block ranges

  /// One read of the registry at a block: the entries published since the last, and whether the node
  /// answered the transfer query.
  datatype Read = Read(block: int, entries: seq<Entry>, answered: bool)

  /// What the watcher keeps between reads: the list, the last block whose transfers it fed, and the net.
  datatype Watch = Watch(known: seq<Entry>, scanned: Option<int>)

  function MarketsOf(known: seq<Entry>): set<Address> { set e <- known :: e.market }

  function NextStart(w: Watch, fromBlock: int): int {
    if w.scanned.None? then fromBlock else w.scanned.value + 1
  }

  /// The transfers of the blocks [a, b] of a chain.
  function LogsIn(chain: int -> seq<Log>, a: int, b: int): seq<Log>
    decreases b - a
  {
    if a > b then [] else chain(a) + LogsIn(chain, a + 1, b)
  }

  function AfterRead(w: Watch, fromBlock: int, r: Read): Watch {
    Watch(w.known + r.entries, if r.answered && r.block >= NextStart(w, fromBlock) then Some(r.block) else w.scanned)
  }

  /// What one read feeds the ledger for one (contract, token).
  function Fed(w: Watch, chain: int -> seq<Log>, me: Address, fromBlock: int, r: Read, k: Key): int {
    if r.answered && r.block >= NextStart(w, fromBlock)
    then NetOf(Fetched(LogsIn(chain, NextStart(w, fromBlock), r.block), me), me, MarketsOf(w.known + r.entries), k)
    else 0
  }

  function AfterReads(w: Watch, fromBlock: int, rs: seq<Read>): Watch
    decreases |rs|
  {
    if rs == [] then w else AfterReads(AfterRead(w, fromBlock, rs[0]), fromBlock, rs[1..])
  }

  function FedOver(w: Watch, chain: int -> seq<Log>, me: Address, fromBlock: int, rs: seq<Read>, k: Key): int
    decreases |rs|
  {
    if rs == [] then 0
    else Fed(w, chain, me, fromBlock, rs[0], k) +
         FedOver(AfterRead(w, fromBlock, rs[0]), chain, me, fromBlock, rs[1..], k)
  }

  /// The transfers asked for are those of every block of the range, and of no other.
  lemma {:induction false} RangeHasItsBlocks(chain: int -> seq<Log>, a: int, b: int, log: Log)
    ensures log in LogsIn(chain, a, b) <==> exists block: int :: a <= block <= b && log in chain(block)
    decreases b - a
  {
    if a <= b {
      RangeHasItsBlocks(chain, a + 1, b, log);
      RangeTurn(chain, a, b, log);
      hide LogsIn;
      if block: int :| a <= block <= b && log in chain(block) {
        if block > a { assert a + 1 <= block <= b && log in chain(block); }
      }
      if log in LogsIn(chain, a + 1, b) {
        var block: int :| a + 1 <= block <= b && log in chain(block);
        assert a <= block <= b && log in chain(block);
      }
    }
  }

  lemma RangeTurn(chain: int -> seq<Log>, a: int, b: int, log: Log)
    requires a <= b
    ensures log in LogsIn(chain, a, b) <==> log in chain(a) || log in LogsIn(chain, a + 1, b)
  {}

  /// A contract is listed when an entry of the list is at its address.
  lemma ListedIsAnEntry(known: seq<Entry>, market: Address)
    ensures market in MarketsOf(known) <==> exists e <- known :: e.market == market
  {}

  /// What a read feeds through: its own block, when it was answered for blocks not fed yet.
  lemma AnsweredReadReachesItsBlock(w: Watch, fromBlock: int, r: Read)
    ensures NextStart(AfterRead(w, fromBlock, r), fromBlock) ==
            if r.answered && r.block + 1 > NextStart(w, fromBlock) then r.block + 1 else NextStart(w, fromBlock)
    ensures AfterRead(w, fromBlock, r).known == w.known + r.entries
    ensures w.scanned.None? ==> NextStart(w, fromBlock) == fromBlock
  {}

  /// Over a run of reads: through the furthest block one was answered at.
  lemma {:induction false} ReadsReachTheFurthestAnswered(w: Watch, fromBlock: int, rs: seq<Read>)
    ensures var start, next := NextStart(w, fromBlock), NextStart(AfterReads(w, fromBlock, rs), fromBlock);
            next >= start && (forall r <- rs :: r.answered ==> r.block < next) &&
            (next > start ==> exists r <- rs :: r.answered && next == r.block + 1)
    decreases |rs|
  {
    hide NextStart;
    if rs != [] {
      AnsweredReadReachesItsBlock(w, fromBlock, rs[0]);
      ReadsReachTheFurthestAnswered(AfterRead(w, fromBlock, rs[0]), fromBlock, rs[1..]);
      assert rs == [rs[0]] + rs[1..];
    }
  }

  lemma {:induction false} LogsInConcat(chain: int -> seq<Log>, a: int, b: int, c: int)
    requires a <= b + 1 && b <= c
    ensures LogsIn(chain, a, b) + LogsIn(chain, b + 1, c) == LogsIn(chain, a, c)
    decreases b - a
  {
    if a > b {
      Units(LogsIn(chain, b + 1, c));
    } else {
      LogsInConcat(chain, a + 1, b, c);
      Assoc(chain(a), LogsIn(chain, a + 1, b), LogsIn(chain, b + 1, c));
    }
  }

  /// Transfers with a contract that is listed net alike whatever else is listed.
  lemma DeltaOfListed(log: Log, me: Address, markets: set<Address>, k: Key)
    requires me !in markets && k.market != me
    ensures Delta(log, me, markets, k) == if k.market in markets then Delta(log, me, {k.market}, k) else 0
  {}

  lemma {:induction false} NetOfListed(logs: seq<Log>, me: Address, markets: set<Address>, k: Key)
    requires me !in markets && k.market != me
    ensures NetOf(logs, me, markets, k) == if k.market in markets then NetOf(logs, me, {k.market}, k) else 0
  {
    if logs != [] {
      DeltaOfListed(logs[0], me, markets, k);
      NetOfListed(logs[1..], me, markets, k);
    }
  }

  ghost predicate MeNotListed(rs: seq<Read>, me: Address) {
    forall i :: 0 <= i < |rs| ==> me !in MarketsOf(rs[i].entries)
  }

  lemma FedOnce(w: Watch, chain: int -> seq<Log>, me: Address, fromBlock: int, r: Read, k: Key)
    requires me !in MarketsOf(w.known) && me !in MarketsOf(r.entries) && k.market != me
    ensures Fed(w, chain, me, fromBlock, r, k) ==
              if k.market in MarketsOf(w.known + r.entries)
              then NetOf(LogsIn(chain, NextStart(w, fromBlock), NextStart(AfterRead(w, fromBlock, r), fromBlock) - 1),
                         me, {k.market}, k)
              else 0
  {
    var start := NextStart(w, fromBlock);
    var markets := MarketsOf(w.known + r.entries);
    if r.answered && r.block >= start {
      var logs := LogsIn(chain, start, r.block);
      FetchedNets(logs, me, markets, k);
      NetOfListed(logs, me, markets, k);
    } else {
      assert LogsIn(chain, start, start - 1) == [];
    }
  }

  /// Once a contract is listed the net into it grows by the transfers of the blocks fed.
  lemma {:induction false} ListedIsFed(
      w: Watch, chain: int -> seq<Log>, me: Address, fromBlock: int, rs: seq<Read>, k: Key)
    requires me !in MarketsOf(w.known) && MeNotListed(rs, me) && k.market != me
    requires k.market in MarketsOf(w.known)
    ensures var end := NextStart(AfterReads(w, fromBlock, rs), fromBlock);
            NextStart(w, fromBlock) <= end &&
            FedOver(w, chain, me, fromBlock, rs, k) ==
              NetOf(LogsIn(chain, NextStart(w, fromBlock), end - 1), me, {k.market}, k)
    decreases |rs|
  {
    hide NetOf, Fed;
    if rs == [] {
      NetOfNothing(me, {k.market}, k);
      assert LogsIn(chain, NextStart(w, fromBlock), NextStart(w, fromBlock) - 1) == [];
    } else {
      var w' := AfterRead(w, fromBlock, rs[0]);
      FedOnce(w, chain, me, fromBlock, rs[0], k);
      KnownGrows(w, fromBlock, rs[0], me, k);
      assert rs[1..] == rs[1..] && forall i :: 0 <= i < |rs[1..]| ==> rs[1..][i] == rs[i + 1];
      ListedIsFed(w', chain, me, fromBlock, rs[1..], k);
      var a, b := NextStart(w, fromBlock), NextStart(w', fromBlock);
      var end := NextStart(AfterReads(w, fromBlock, rs), fromBlock);
      LogsInConcat(chain, a, b - 1, end - 1);
      NetOfConcat(LogsIn(chain, a, b - 1), LogsIn(chain, b, end - 1), me, {k.market}, k);
    }
  }

  lemma NetOfNothing(me: Address, markets: set<Address>, k: Key)
    ensures NetOf([], me, markets, k) == 0
  {}

  lemma KnownGrows(w: Watch, fromBlock: int, r: Read, me: Address, k: Key)
    requires me !in MarketsOf(w.known) && me !in MarketsOf(r.entries)
    ensures var w' := AfterRead(w, fromBlock, r);
            me !in MarketsOf(w'.known) && NextStart(w, fromBlock) <= NextStart(w', fromBlock) &&
            (k.market in MarketsOf(w.known) ==> k.market in MarketsOf(w'.known))
  {}

  /// Before a contract is listed its transfers are not fed at all.
  lemma {:induction false} UnlistedIsNotFed(
      w: Watch, chain: int -> seq<Log>, me: Address, fromBlock: int, rs: seq<Read>, k: Key)
    requires me !in MarketsOf(w.known) && MeNotListed(rs, me) && k.market != me
    requires k.market !in MarketsOf(w.known) && forall i :: 0 <= i < |rs| ==> k.market !in MarketsOf(rs[i].entries)
    ensures FedOver(w, chain, me, fromBlock, rs, k) == 0
    decreases |rs|
  {
    hide NetOf, Fed;
    if rs != [] {
      var w' := AfterRead(w, fromBlock, rs[0]);
      FedOnce(w, chain, me, fromBlock, rs[0], k);
      KnownGrows(w, fromBlock, rs[0], me, k);
      assert k.market !in MarketsOf(w'.known);
      assert forall i :: 0 <= i < |rs[1..]| ==> rs[1..][i] == rs[i + 1];
      UnlistedIsNotFed(w', chain, me, fromBlock, rs[1..], k);
    }
  }

  /// The first block whose transfers with a contract are fed: the first not fed yet when a read lists it.
  function ListedFrom(w: Watch, fromBlock: int, rs: seq<Read>, market: Address): int
    decreases |rs|
  {
    if rs == [] || market in MarketsOf(w.known) || market in MarketsOf(rs[0].entries) then NextStart(w, fromBlock)
    else ListedFrom(AfterRead(w, fromBlock, rs[0]), fromBlock, rs[1..], market)
  }

  /**
   Every block reaches the ledger once. Over a whole run of reads, whichever failed or named an old block,
   the net into a contract is that of the agent's transfers from the first block not yet fed when it was
   listed to the last one fed: no block twice, none skipped.
   */
  lemma {:induction false} LedgerIsTheNetSinceListing(
      w: Watch, chain: int -> seq<Log>, me: Address, fromBlock: int, rs: seq<Read>, k: Key)
    requires me !in MarketsOf(w.known) && MeNotListed(rs, me) && k.market != me
    ensures var start := ListedFrom(w, fromBlock, rs, k.market);
            var end := NextStart(AfterReads(w, fromBlock, rs), fromBlock);
            NextStart(w, fromBlock) <= start <= end &&
            FedOver(w, chain, me, fromBlock, rs, k) == NetOf(LogsIn(chain, start, end - 1), me, {k.market}, k)
    decreases |rs|
  {
    hide NetOf, Fed;
    if rs == [] || k.market in MarketsOf(w.known) {
      if k.market in MarketsOf(w.known) {
        ListedIsFed(w, chain, me, fromBlock, rs, k);
      } else {
        NetOfNothing(me, {k.market}, k);
        NoLogsIn(chain, NextStart(w, fromBlock));
      }
    } else {
      var r, w' := rs[0], AfterRead(w, fromBlock, rs[0]);
      FedOnce(w, chain, me, fromBlock, r, k);
      KnownGrows(w, fromBlock, r, me, k);
      assert forall i :: 0 <= i < |rs[1..]| ==> rs[1..][i] == rs[i + 1];
      ListedByRead(w, fromBlock, r, k.market);
      if k.market in MarketsOf(r.entries) {
        ListedIsFed(w', chain, me, fromBlock, rs[1..], k);
        var a, b := NextStart(w, fromBlock), NextStart(w', fromBlock);
        var end := NextStart(AfterReads(w, fromBlock, rs), fromBlock);
        LogsInConcat(chain, a, b - 1, end - 1);
        NetOfConcat(LogsIn(chain, a, b - 1), LogsIn(chain, b, end - 1), me, {k.market}, k);
      } else {
        LedgerIsTheNetSinceListing(w', chain, me, fromBlock, rs[1..], k);
      }
    }
  }

  lemma NoLogsIn(chain: int -> seq<Log>, a: int)
    ensures LogsIn(chain, a, a - 1) == []
  {}

  lemma ListedByRead(w: Watch, fromBlock: int, r: Read, market: Address)
    ensures market in MarketsOf(AfterRead(w, fromBlock, r).known) <==>
            market in MarketsOf(w.known) || market in MarketsOf(r.entries)
    ensures MarketsOf(AfterRead(w, fromBlock, r).known) == MarketsOf(w.known + r.entries)
  {}

  // ---------------------------------------------------------------- the object

  function FilterBelow(s: seq<nat>, n: nat): seq<nat> {
    if s == [] then [] else (if s[0] < n then [s[0]] else []) + FilterBelow(s[1..], n)
  }

  lemma {:induction false} FilterBelowConcat(a: seq<nat>, b: seq<nat>, n: nat)
    ensures FilterBelow(a + b, n) == FilterBelow(a, n) + FilterBelow(b, n)
  {
    if a == [] {
      Units(b);
      Units(FilterBelow(b, n));
    } else {
      assert (a + b)[0] == a[0] && (a + b)[1..] == a[1..] + b;
      FilterBelowConcat(a[1..], b, n);
      Assoc(if a[0] < n then [a[0]] else [], FilterBelow(a[1..], n), FilterBelow(b, n));
    }
  }

  lemma {:induction false} FilterAscending(s: set<nat>, n: nat, w: nat)
    requires w <= n
    ensures FilterBelow(Ascending(s, n), w) == Ascending(s, w)
    decreases n
  {
    if n > w {
      FilterAscending(s, n - 1, w);
      var last := if n - 1 in s then [n - 1] else [];
      FilterBelowConcat(Ascending(s, n - 1), last, w);
      if last != [] { assert last[1..] == []; }
      assert FilterBelow(last, w) == [];
      Units(Ascending(s, w));
    } else {
      FilterAll(s, n);
    }
  }

  lemma {:induction false} FilterAll(s: set<nat>, n: nat)
    ensures FilterBelow(Ascending(s, n), n) == Ascending(s, n)
  {
    AscendingIsSorted(s, n);
    FilterKeepsAll(Ascending(s, n), n);
  }

  lemma {:induction false} FilterKeepsAll(r: seq<nat>, n: nat)
    requires forall i :: 0 <= i < |r| ==> r[i] < n
    ensures FilterBelow(r, n) == r
  {
    if r != [] { FilterKeepsAll(r[1..], n); }
  }

  lemma ShownIs(known: seq<Entry>, shown: seq<nat>)
    requires shown == Down(|known|, WindowStart(|known|)) + Reversed(LastOf(Older(known), REGISTRY_PINNED_LIMIT))
    ensures shown == Shown(known)
  {}

  class MarketRegistryWatcher {
    const me: Address
    const fromBlock: int
    const ledger: Ledger
    var known: seq<Entry>
    var pinned: seq<nat>
    var environmentCreators: set<Address>
    var markets: set<Address>
    var scannedThroughBlock: Option<int>

    /// The incremental state is what the whole list defines.
    ghost predicate Valid()
      reads this
    {
      environmentCreators == EnvironmentCreatorsOf(known) && markets == MarketsOf(known) &&
      pinned == Ascending(PinnedSet(known), |known|)
    }

    function Watching(): Watch
      reads this
    {
      Watch(known, scannedThroughBlock)
    }

    constructor (me: Address, fromBlock: int)
      ensures Valid() && Watching() == Watch([], None) && this.me == me && this.fromBlock == fromBlock
      ensures fresh(ledger) && ledger.net == map[]
    {
      this.me, this.fromBlock := me, fromBlock;
      ledger := new Ledger();
      known, pinned, environmentCreators, markets, scannedThroughBlock := [], [], {}, {}, None;
    }

    /// Extends `pinned` over the entries from `from` on; over all of them when they bring a new creator,
    /// since a pool can be published before the token that makes its creator known.
    method PinFrom(from: nat)
      requires from <= |known| && environmentCreators == EnvironmentCreatorsOf(known[..from])
      requires pinned == Ascending(PinnedSet(known[..from]), from)
      modifies this`pinned, this`environmentCreators
      ensures environmentCreators == EnvironmentCreatorsOf(known)
      ensures pinned == Ascending(PinnedSet(known), |known|)
    {
      hide EnvironmentCreatorsOf, PinnedSet, Ascending;
      ghost var earlier, later := known[..from], known[from..];
      assert known == earlier + later;
      CreatorsGrow(earlier, later);
      var before := environmentCreators;
      SameSizeSameSet(before, EnvironmentCreatorsOf(later));
      environmentCreators := before + EnvironmentCreatorsOf(known[from..]);
      var pins := set i <- pinned :: i;
      PinsAre(PinnedSet(earlier), from);
      if |environmentCreators| > |before| {
        pins := AddPins(pins, 0);
        PinnedAnew(earlier, later);
      } else {
        pins := AddPins(pins, from);
        PinnedWithoutNewCreators(earlier, later);
      }
      assert pins == PinnedSet(known);
      pinned := Ascending(pins, |known|);
    }

    method AddPins(before: set<nat>, start: nat) returns (pins: set<nat>)
      requires start <= |known|
      ensures pins == before + set j: nat | start <= j < |known| && known[j].creator in environmentCreators
    {
      pins := before;
      for i := start to |known|
        invariant pins == before + set j: nat | start <= j < i && known[j].creator in environmentCreators
      {
        if known[i].creator in environmentCreators { pins := pins + {i}; }
      }
    }

    lemma PinsAre(s: set<nat>, n: nat)
      requires n <= |known| && s == PinnedSet(known[..n])
      ensures (set i <- Ascending(s, n) :: i) == s
    {
      AscendingIsSorted(s, n);
      forall i | i in s ensures i in Ascending(s, n) { AscendingHasAll(s, n, i); }
    }

    /// One read that found the registry no shorter. `logs` is the node's answer to the transfer query
    /// for the blocks not fed yet, or None when it failed; the query is made only when there are any.
    method ReadBlock(entries: seq<Entry>, blockNumber: int, logs: Option<seq<Log>>, ghost chain: int -> seq<Log>)
      returns (shown: seq<nat>, dropped: nat)
      requires Valid()
      requires logs.Some? ==> logs.value == Fetched(LogsIn(chain, NextStart(Watching(), fromBlock), blockNumber), me)
      modifies this, ledger
      ensures Valid() && Watching() == AfterRead(old(Watching()), fromBlock, Read(blockNumber, entries, logs.Some?))
      ensures shown == Shown(known) && dropped == |known| - |shown|
      ensures forall k :: At(ledger.net, k) ==
                At(old(ledger.net), k) +
                Fed(old(Watching()), chain, me, fromBlock, Read(blockNumber, entries, logs.Some?), k)
    {
      hide EnvironmentCreatorsOf, PinnedSet, Ascending, LogsIn, NetOf, Fetched, Shown;
      ghost var was := Watching();
      Extend(entries);
      shown, dropped := Show();
      var start := if scannedThroughBlock.None? then fromBlock else scannedThroughBlock.value + 1;
      if blockNumber >= start && logs.Some? {
        ledger.Apply(logs.value, me, markets);
        scannedThroughBlock := Some(blockNumber);
      }
    }

    method Extend(entries: seq<Entry>)
      requires Valid()
      modifies this
      ensures Valid() && known == old(known) + entries && scannedThroughBlock == old(scannedThroughBlock)
      ensures markets == MarketsOf(known)
    {
      hide EnvironmentCreatorsOf, PinnedSet, Ascending;
      var firstFresh := |known|;
      ghost var earlier := known;
      known := known + entries;
      assert known[..firstFresh] == earlier;
      markets := markets + (set e <- entries :: e.market);
      PinFrom(firstFresh);
    }

    method Show() returns (shown: seq<nat>, dropped: nat)
      requires Valid()
      ensures shown == Shown(known) && dropped == |known| - |shown|
    {
      hide EnvironmentCreatorsOf, PinnedSet, Ascending;
      var windowStart := Max(0, |known| - REGISTRY_OBSERVATION_LIMIT);
      FilterAscending(PinnedSet(known), |known|, windowStart);
      shown := Down(|known|, windowStart) + Reversed(LastOf(FilterBelow(pinned, windowStart), REGISTRY_PINNED_LIMIT));
      ShownIs(known, shown);
      ShownAt(known);
      AscendingIsSorted(PinnedSet(known), windowStart);
      dropped := |known| - |shown|;
    }
  }
}
