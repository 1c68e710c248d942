/**
 Rolling the run directory while the chain keeps going (core/src/segments.ts, class SegmentedRun): the
 day grid, the index of segments, and a restart that resumes from a saved checkpoint.

 Times are milliseconds as exact reals. A directory is known by the day it was named after and its
 segment number; the index finds the current entry by it.
 */
module PeriodSegments {
  import opened Basics

  datatype Dir = Dir(day: int, segment: nat)

  /// The segment's record in the period index. `agents` are the records the caller scored.
  datatype Entry = Entry(
    seed: nat, dir: Dir, fromBlock: int, toBlock: int, startedAt: real, endedAt: Option<real>, agents: seq<string>)

  /// What a checkpoint records. `nextRoll` is None when no roll is scheduled yet.
  datatype Saved = Saved(
    segment: nat, dir: Dir, startedAt: real, startBlock: int, period: Option<real>, nextRoll: Option<real>)

  /// A run in progress: what is saved, and the index.
  datatype Run = Run(at: Saved, index: seq<Entry>)

  function DayOf(ms: real): int { (ms / 86400000.0).Floor }

  // ---------------------------------------------------------------- the day grid

  /// The end of the day that contains `now` (sdk/src/periodClock.ts).
  function NextDayBoundary(origin: real, dayMs: real, now: real): real
    requires dayMs > 0.0
  {
    GridPoint(origin, dayMs, Max(0, ((now - origin) / dayMs).Floor) + 1)
  }

  function GridPoint(origin: real, dayMs: real, n: int): real { origin + n as real * dayMs }

  lemma GridPointsRise(origin: real, dayMs: real, m: int, n: int)
    requires dayMs > 0.0
    ensures m <= n ==> GridPoint(origin, dayMs, m) <= GridPoint(origin, dayMs, n)
    ensures m < n ==> GridPoint(origin, dayMs, m) < GridPoint(origin, dayMs, n)
  {
    if m < n { assert (n - m) as real * dayMs > 0.0; }
  }

  lemma Ratio(a: real, d: real)
    requires d > 0.0
    ensures a / d * d == a
  {}

  /// It is the least point of the grid strictly after `now`, days counting from 1.
  lemma NextDayBoundaryIsNext(origin: real, dayMs: real, now: real, n: int)
    requires dayMs > 0.0 && n >= 1
    ensures NextDayBoundary(origin, dayMs, now) > now
    ensures GridPoint(origin, dayMs, n) > now ==> NextDayBoundary(origin, dayMs, now) <= GridPoint(origin, dayMs, n)
  {
    var q := (now - origin) / dayMs;
    var k := Max(0, q.Floor);
    Ratio(now - origin, dayMs);
    assert q < (k + 1) as real;
    Scale(q, (k + 1) as real, dayMs);
    assert now - origin < (k + 1) as real * dayMs;
    if k >= 1 { Scale(k as real, q, dayMs); }
    GridPointsRise(origin, dayMs, k + 1, n);
    if n <= k {
      GridPointsRise(origin, dayMs, n, k);
    }
  }

  lemma Scale(a: real, b: real, d: real)
    requires d > 0.0 && a <= b
    ensures a * d <= b * d && (a < b ==> a * d < b * d)
  {}

  ghost predicate OnGrid(origin: real, dayMs: real, at: real) {
    exists n: int :: n >= 1 && at == GridPoint(origin, dayMs, n)
  }

  // ---------------------------------------------------------------- the index

  /// The first entry of the current directory, or the index's length.
  function Find(index: seq<Entry>, dir: Dir): (k: nat)
    ensures k <= |index| && (k < |index| ==> index[k].dir == dir)
    ensures forall j :: 0 <= j < k ==> index[j].dir != dir
  {
    if index == [] then 0 else if index[0].dir == dir then 0 else 1 + Find(index[1..], dir)
  }

  /// `writeIndex`: the current segment has an entry.
  function Listed(r: Run): Run {
    var s := r.at;
    if Find(r.index, s.dir) < |r.index| then r
    else r.(index := r.index + [Entry(s.segment, s.dir, s.startBlock, s.startBlock, s.startedAt, None, [])])
  }

  /// `closeIndexEntry`: the current segment's entry is written anew, ending at `block`.
  function Closed(r: Run, block: int, agents: seq<string>, clock: real): Run {
    var s := r.at;
    var entry := Entry(s.segment, s.dir, s.startBlock, block, s.startedAt, Some(clock), agents);
    var k := Find(r.index, s.dir);
    r.(index := if k < |r.index| then r.index[k := entry] else r.index + [entry])
  }

  // ---------------------------------------------------------------- the operations

  function Begin(now: real): Run {
    Listed(Run(Saved(0, Dir(DayOf(now), 0), now, 0, None, None), []))
  }

  function NoteFirstBlock(r: Run, dayMs: real, block: int, now: real): Run
    requires dayMs > 0.0
  {
    if r.at.startBlock != 0 then r
    else Listed(r.(at := r.at.(startBlock := block, startedAt := now, period := Some(now),
                               nextRoll := Some(NextDayBoundary(now, dayMs, now)))))
  }

  predicate DueToRoll(r: Run, now: real) {
    r.at.startBlock != 0 && r.at.nextRoll.Some? && now >= r.at.nextRoll.value
  }

  function Roll(r: Run, dayMs: real, block: int, agents: seq<string>, now: real, clock: real): Run
    requires dayMs > 0.0
  {
    var c := Closed(r, block, agents, clock);
    var segment := r.at.segment + 1;
    var origin := if r.at.period.Some? then r.at.period.value else now;
    Listed(Run(Saved(segment, Dir(DayOf(now), segment), now, block, r.at.period,
                     Some(NextDayBoundary(origin, dayMs, now))), c.index))
  }

  function Finish(r: Run, block: int, agents: seq<string>, clock: real): Run { Closed(r, block, agents, clock) }

  /// The index a restart reads back: segments after the checkpoint's dropped, the current one open again.
  function Reopened(index: seq<Entry>, s: Saved): seq<Entry> {
    if index == [] then []
    else
      var e := index[0];
      (if e.seed > s.segment then []
       else if e.dir == s.dir then [e.(toBlock := e.fromBlock, endedAt := None, agents := [])]
       else [e]) + Reopened(index[1..], s)
  }

  function Resume(s: Saved, index: seq<Entry>): Run { Listed(Run(s, Reopened(index, s))) }

  // ---------------------------------------------------------------- what every run keeps

  /// One entry per segment, numbered in order, each ending where the next begins. (Until it is closed
  /// the first entry may still carry the block it was listed with, before the first block was known.)
  ghost predicate IndexInv(r: Run) {
    var s, index := r.at, r.index;
    |index| == s.segment + 1 && s.dir.segment == s.segment && index[s.segment].dir == s.dir &&
    (forall i :: 0 <= i < |index| ==> index[i].seed == i == index[i].dir.segment) &&
    (forall i :: 0 <= i < s.segment ==> index[i].endedAt.Some? && index[i].toBlock == index[i + 1].fromBlock) &&
    (s.segment > 0 ==> s.startBlock > 0 && index[s.segment].fromBlock == s.startBlock)
  }

  /// A scheduled roll lies on the day grid once the period's clock has started, and after the moment
  /// the segment opened.
  ghost predicate GridInv(r: Run, dayMs: real)
    requires dayMs > 0.0
  {
    (r.at.period.Some? ==> r.at.nextRoll.Some? && OnGrid(r.at.period.value, dayMs, r.at.nextRoll.value)) &&
    (r.at.nextRoll.Some? ==> r.at.nextRoll.value > r.at.startedAt)
  }

  lemma FindCurrent(r: Run)
    requires IndexInv(r)
    ensures Find(r.index, r.at.dir) == r.at.segment
  {}

  lemma NewDirIsNew(index: seq<Entry>, dir: Dir)
    requires forall i :: 0 <= i < |index| ==> index[i].dir.segment == i
    requires dir.segment == |index|
    ensures Find(index, dir) == |index|
  {}

  lemma BeginHolds(now: real, dayMs: real)
    requires dayMs > 0.0
    ensures IndexInv(Begin(now)) && GridInv(Begin(now), dayMs)
    ensures Begin(now).at == Saved(0, Dir(DayOf(now), 0), now, 0, None, None)
  {}

  lemma NoteKeeps(r: Run, dayMs: real, block: int, now: real)
    requires dayMs > 0.0 && IndexInv(r) && GridInv(r, dayMs)
    ensures IndexInv(NoteFirstBlock(r, dayMs, block, now)) && GridInv(NoteFirstBlock(r, dayMs, block, now), dayMs)
    ensures NoteFirstBlock(r, dayMs, block, now).index == r.index
  {
    FindCurrent(r);
    NextDayBoundaryIsNext(now, dayMs, now, 1);
  }

  /// A roll lands on the grid, is never due at the moment it happened however many days were missed,
  /// and rewrites no entry but the one it closes.
  lemma RollKeeps(r: Run, dayMs: real, block: int, agents: seq<string>, now: real, clock: real)
    requires dayMs > 0.0 && block > 0 && IndexInv(r) && GridInv(r, dayMs)
    ensures var r' := Roll(r, dayMs, block, agents, now, clock);
            IndexInv(r') && GridInv(r', dayMs) && !DueToRoll(r', now) &&
            r'.index[..r.at.segment] == r.index[..r.at.segment] &&
            r'.index[r.at.segment] == Entry(r.at.segment, r.at.dir, r.at.startBlock, block, r.at.startedAt,
                                            Some(clock), agents)
  {
    FindCurrent(r);
    var c := Closed(r, block, agents, clock);
    NewDirIsNew(c.index, Dir(DayOf(now), r.at.segment + 1));
    var origin := if r.at.period.Some? then r.at.period.value else now;
    NextDayBoundaryIsNext(origin, dayMs, now, 1);
  }

  lemma FinishKeeps(r: Run, dayMs: real, block: int, agents: seq<string>, clock: real)
    requires dayMs > 0.0 && IndexInv(r) && GridInv(r, dayMs)
    ensures IndexInv(Finish(r, block, agents, clock)) && GridInv(Finish(r, block, agents, clock), dayMs)
    ensures Finish(r, block, agents, clock).index[..r.at.segment] == r.index[..r.at.segment]
  {
    FindCurrent(r);
  }

  /// A stall rolls once: after a roll at `before`, the next is due only once a day of the grid has ended.
  lemma OneRollPerDay(r: Run, dayMs: real, block: int, agents: seq<string>, before: real, clock: real, now: real)
    requires dayMs > 0.0 && block > 0 && IndexInv(r) && GridInv(r, dayMs) && r.at.period.Some?
    requires DueToRoll(Roll(r, dayMs, block, agents, before, clock), now)
    ensures exists n: int :: n >= 1 && before < GridPoint(r.at.period.value, dayMs, n) <= now
  {
    RollKeeps(r, dayMs, block, agents, before, clock);
    var origin := r.at.period.value;
    var next := NextDayBoundary(origin, dayMs, before);
    NextDayBoundaryIsNext(origin, dayMs, before, 1);
    var n := Max(0, ((before - origin) / dayMs).Floor) + 1;
    assert next == GridPoint(origin, dayMs, n);
  }

  // ---------------------------------------------------------------- what each operation leaves

  /// The UTC day of a moment in milliseconds.
  lemma DayHoldsTheMoment(ms: real)
    ensures DayOf(ms) as real * 86400000.0 <= ms < (DayOf(ms) + 1) as real * 86400000.0
  {
    Ratio(ms, 86400000.0);
  }

  /**
   The first block starts the period's clock: the segment starts there, the first roll is one day on and due from
   that moment and not before, and no later first block changes any of it.
   */
  lemma FirstBlockStartsThePeriod(r: Run, dayMs: real, block: int, now: real, t: real)
    requires dayMs > 0.0 && IndexInv(r) && r.at.startBlock == 0 && block != 0
    ensures var noted := NoteFirstBlock(r, dayMs, block, now);
            noted == Run(Saved(r.at.segment, r.at.dir, now, block, Some(now), Some(now + dayMs)), r.index) &&
            (DueToRoll(noted, t) <==> t >= now + dayMs) && !DueToRoll(r, t) &&
            forall later, at :: NoteFirstBlock(noted, dayMs, later, at) == noted
  {
    FindCurrent(r);
    assert (now - now) / dayMs == 0.0;
  }

  /**
   A roll closes the day at its block and opens the next one there, for the period that was running; it is next due
   at the first moment after this one that is a whole number of days from the period's start, and not before.
   */
  lemma RollOpensTheNextDay(r: Run, dayMs: real, block: int, agents: seq<string>, now: real, clock: real, t: real)
    requires dayMs > 0.0 && block > 0 && IndexInv(r)
    ensures var rolled, next := Roll(r, dayMs, block, agents, now, clock), r.at.segment + 1;
            var origin := if r.at.period.Some? then r.at.period.value else now;
            var dir := Dir(DayOf(now), next);
            rolled.at.nextRoll.Some? &&
            var due := rolled.at.nextRoll.value;
            rolled.at == Saved(next, dir, now, block, r.at.period, Some(due)) && due > now &&
            var days := ((due - origin) / dayMs).Floor;
            days >= 1 && due == origin + days as real * dayMs && (days > 1 ==> due - dayMs <= now) &&
            (DueToRoll(rolled, t) <==> t >= due) &&
            rolled.index == r.index[..r.at.segment] +
              [Entry(r.at.segment, r.at.dir, r.at.startBlock, block, r.at.startedAt, Some(clock), agents),
               Entry(next, dir, block, block, now, None, [])]
  {
    FindCurrent(r);
    NewDirIsNew(Closed(r, block, agents, clock).index, Dir(DayOf(now), r.at.segment + 1));
    var origin := if r.at.period.Some? then r.at.period.value else now;
    NextDayBoundaryIsNext(origin, dayMs, now, 1);
    var n := Max(0, ((now - origin) / dayMs).Floor) + 1;
    if n > 1 { NextDayBoundaryIsNext(origin, dayMs, now, n - 1); }
    WholeDays(n, dayMs);
    assert NextDayBoundary(origin, dayMs, now) - origin == n as real * dayMs;
    assert GridPoint(origin, dayMs, n - 1) == GridPoint(origin, dayMs, n) - dayMs;
  }

  lemma WholeDays(n: int, dayMs: real)
    requires dayMs > 0.0
    ensures (n as real * dayMs / dayMs).Floor == n
  {
    assert n as real * dayMs / dayMs == n as real;
  }

  /// Finishing closes the last day and leaves the rest.
  lemma FinishClosesTheDay(r: Run, block: int, agents: seq<string>, clock: real)
    requires IndexInv(r)
    ensures Finish(r, block, agents, clock) ==
            r.(index := r.index[..r.at.segment] +
                 [Entry(r.at.segment, r.at.dir, r.at.startBlock, block, r.at.startedAt, Some(clock), agents)])
  {
    FindCurrent(r);
  }

  // ---------------------------------------------------------------- restart

  /// The index written by a run that got at least as far as the checkpoint, through it.
  ghost predicate Continues(index: seq<Entry>, s: Saved, closed: seq<Entry>) {
    |closed| == s.segment < |index| && index[..s.segment] == closed && index[s.segment].dir == s.dir &&
    (forall i :: 0 <= i < |index| ==> index[i].seed == i == index[i].dir.segment) &&
    (s.segment > 0 ==> s.startBlock > 0 && index[s.segment].fromBlock == s.startBlock)
  }

  lemma {:induction false} ReopenedDrops(index: seq<Entry>, s: Saved)
    requires forall i :: 0 <= i < |index| ==> index[i].seed > s.segment
    ensures Reopened(index, s) == []
  {
    if index != [] { ReopenedDrops(index[1..], s); }
  }

  lemma {:induction false} ReopenedConcat(a: seq<Entry>, b: seq<Entry>, s: Saved)
    requires forall i :: 0 <= i < |a| ==> a[i].seed <= s.segment && a[i].dir != s.dir
    ensures Reopened(a + b, s) == a + Reopened(b, s)
    decreases |a|
  {
    if a == [] {
      Units(b);
      Units(Reopened(b, s));
    } else {
      assert (a + b)[0] == a[0] && (a + b)[1..] == a[1..] + b;
      ReopenedConcat(a[1..], b, s);
      Assoc([a[0]], a[1..], Reopened(b, s));
      assert [a[0]] + a[1..] == a;
    }
  }

  /// A restart restores exactly what was saved, keeps the closed days and opens the current one again.
  lemma ResumeRestores(s: Saved, index: seq<Entry>, closed: seq<Entry>)
    requires Continues(index, s, closed)
    ensures var r := Resume(s, index);
            r.at == s &&
            r.index == closed +
              [index[s.segment].(toBlock := index[s.segment].fromBlock, endedAt := None, agents := [])]
  {
    var now, later := index[s.segment], index[s.segment + 1..];
    assert index == closed + ([now] + later);
    assert forall i :: 0 <= i < |closed| ==> closed[i] == index[i];
    ReopenedConcat(closed, [now] + later, s);
    assert ([now] + later)[1..] == later;
    forall i | 0 <= i < |later| ensures later[i].seed > s.segment { assert later[i] == index[s.segment + 1 + i]; }
    ReopenedDrops(later, s);
    var open := now.(toBlock := now.fromBlock, endedAt := None, agents := []);
    assert Reopened(index, s) == closed + [open];
    assert s.segment == |closed| && (closed + [open])[s.segment].dir == s.dir;
  }

  /**
   A crash leaves no trace once the segment is closed: resumed from a checkpoint with whatever later
   index the dead coordinator left, the next roll gives the run it would have given without the crash.
   */
  lemma ResumeThenRoll(r: Run, later: seq<Entry>, dayMs: real, block: int, agents: seq<string>, now: real, clock: real)
    requires dayMs > 0.0 && IndexInv(r) && Continues(later, r.at, r.index[..r.at.segment])
    ensures Roll(Resume(r.at, later), dayMs, block, agents, now, clock) == Roll(r, dayMs, block, agents, now, clock)
    ensures Finish(Resume(r.at, later), block, agents, clock) == Finish(r, block, agents, clock)
  {
    var k := r.at.segment;
    ResumeRestores(r.at, later, r.index[..k]);
    var resumed := Resume(r.at, later);
    FindCurrent(r);
    FindAt(resumed.index, k, r.at.dir);
    var entry := Entry(k, r.at.dir, r.at.startBlock, block, r.at.startedAt, Some(clock), agents);
    assert resumed.index[k := entry] == r.index[..k] + [entry] == r.index[k := entry];
  }

  lemma FindAt(index: seq<Entry>, k: nat, dir: Dir)
    requires k < |index| && index[k].dir == dir && forall j :: 0 <= j < k ==> index[j].dir != dir
    ensures Find(index, dir) == k
  {}

  // ---------------------------------------------------------------- whole periods, crashes included

  /// A saved checkpoint. `closed` is a history variable: the days that were over when it was saved.
  datatype Checkpoint = Checkpoint(state: Saved, closed: seq<Entry>)

  datatype Period = Period(live: Run, saved: seq<Checkpoint>)

  datatype Event =
    | FirstBlock(block: int, now: real)
    | RollAt(block: int, agents: seq<string>, now: real, clock: real)
    | FinishAt(block: int, agents: seq<string>, clock: real)
    | Save
    | Crash(back: nat)  // resume from the checkpoint this many before the last

  /// The coordinator rolls at a block of the chain; a crash needs a checkpoint to resume from.
  predicate Possible(p: Period, e: Event) {
    (e.RollAt? ==> e.block > 0) && (e.Crash? ==> e.back < |p.saved|)
  }

  function Next(p: Period, dayMs: real, e: Event): Period
    requires dayMs > 0.0 && Possible(p, e)
  {
    match e
    case FirstBlock(block, now) => p.(live := NoteFirstBlock(p.live, dayMs, block, now))
    case RollAt(block, agents, now, clock) => p.(live := Roll(p.live, dayMs, block, agents, now, clock))
    case FinishAt(block, agents, clock) => p.(live := Finish(p.live, block, agents, clock))
    case Save => p.(saved := p.saved + [Checkpoint(p.live.at, p.live.index[..Min(p.live.at.segment, |p.live.index|)])])
    case Crash(back) =>
      var k := |p.saved| - 1 - back;
      Period(Resume(p.saved[k].state, p.live.index), p.saved[..k + 1])
  }

  ghost predicate PeriodInv(p: Period, dayMs: real)
    requires dayMs > 0.0
  {
    IndexInv(p.live) && GridInv(p.live, dayMs) &&
    (forall k :: 0 <= k < |p.saved| ==>
       Continues(p.live.index, p.saved[k].state, p.saved[k].closed) &&
       GridInv(Run(p.saved[k].state, []), dayMs) &&
       p.saved[k].state.dir.segment == p.saved[k].state.segment) &&
    (forall j, k :: 0 <= j < k < |p.saved| ==> p.saved[j].state.segment <= p.saved[k].state.segment)
  }

  /// A change that keeps the closed days and the current entry's place keeps every checkpoint usable.
  lemma StillContinues(before: Run, after: Run, s: Saved, closed: seq<Entry>)
    requires IndexInv(before) && IndexInv(after) && Continues(before.index, s, closed)
    requires before.at.segment <= after.at.segment
    requires after.index[..before.at.segment] == before.index[..before.at.segment]
    requires after.index[before.at.segment].dir == before.at.dir
    requires after.index[before.at.segment].fromBlock == before.at.startBlock || before.at.segment == 0
    ensures Continues(after.index, s, closed)
  {
    assert s.segment <= before.at.segment;
    assert after.index[..s.segment] == after.index[..before.at.segment][..s.segment];
    if s.segment < before.at.segment {
      assert after.index[s.segment] == after.index[..before.at.segment][s.segment];
      assert before.index[s.segment] == before.index[..before.at.segment][s.segment];
    }
  }

  lemma ResumeHolds(r: Run, s: Saved, closed: seq<Entry>)
    requires IndexInv(r) && Continues(r.index, s, closed) && s.dir.segment == s.segment <= r.at.segment
    ensures IndexInv(Resume(s, r.index))
  {
    hide Resume;
    ResumeRestores(s, r.index, closed);
    assert forall i :: 0 <= i < s.segment ==> closed[i] == r.index[i];
  }

  /// A restart from one checkpoint leaves the earlier ones usable.
  lemma ResumeStillContinues(index: seq<Entry>, s: Saved, closed: seq<Entry>, earlier: Saved, closedThen: seq<Entry>)
    requires Continues(index, s, closed) && Continues(index, earlier, closedThen) && earlier.segment <= s.segment
    ensures Continues(Resume(s, index).index, earlier, closedThen)
  {
    hide Resume;
    ResumeRestores(s, index, closed);
    var after := Resume(s, index).index;
    assert forall i :: 0 <= i < s.segment ==> closed[i] == index[i];
    assert after[..earlier.segment] == index[..earlier.segment];
  }

  lemma CrashKeeps(p: Period, dayMs: real, back: nat)
    requires dayMs > 0.0 && PeriodInv(p, dayMs) && back < |p.saved|
    ensures PeriodInv(Next(p, dayMs, Crash(back)), dayMs)
    ensures var c := p.saved[|p.saved| - 1 - back];
            Next(p, dayMs, Crash(back)).live.at == c.state &&
            Next(p, dayMs, Crash(back)).live.index[..c.state.segment] == c.closed
  {
    hide Continues, OnGrid, IndexInv, Resume;
    var k := |p.saved| - 1 - back;
    var s, closed := p.saved[k].state, p.saved[k].closed;
    var p' := Next(p, dayMs, Crash(back));
    SavedAreBehind(p, dayMs, k);
    ResumeHolds(p.live, s, closed);
    ResumeRestores(s, p.live.index, closed);
    assert GridInv(Run(s, []), dayMs);
    forall j | 0 <= j < |p'.saved|
      ensures p'.saved[j] == p.saved[j] && Continues(p'.live.index, p'.saved[j].state, p'.saved[j].closed)
    {
      assert p'.saved[j] == p.saved[j];
      assert j < k ==> p.saved[j].state.segment <= s.segment;
      ResumeStillContinues(p.live.index, s, closed, p.saved[j].state, p.saved[j].closed);
    }
  }

  lemma SavedAreBehind(p: Period, dayMs: real, k: nat)
    requires dayMs > 0.0 && PeriodInv(p, dayMs) && k < |p.saved|
    ensures var c := p.saved[k];
            Continues(p.live.index, c.state, c.closed) && c.state.segment <= p.live.at.segment &&
            |c.closed| == c.state.segment < |p.live.index|
  {
    hide OnGrid;
  }

  /// Nothing a period goes through, crashes and restarts included, breaks the index or the grid.
  lemma NextKeeps(p: Period, dayMs: real, e: Event)
    requires dayMs > 0.0 && PeriodInv(p, dayMs) && Possible(p, e)
    ensures PeriodInv(Next(p, dayMs, e), dayMs)
  {
    hide Continues, Roll, NoteFirstBlock, Finish, OnGrid;
    var p' := Next(p, dayMs, e);
    match e
    case FirstBlock(block, now) => NoteKeeps(p.live, dayMs, block, now); SavedKeepNote(p, dayMs, block, now);
    case RollAt(block, agents, now, clock) =>
      RollKeeps(p.live, dayMs, block, agents, now, clock);
      RollAdvances(p.live, dayMs, block, agents, now, clock);
      forall k | 0 <= k < |p.saved| ensures Continues(p'.live.index, p.saved[k].state, p.saved[k].closed) {
        StillContinues(p.live, p'.live, p.saved[k].state, p.saved[k].closed);
      }
    case FinishAt(block, agents, clock) =>
      FinishKeeps(p.live, dayMs, block, agents, clock);
      FinishStays(p.live, block, agents, clock);
      forall k | 0 <= k < |p.saved| ensures Continues(p'.live.index, p.saved[k].state, p.saved[k].closed) {
        StillContinues(p.live, p'.live, p.saved[k].state, p.saved[k].closed);
      }
    case Save => SaveKeeps(p, dayMs);
    case Crash(back) => CrashKeeps(p, dayMs, back);
  }

  lemma RollAdvances(r: Run, dayMs: real, block: int, agents: seq<string>, now: real, clock: real)
    requires dayMs > 0.0
    ensures Roll(r, dayMs, block, agents, now, clock).at.segment == r.at.segment + 1
  {}

  lemma FinishStays(r: Run, block: int, agents: seq<string>, clock: real)
    requires IndexInv(r)
    ensures var r' := Finish(r, block, agents, clock);
            r'.at == r.at && r'.index[r.at.segment].dir == r.at.dir &&
            r'.index[r.at.segment].fromBlock == r.at.startBlock
  {
    FindCurrent(r);
  }

  lemma SavedKeepNote(p: Period, dayMs: real, block: int, now: real)
    requires dayMs > 0.0 && PeriodInv(p, dayMs)
    requires NoteFirstBlock(p.live, dayMs, block, now).index == p.live.index
    ensures forall k :: 0 <= k < |p.saved| ==>
              Continues(NoteFirstBlock(p.live, dayMs, block, now).index, p.saved[k].state, p.saved[k].closed)
  {
    hide Continues, NoteFirstBlock;
  }

  lemma SaveKeeps(p: Period, dayMs: real)
    requires dayMs > 0.0 && PeriodInv(p, dayMs)
    ensures PeriodInv(Next(p, dayMs, Save), dayMs)
  {
    hide OnGrid;
    var p' := Next(p, dayMs, Save);
    var c := Checkpoint(p.live.at, p.live.index[..p.live.at.segment]);
    assert p'.saved == p.saved + [c];
    assert Continues(p.live.index, c.state, c.closed);
    forall k | 0 <= k < |p.saved| ensures p.saved[k].state.segment <= p.live.at.segment {
      assert Continues(p.live.index, p.saved[k].state, p.saved[k].closed);
    }
  }

  /// A whole period. An event that cannot happen where it stands is skipped.
  function Lived(p: Period, dayMs: real, events: seq<Event>): Period
    requires dayMs > 0.0
    decreases |events|
  {
    if events == [] then p
    else Lived(if Possible(p, events[0]) then Next(p, dayMs, events[0]) else p, dayMs, events[1..])
  }

  lemma {:induction false} LivedKeeps(p: Period, dayMs: real, events: seq<Event>)
    requires dayMs > 0.0 && PeriodInv(p, dayMs)
    ensures PeriodInv(Lived(p, dayMs, events), dayMs)
    decreases |events|
  {
    hide PeriodInv, Next, Possible;
    if events != [] {
      if Possible(p, events[0]) { NextKeeps(p, dayMs, events[0]); }
      LivedKeeps(if Possible(p, events[0]) then Next(p, dayMs, events[0]) else p, dayMs, events[1..]);
    }
  }

  /**
   Over any sequence of first blocks, rolls, checkpoints, crashes with restarts and finishes: the index
   has one entry per segment, numbered in order, each closed one ending where the next begins; and once
   the period's clock runs every scheduled roll is a point of the day grid.
   */
  lemma EveryPeriodIsWellFormed(now: real, dayMs: real, events: seq<Event>)
    requires dayMs > 0.0
    ensures var r := Lived(Period(Begin(now), []), dayMs, events).live;
            |r.index| == r.at.segment + 1 &&
            (forall i :: 0 <= i < |r.index| ==> r.index[i].seed == i) &&
            (forall i, j :: 0 <= i < j < |r.index| ==> r.index[i].dir != r.index[j].dir) &&
            (forall i :: 0 <= i < r.at.segment ==>
               r.index[i].endedAt.Some? && r.index[i].toBlock == r.index[i + 1].fromBlock) &&
            (r.at.period.Some? ==> r.at.nextRoll.Some? && OnGrid(r.at.period.value, dayMs, r.at.nextRoll.value))
  {
    hide OnGrid, Lived;
    BeginHolds(now, dayMs);
    LivedKeeps(Period(Begin(now), []), dayMs, events);
  }

  // ---------------------------------------------------------------- the object

  class SegmentedRun {
    const dayMs: real
    var segment: nat
    var segmentDirId: Dir
    var segmentStartedAtMs: real
    var segmentStartBlock: int
    var periodStartedAtMs: Option<real>
    var nextRollAtMs: Option<real>
    var index: seq<Entry>

    function State(): Saved
      reads this
    {
      Saved(segment, segmentDirId, segmentStartedAtMs, segmentStartBlock, periodStartedAtMs, nextRollAtMs)
    }

    function Value(): Run
      reads this
    {
      Run(State(), index)
    }

    constructor (hours: real, now: real)
      requires hours > 0.0
      ensures Value() == Begin(now) && dayMs == hours * 3600000.0
    {
      dayMs := hours * 3600000.0;
      segment, segmentDirId, segmentStartedAtMs, segmentStartBlock := 0, Dir(DayOf(now), 0), now, 0;
      periodStartedAtMs, nextRollAtMs, index := None, None, [];
      new;
      WriteIndex();
    }

    constructor Resumed(hours: real, s: Saved, index: seq<Entry>)
      requires hours > 0.0
      ensures Value() == Resume(s, index) && dayMs == hours * 3600000.0
    {
      dayMs := hours * 3600000.0;
      segment, segmentDirId, segmentStartedAtMs, segmentStartBlock := s.segment, s.dir, s.startedAt, s.startBlock;
      periodStartedAtMs, nextRollAtMs := s.period, s.nextRoll;
      this.index := Reopened(index, s);
      new;
      WriteIndex();
    }

    method WriteIndex()
      modifies this`index
      ensures Value() == Listed(old(Value()))
    {
      if !(Find(index, segmentDirId) < |index|) {
        index := index +
                 [Entry(segment, segmentDirId, segmentStartBlock, segmentStartBlock, segmentStartedAtMs, None, [])];
      }
    }

    method CloseIndexEntry(atBlock: int, agents: seq<string>, clock: real)
      modifies this`index
      ensures Value() == Closed(old(Value()), atBlock, agents, clock)
    {
      var existing := Find(index, segmentDirId);
      var entry := Entry(segment, segmentDirId, segmentStartBlock, atBlock, segmentStartedAtMs, Some(clock), agents);
      if existing < |index| { index := index[existing := entry]; } else { index := index + [entry]; }
    }

    method FirstBlockSeen(blockNumber: int, atMs: real)
      requires dayMs > 0.0
      modifies this
      ensures Value() == NoteFirstBlock(old(Value()), dayMs, blockNumber, atMs)
    {
      if segmentStartBlock != 0 { return; }
      segmentStartBlock := blockNumber;
      segmentStartedAtMs := atMs;
      periodStartedAtMs := Some(atMs);
      nextRollAtMs := Some(NextDayBoundary(atMs, dayMs, atMs));
      WriteIndex();
    }

    function RollIsDue(nowMs: real): (due: bool)
      reads this
      ensures due == DueToRoll(Value(), nowMs)
    {
      segmentStartBlock != 0 && nextRollAtMs.Some? && nowMs >= nextRollAtMs.value
    }

    method RollSegment(atBlock: int, agents: seq<string>, nowMs: real, clock: real)
      requires dayMs > 0.0
      modifies this
      ensures Value() == Roll(old(Value()), dayMs, atBlock, agents, nowMs, clock)
    {
      CloseIndexEntry(atBlock, agents, clock);
      segment := segment + 1;
      segmentStartedAtMs := nowMs;
      segmentStartBlock := atBlock;
      nextRollAtMs :=
        Some(NextDayBoundary(if periodStartedAtMs.Some? then periodStartedAtMs.value else segmentStartedAtMs,
                             dayMs, segmentStartedAtMs));
      segmentDirId := Dir(DayOf(segmentStartedAtMs), segment);
      WriteIndex();
    }

    method FinishRun(atBlock: int, agents: seq<string>, clock: real)
      modifies this
      ensures Value() == Finish(old(Value()), atBlock, agents, clock)
    {
      CloseIndexEntry(atBlock, agents, clock);
    }
  }
}
