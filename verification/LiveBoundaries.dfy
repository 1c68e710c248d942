/**
 Which boundaries the live scorer reads (core/src/realtime/liveScoring.ts): told of blocks as the run goes,
 it may lag behind them, skip some, and learn where the run ends only when it is over. What a boundary read
 does is left out; a failed one counts as attempted, as it does in the source.
 */
module LiveBoundaries {
  import opened Basics
  import opened EpochExtent

  /// The boundaries attempted so far, and the epoch's last block once it is known.
  datatype Scoring = Scoring(attempted: seq<int>, end: Option<int>)

  /// The next boundary to read, or None when the end has been read.
  function Pending(s: Scoring, from: int, step: int): Option<int> {
    if s.attempted == [] then (if s.end.Some? && from > s.end.value then None else Some(from))
    else NextIntervalBoundary(s.attempted[|s.attempted| - 1], step, s.end)
  }

  lemma PendingRises(s: Scoring, from: int, step: int)
    requires step >= 1 && Pending(s, from, step).Some?
    ensures var at := Pending(s, from, step).value;
            var next := Pending(s.(attempted := s.attempted + [at]), from, step);
            next.Some? ==> next.value > at
  {}

  /// Reads every boundary due through a block.
  function ReadThrough(s: Scoring, from: int, step: int, through: int): Scoring
    requires step >= 1
    decreases if Pending(s, from, step).Some? then Max(0, through + 1 - Pending(s, from, step).value) else 0
  {
    var at := Pending(s, from, step);
    if at.None? || at.value > through then s
    else
      PendingRises(s, from, step);
      ReadThrough(s.(attempted := s.attempted + [at.value]), from, step, through)
  }

  function Closed(s: Scoring, from: int, step: int, final: int): Scoring
    requires step >= 1
  {
    var end := if s.end.None? || final < s.end.value then final else s.end.value;
    ReadThrough(s.(end := Some(end)), from, step, final)
  }

  /// Told of a list of blocks, each read `lag` blocks behind.
  function OnBlocks(s: Scoring, from: int, step: int, lag: nat, heads: seq<int>): Scoring
    requires step >= 1
    decreases |heads|
  {
    if heads == [] then s else OnBlocks(ReadThrough(s, from, step, heads[0] - lag), from, step, lag, heads[1..])
  }

  // ---------------------------------------------------------------- what has been read

  /// The k-th boundary, when the end may not be known.
  function Point(from: int, step: int, end: Option<int>, k: nat): int {
    if end.Some? then GridPoint(from, end.value, step, k) else from + k * step
  }

  /// The boundaries attempted are the first ones there are, none of them past the end.
  ghost predicate ReadsGrid(s: Scoring, from: int, step: int) {
    var n := |s.attempted|;
    (forall k: nat :: k < n ==> s.attempted[k] == Point(from, step, s.end, k)) &&
    (s.end.Some? && n > 0 ==> from <= s.end.value && (n >= 2 ==> s.attempted[n - 2] < s.end.value))
  }

  /// Nothing is left that is due through a block.
  ghost predicate UpTo(s: Scoring, from: int, step: int, through: int) {
    Pending(s, from, step).Some? ==> Pending(s, from, step).value > through
  }

  lemma OneRead(s: Scoring, from: int, step: int)
    requires step >= 1 && ReadsGrid(s, from, step) && Pending(s, from, step).Some?
    ensures ReadsGrid(s.(attempted := s.attempted + [Pending(s, from, step).value]), from, step)
  {
    var n := |s.attempted|;
    if n > 0 {
      assert s.attempted[n - 1] == Point(from, step, s.end, n - 1);
      assert n * step == (n - 1) * step + step;
    }
  }

  /// Reading through a block keeps the boundaries the grid's, and reads all that is due.
  lemma {:induction false} ReadThroughReads(s: Scoring, from: int, step: int, through: int)
    requires step >= 1 && ReadsGrid(s, from, step)
    ensures var s' := ReadThrough(s, from, step, through);
            ReadsGrid(s', from, step) && UpTo(s', from, step, through) && s'.end == s.end && s.attempted <= s'.attempted
    ensures var s' := ReadThrough(s, from, step, through);
            |s'.attempted| > |s.attempted| ==> s'.attempted[|s'.attempted| - 1] <= through
    decreases if Pending(s, from, step).Some? then Max(0, through + 1 - Pending(s, from, step).value) else 0
  {
    hide ReadsGrid, NextIntervalBoundary;
    var at := Pending(s, from, step);
    if at.Some? && at.value <= through {
      PendingRises(s, from, step);
      OneRead(s, from, step);
      ReadThroughReads(s.(attempted := s.attempted + [at.value]), from, step, through);
    }
  }

  lemma {:induction false} OnBlocksReads(s: Scoring, from: int, step: int, lag: nat, heads: seq<int>, most: int)
    requires step >= 1 && ReadsGrid(s, from, step) && forall h <- heads :: h - lag <= most
    requires s.attempted != [] ==> s.attempted[|s.attempted| - 1] <= most
    ensures var s' := OnBlocks(s, from, step, lag, heads);
            ReadsGrid(s', from, step) && s'.end == s.end &&
            (s'.attempted != [] ==> s'.attempted[|s'.attempted| - 1] <= most)
    decreases |heads|
  {
    hide ReadsGrid, ReadThrough;
    if heads != [] {
      assert heads[0] in heads && forall h <- heads[1..] :: h in heads;
      ReadThroughReads(s, from, step, heads[0] - lag);
      OnBlocksReads(ReadThrough(s, from, step, heads[0] - lag), from, step, lag, heads[1..], most);
    }
  }

  // ---------------------------------------------------------------- the end

  /// The boundaries of a run that ends at `to`: the epoch's grid, or its first block alone.
  function WholeGrid(from: int, to: int, step: int): seq<int>
    requires step >= 1
  {
    if from < to then Grid(from, to, step) else if from == to then [from] else []
  }

  /// Bringing the end forward to a block nothing was read past changes none of the boundaries read.
  lemma EndBroughtForward(s: Scoring, from: int, step: int, end: int)
    requires step >= 1 && ReadsGrid(s, from, step) && (s.end.Some? ==> end <= s.end.value)
    requires s.attempted != [] ==> s.attempted[|s.attempted| - 1] <= end
    ensures ReadsGrid(s.(end := Some(end)), from, step)
  {
    var n := |s.attempted|;
    forall k: nat | k < n ensures s.attempted[k] == GridPoint(from, end, step, k) <= end {
      AttemptedBelow(s, from, step, end, k);
    }
    if n > 0 { assert 0 * step == 0; }
    if n >= 2 { Product(n - 2, n - 1, step); }
  }

  lemma AttemptedBelow(s: Scoring, from: int, step: int, end: int, k: nat)
    requires step >= 1 && ReadsGrid(s, from, step) && (s.end.Some? ==> end <= s.end.value)
    requires k < |s.attempted| && s.attempted[|s.attempted| - 1] <= end
    ensures s.attempted[k] == GridPoint(from, end, step, k) <= end
  {
    var n := |s.attempted|;
    assert s.attempted[n - 1] == Point(from, step, s.end, n - 1);
    Product(k, n - 1, step);
  }

  /// With nothing left to read up to the end, all of it has been read.
  lemma AllRead(s: Scoring, from: int, step: int)
    requires step >= 1 && s.end.Some? && ReadsGrid(s, from, step) && UpTo(s, from, step, s.end.value)
    ensures s.attempted == WholeGrid(from, s.end.value, step)
  {
    var n, to := |s.attempted|, s.end.value;
    if n > 0 {
      assert s.attempted[n - 1] == GridPoint(from, to, step, n - 1) >= to;
      if n >= 2 {
        assert s.attempted[n - 2] == GridPoint(from, to, step, n - 2) < to;
      } else {
        assert 0 * step == 0;
      }
      if from < to { SizeIs(from, to, step, n); }
    }
  }

  lemma SizeIs(from: int, to: int, step: int, n: nat)
    requires step >= 1 && from < to && n >= 2 && from + (n - 2) * step < to <= from + (n - 1) * step
    ensures GridSize(from, to, step) == n
  {
    var m := GridSize(from, to, step);
    GridSizeExact(from, to, step);
    if m < n { Product(m - 1, n - 2, step); }
    if n < m { Product(n - 1, m - 2, step); }
  }

  /**
   However the blocks came, behind whatever lag, once the run is closed at a block none of them is past, the
   boundaries read are the whole grid from its first block to its end: the budget's, or where it was cut.
   */
  lemma ClosedRunReadsTheGrid(from: int, step: int, lag: nat, end: Option<int>, heads: seq<int>, final: int)
    requires step >= 1 && forall h <- heads :: h - lag <= final
    ensures var s := OnBlocks(Scoring([], end), from, step, lag, heads);
            var to := if end.Some? then Min(end.value, final) else final;
            Closed(s, from, step, final).attempted == WholeGrid(from, to, step)
  {
    var s := OnBlocks(Scoring([], end), from, step, lag, heads);
    var to := if end.Some? then Min(end.value, final) else final;
    OnBlocksReads(Scoring([], end), from, step, lag, heads, final);
    LastIsAtMostEnd(s, from, step);
    EndBroughtForward(s, from, step, to);
    ReadThroughReads(s.(end := Some(to)), from, step, final);
    AllRead(Closed(s, from, step, final), from, step);
  }

  lemma LastIsAtMostEnd(s: Scoring, from: int, step: int)
    requires ReadsGrid(s, from, step)
    ensures s.end.Some? && s.attempted != [] ==> s.attempted[|s.attempted| - 1] <= s.end.value
  {}

  /// Before the end, what is read depends on the furthest block alone: every boundary through it, and no other.
  lemma LaggingReadsTheSame(from: int, step: int, lag: nat, end: Option<int>, heads: seq<int>, most: int)
    requires step >= 1 && most in heads && forall h <- heads :: h <= most
    ensures OnBlocks(Scoring([], end), from, step, lag, heads) == ReadThrough(Scoring([], end), from, step, most - lag)
  {
    OnBlocksIsFurthest(Scoring([], end), from, step, lag, heads, most);
  }

  lemma {:induction false} OnBlocksIsFurthest(s: Scoring, from: int, step: int, lag: nat, heads: seq<int>, most: int)
    requires step >= 1 && most in heads && forall h <- heads :: h <= most
    ensures OnBlocks(s, from, step, lag, heads) == ReadThrough(s, from, step, most - lag)
    decreases |heads|
  {
    var first := ReadThrough(s, from, step, heads[0] - lag);
    assert heads[0] in heads && forall h <- heads[1..] :: h in heads;
    ReadFurther(s, from, step, heads[0] - lag, most - lag);
    if most in heads[1..] {
      OnBlocksIsFurthest(first, from, step, lag, heads[1..], most);
    } else {
      assert heads[0] == most;
      ReadsAllDue(s, from, step, most - lag);
      NothingMore(first, from, step, lag, heads[1..], most);
    }
  }

  /// Reading in two goes is reading in one.
  lemma {:induction false} ReadFurther(s: Scoring, from: int, step: int, through: int, further: int)
    requires step >= 1 && through <= further
    ensures ReadThrough(ReadThrough(s, from, step, through), from, step, further) == ReadThrough(s, from, step, further)
    decreases if Pending(s, from, step).Some? then Max(0, through + 1 - Pending(s, from, step).value) else 0
  {
    hide Pending;
    var at := Pending(s, from, step);
    if at.Some? && at.value <= through {
      PendingRises(s, from, step);
      ReadFurther(s.(attempted := s.attempted + [at.value]), from, step, through, further);
    }
  }

  lemma {:induction false} ReadsAllDue(s: Scoring, from: int, step: int, through: int)
    requires step >= 1
    ensures UpTo(ReadThrough(s, from, step, through), from, step, through)
    decreases if Pending(s, from, step).Some? then Max(0, through + 1 - Pending(s, from, step).value) else 0
  {
    var at := Pending(s, from, step);
    if at.Some? && at.value <= through {
      PendingRises(s, from, step);
      ReadsAllDue(s.(attempted := s.attempted + [at.value]), from, step, through);
    }
  }

  lemma ReadsNoFurther(s: Scoring, from: int, step: int, through: int, further: int)
    requires step >= 1 && through <= further && UpTo(s, from, step, further)
    ensures ReadThrough(s, from, step, through) == s
  {}

  lemma {:induction false} NothingMore(s: Scoring, from: int, step: int, lag: nat, heads: seq<int>, most: int)
    requires step >= 1 && UpTo(s, from, step, most - lag) && forall h <- heads :: h <= most
    ensures OnBlocks(s, from, step, lag, heads) == s
    decreases |heads|
  {
    if heads != [] {
      assert heads[0] in heads && forall h <- heads[1..] :: h in heads;
      ReadsNoFurther(s, from, step, heads[0] - lag, most - lag);
      NothingMore(s, from, step, lag, heads[1..], most);
    }
  }

  // ---------------------------------------------------------------- the object

  class LiveScorer {
    const runStartBlock: int
    const intervalBlocks: int
    const readLagBlocks: nat
    var attempted: seq<int>
    var endBlock: Option<int>

    function Value(): Scoring
      reads this
    {
      Scoring(attempted, endBlock)
    }

    constructor (runStartBlock: int, intervalBlocks: int, readLagBlocks: nat, endBlock: Option<int>)
      ensures Value() == Scoring([], endBlock)
      ensures this.runStartBlock == runStartBlock && this.intervalBlocks == intervalBlocks &&
              this.readLagBlocks == readLagBlocks
    {
      this.runStartBlock, this.intervalBlocks, this.readLagBlocks := runStartBlock, intervalBlocks, readLagBlocks;
      attempted, this.endBlock := [], endBlock;
    }

    /// Boundaries are read only with an interval of a block or more.
    predicate Enabled() { intervalBlocks >= 1 }

    method OnBlock(blockNumber: int)
      modifies this
      ensures Value() ==
                if intervalBlocks >= 1
                then ReadThrough(old(Value()), runStartBlock, intervalBlocks, blockNumber - readLagBlocks)
                else old(Value())
    {
      if !Enabled() { return; }
      ReadAllThrough(blockNumber - readLagBlocks);
    }

    method ReadAllThrough(through: int)
      requires Enabled()
      modifies this`attempted
      ensures Value() == ReadThrough(old(Value()), runStartBlock, intervalBlocks, through)
    {
      var at := Pending(Value(), runStartBlock, intervalBlocks);
      while at.Some? && at.value <= through
        invariant at == Pending(Value(), runStartBlock, intervalBlocks)
        invariant endBlock == old(endBlock)
        invariant ReadThrough(Value(), runStartBlock, intervalBlocks, through) ==
                    old(ReadThrough(Value(), runStartBlock, intervalBlocks, through))
        decreases if at.Some? then Max(0, through + 1 - at.value) else 0
      {
        PendingRises(Value(), runStartBlock, intervalBlocks);
        attempted := attempted + [at.value];
        at := Pending(Value(), runStartBlock, intervalBlocks);
      }
    }

    /// The run is over: the end is known, and is read without a lag.
    method Close(finalBlock: int)
      modifies this
      ensures Value() ==
                if intervalBlocks >= 1 then Closed(old(Value()), runStartBlock, intervalBlocks, finalBlock)
                else old(Value())
    {
      if !Enabled() { return; }
      if endBlock.None? || finalBlock < endBlock.value { endBlock := Some(finalBlock); }
      ReadAllThrough(finalBlock);
    }
  }
}
