/**
 Where an epoch ends and which blocks its interval boundaries sit on (core/src/epochExtent.ts), and the
 coordinator's loop reduced to what decides the run's extent: which blocks its passes cover.
 */
module EpochExtent {
  import opened Basics

  /// A configured number: finite, or one of the values JSON cannot carry.
  datatype Number = Finite(v: real) | NotFinite

  /// The block the epoch ends on, or None when the run has no block budget.
  function EpochEndBlock(start: int, runBlocks: Number): Option<int> {
    if runBlocks.Finite? && runBlocks.v > 0.0 then Some(start + runBlocks.v.Floor) else None
  }

  /// What one pass of the block handler covers.
  datatype LoopStep = LoopStep(fromBlock: int, block: int, final: bool)

  function Step(lastProcessed: int, notified: int, end: Option<int>): LoopStep {
    var block := if end.None? then notified else Min(notified, end.value);
    LoopStep(lastProcessed + 1, block, end.Some? && block >= end.value)
  }

  function NextIntervalBoundary(boundary: int, interval: int, end: Option<int>): Option<int> {
    if end.Some? && boundary >= end.value then None
    else if end.None? then Some(boundary + interval)
    else Some(Min(boundary + interval, end.value))
  }

  // ---------------------------------------------------------------- the grid

  /// The k-th boundary: k intervals on, but never past the end.
  function GridPoint(from: int, to: int, step: int, k: nat): int { Min(from + k * step, to) }

  /// One boundary more than the intervals it takes to cover (from, to].
  function GridSize(from: int, to: int, step: int): nat
    requires step >= 1 && from < to
  {
    (to - from + step - 1) / step + 1
  }

  function Grid(from: int, to: int, step: int): seq<int>
    requires step >= 1 && from < to
  {
    seq(GridSize(from, to, step), k requires k >= 0 => GridPoint(from, to, step, k))
  }

  lemma Quotient(n: int, d: int)
    requires d >= 1 && n >= 0
    ensures n / d >= 0 && n / d * d <= n < n / d * d + d
  {}

  lemma Product(a: int, b: int, d: int)
    requires d >= 1 && a <= b
    ensures a * d <= b * d && (a < b ==> a * d + d <= b * d)
  {
    if a < b { Ladder(a + 1, b, d); }
  }

  lemma {:induction false} Ladder(a: int, b: int, d: int)
    requires d >= 1 && a <= b
    ensures a * d <= b * d
    decreases b - a
  {
    if a < b { Ladder(a + 1, b, d); }
  }

  /// The size is exact: the last boundary is the end, the one before it is not.
  lemma GridSizeExact(from: int, to: int, step: int)
    requires step >= 1 && from < to
    ensures var n := GridSize(from, to, step);
            n >= 2 && (n - 2) * step < to - from <= (n - 1) * step
  {
    Quotient(to - from + step - 1, step);
    var q := (to - from + step - 1) / step;
    assert (q - 1) * step == q * step - step;
  }

  lemma GridPoints(from: int, to: int, step: int, k: nat)
    requires step >= 1 && from < to && k < GridSize(from, to, step)
    ensures GridPoint(from, to, step, k) == if k + 1 < GridSize(from, to, step) then from + k * step else to
    ensures k + 1 < GridSize(from, to, step) ==> from + k * step < to
  {
    var n := GridSize(from, to, step);
    GridSizeExact(from, to, step);
    if k + 1 < n { Product(k, n - 2, step); }
  }

  /// From its first boundary to the end, every gap is the interval except a last one no longer than it.
  lemma GridIsExact(from: int, to: int, step: int)
    requires step >= 1 && from < to
    ensures var g := Grid(from, to, step);
            g[0] == from && g[|g| - 1] == to &&
            (forall k :: 0 <= k < |g| - 2 ==> g[k + 1] - g[k] == step) &&
            1 <= g[|g| - 1] - g[|g| - 2] <= step
  {
    var g := Grid(from, to, step);
    GridSizeExact(from, to, step);
    GridPoints(from, to, step, 0);
    GridPoints(from, to, step, |g| - 1);
    GridPoints(from, to, step, |g| - 2);
    assert (|g| - 1) * step == (|g| - 2) * step + step;
    forall k | 0 <= k < |g| - 2 ensures g[k + 1] - g[k] == step {
      GridPoints(from, to, step, k);
      GridPoints(from, to, step, k + 1);
      assert (k + 1) * step == k * step + step;
    }
  }

  lemma GridRises(from: int, to: int, step: int, i: nat, j: nat)
    requires step >= 1 && from < to && i < j < GridSize(from, to, step)
    ensures Grid(from, to, step)[i] < Grid(from, to, step)[j]
  {
    GridPoints(from, to, step, i);
    GridPoints(from, to, step, j);
    Product(i, j, step);
  }

  /// Stepping from one boundary reaches the next, and nothing follows the last.
  lemma NextIsNextGridPoint(from: int, to: int, step: int, k: nat)
    requires step >= 1 && from < to && k < GridSize(from, to, step)
    ensures var g := Grid(from, to, step);
            NextIntervalBoundary(g[k], step, Some(to)) == if k + 1 < |g| then Some(g[k + 1]) else None
  {
    var n := GridSize(from, to, step);
    GridPoints(from, to, step, k);
    if k + 1 < n {
      GridPoints(from, to, step, k + 1);
      GridSizeExact(from, to, step);
      assert (k + 1) * step == k * step + step;
      if k + 2 == n { assert (n - 1) * step == (k + 1) * step; }
    }
  }

  /// Every boundary of an epoch. Empty when the series is off or the window has no block after its first.
  method IntervalBoundaryBlocks(from: int, to: int, interval: Number) returns (boundaries: seq<int>)
    ensures boundaries ==
              if interval.Finite? && interval.v.Floor >= 1 && to > from then Grid(from, to, interval.v.Floor) else []
  {
    if interval.NotFinite? || interval.v.Floor < 1 { return []; }
    var step := interval.v.Floor;
    if !(to > from) { return []; }
    ghost var g := Grid(from, to, step);
    GridIsExact(from, to, step);
    boundaries := [from];
    NextIsNextGridPoint(from, to, step, 0);
    assert g[..1] == [from];
    var b := NextIntervalBoundary(from, step, Some(to));
    while b.Some?
      invariant 1 <= |boundaries| <= |g| && boundaries == g[..|boundaries|]
      invariant b == if |boundaries| < |g| then Some(g[|boundaries|]) else None
      decreases |g| - |boundaries|
    {
      NextIsNextGridPoint(from, to, step, |boundaries|);
      boundaries := boundaries + [b.value];
      b := NextIntervalBoundary(b.value, step, Some(to));
    }
  }

  /// The least number of intervals that cover a run, which need not be a whole number of blocks long.
  method IntervalCount(runBlocks: real, interval: Number) returns (n: int)
    ensures interval.Finite? && interval.v.Floor >= 1 && runBlocks > 0.0 ==>
              n >= 1 && ((n - 1) * interval.v.Floor) as real < runBlocks <= (n * interval.v.Floor) as real
    ensures !(interval.Finite? && interval.v.Floor >= 1 && runBlocks > 0.0) ==> n == 0
  {
    if interval.NotFinite? || interval.v.Floor < 1 || !(runBlocks > 0.0) { return 0; }
    var step := interval.v.Floor;
    n := 0;
    var b := 0.0;
    while b < runBlocks
      invariant n >= 0 && b == MinReal((n * step) as real, runBlocks)
      invariant n > 0 ==> ((n - 1) * step) as real < runBlocks
      decreases runBlocks.Floor + 1 - n
    {
      OneMoreInterval(n, step, runBlocks);
      b := MinReal(b + step as real, runBlocks);
      n := n + 1;
    }
  }

  lemma OneMoreInterval(n: int, step: int, runBlocks: real)
    requires n >= 0 && step >= 1
    ensures ((n + 1) * step) as real == (n * step) as real + step as real
    ensures (n * step) as real < runBlocks ==> n <= runBlocks.Floor
  {
    assert (n + 1) * step == n * step + step;
    Product(0, n, step);
    Product(n, n * step, 1);
    assert n <= n * step by { if step > 1 { Ladder(0, n, step - 1); assert n * step == n * (step - 1) + n; } }
  }

  // ---------------------------------------------------------------- the loop

  /// What the handler holds between notifications: the last block it processed, whether it ever ran, and
  /// whether it ran its last pass.
  datatype Loop = Loop(last: int, started: bool, finished: bool)

  /// One notification: dropped once the run is over, or when it names no new block after the first pass.
  function Notified(l: Loop, head: int, end: Option<int>): (r: (Option<LoopStep>, Loop)) {
    if l.finished || (l.started && head <= l.last) then (None, l)
    else
      var pass := Step(l.last, head, end);
      (Some(pass), Loop(Max(l.last, pass.block), true, pass.final))
  }

  /// The passes over a list of notifications.
  function Passes(l: Loop, heads: seq<int>, end: Option<int>): (r: (seq<LoopStep>, Loop))
    decreases |heads|
  {
    if heads == [] then ([], l) else
      var (pass, l') := Notified(l, heads[0], end);
      var (passes, last) := Passes(l', heads[1..], end);
      ((if pass.Some? then [pass.value] else []) + passes, last)
  }

  function Range(first: int, last: int): seq<int>
    decreases last - first
  {
    if first > last then [] else [first] + Range(first + 1, last)
  }

  /// The blocks a list of passes covers, pass after pass.
  function Covered(passes: seq<LoopStep>): seq<int> {
    if passes == [] then [] else Range(passes[0].fromBlock, passes[0].block) + Covered(passes[1..])
  }

  lemma {:induction false} RangeConcat(a: int, b: int, c: int)
    requires a <= b + 1 && b <= c
    ensures Range(a, b) + Range(b + 1, c) == Range(a, c)
    decreases b - a
  {
    if a <= b {
      RangeConcat(a + 1, b, c);
      Assoc([a], Range(a + 1, b), Range(b + 1, c));
    } else {
      Units(Range(b + 1, c));
    }
  }

  ghost predicate LoopInv(l: Loop, end: Option<int>) {
    (end.Some? ==> l.last <= end.value) && (l.finished <==> l.started && end.Some? && l.last == end.value) &&
    (!l.started && end.Some? ==> l.last < end.value)
  }

  /// The passes from `l` to `last` cover the blocks between them once and in order, and only the last
  /// of them can be final.
  ghost predicate Partitions(l: Loop, passes: seq<LoopStep>, last: Loop, end: Option<int>) {
    LoopInv(last, end) && last.last >= l.last &&
    Covered(passes) == Range(l.last + 1, last.last) &&
    (l.finished ==> passes == []) &&
    (forall k :: 0 <= k < |passes| - 1 ==> !passes[k].final) &&
    (passes != [] ==> (passes[|passes| - 1].final <==> last.finished))
  }

  lemma PassThenMore(l: Loop, pass: LoopStep, l': Loop, rest: seq<LoopStep>, last: Loop, end: Option<int>)
    requires LoopInv(l, end) && !l.finished && Partitions(l', rest, last, end)
    requires pass.fromBlock == l.last + 1 && l'.last == Max(l.last, pass.block) && pass.final == l'.finished
    requires rest == [] ==> last == l'
    ensures Partitions(l, [pass] + rest, last, end)
  {
    var passes := [pass] + rest;
    assert passes[1..] == rest;
    if pass.block > l.last {
      RangeConcat(l.last + 1, l'.last, last.last);
    } else {
      Units(Covered(rest));
    }
  }

  lemma NotifiedKeeps(l: Loop, head: int, end: Option<int>)
    requires LoopInv(l, end)
    ensures var (pass, l') := Notified(l, head, end);
            LoopInv(l', end) && (pass.None? ==> l' == l) &&
            (pass.Some? ==> !l.finished && pass.value.fromBlock == l.last + 1 &&
                            l'.last == Max(l.last, pass.value.block) && pass.value.final == l'.finished)
  {}

  lemma {:induction false} NoPassNoChange(l: Loop, heads: seq<int>, end: Option<int>)
    ensures Passes(l, heads, end).0 == [] ==> Passes(l, heads, end).1 == l
    decreases |heads|
  {
    hide Step;
    if heads != [] { NoPassNoChange(Notified(l, heads[0], end).1, heads[1..], end); }
  }

  /**
   However far the loop lags and however often it is told of a block again, its passes cover every block
   after the last one processed exactly once, in order, none past the end; and a pass is final exactly
   when it is the one that reaches the end, after which there is no other.
   */
  lemma {:induction false} PassesPartition(l: Loop, heads: seq<int>, end: Option<int>)
    requires LoopInv(l, end)
    ensures Partitions(l, Passes(l, heads, end).0, Passes(l, heads, end).1, end)
    decreases |heads|
  {
    hide Notified;
    if heads == [] {
      assert Range(l.last + 1, l.last) == [];
    } else {
      var (pass, l') := Notified(l, heads[0], end);
      NotifiedKeeps(l, heads[0], end);
      PassesPartition(l', heads[1..], end);
      var (rest, last) := Passes(l', heads[1..], end);
      if pass.Some? {
        NoPassNoChange(l', heads[1..], end);
        PassThenMore(l, pass.value, l', rest, last, end);
      } else {
        Units(rest);
      }
    }
  }

  /// A run has an end exactly when it has a block budget: the whole blocks of it after the first.
  lemma BudgetSetsTheEnd(start: int, runBlocks: Number)
    ensures EpochEndBlock(start, runBlocks).Some? <==> runBlocks.Finite? && runBlocks.v > 0.0
    ensures runBlocks.Finite? && runBlocks.v > 0.0 ==>
              var blocks := EpochEndBlock(start, runBlocks).value - start;
              blocks >= 0 && blocks as real <= runBlocks.v < blocks as real + 1.0
  {}

  function Within(head: int, end: Option<int>): int {
    if end.Some? && end.value < head then end.value else head
  }

  /// How far a loop gets: to the furthest block it was told of, but not past the end, and never back.
  lemma {:induction false} LoopReachesTheFurthestHead(l: Loop, heads: seq<int>, end: Option<int>)
    requires LoopInv(l, end)
    ensures var last := Passes(l, heads, end).1;
            (forall head <- heads :: last.last >= Within(head, end)) &&
            last.last >= l.last && (last.last == l.last || exists head <- heads :: last.last == Within(head, end)) &&
            (heads != [] ==> last.started) &&
            (last.finished <==> l.finished || (end.Some? && exists head <- heads :: head >= end.value))
    decreases |heads|
  {
    hide Step;
    if heads != [] {
      NotifiedKeeps(l, heads[0], end);
      NotifiedReaches(l, heads[0], end);
      var l' := Notified(l, heads[0], end).1;
      hide Notified;
      LoopReachesTheFurthestHead(l', heads[1..], end);
      assert heads[0] in heads && heads == [heads[0]] + heads[1..];
    }
  }

  lemma NotifiedReaches(l: Loop, head: int, end: Option<int>)
    requires LoopInv(l, end)
    ensures var l', reach := Notified(l, head, end).1, Within(head, end);
            l'.last >= Max(reach, l.last) && (l'.last == l.last || l'.last == reach) && l'.started &&
            (l'.finished <==> l.finished || (end.Some? && head >= end.value))
  {}

  /// A finished run has processed its first block and then every whole block of its budget, once each.
  lemma FinishedLoopCoversTheBudget(start: int, runBlocks: real, heads: seq<int>)
    requires runBlocks > 0.0
    ensures var end := EpochEndBlock(start, Finite(runBlocks));
            var (passes, last) := Passes(Loop(start - 1, false, false), heads, end);
            end.Some? &&
            (last.finished ==>
               Covered(passes) == Range(start, end.value) && |Covered(passes)| == runBlocks.Floor + 1)
  {
    var end := EpochEndBlock(start, Finite(runBlocks));
    PassesPartition(Loop(start - 1, false, false), heads, end);
    RangeLength(start, end.value);
  }

  lemma {:induction false} RangeLength(first: int, last: int)
    requires first <= last + 1
    ensures |Range(first, last)| == last + 1 - first
    decreases last - first
  {
    if first <= last { RangeLength(first + 1, last); }
  }
}
