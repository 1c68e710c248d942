/**
 Closing a segment whose coordinator died before the day rolled (core/src/segmentRecovery.ts): rebuilt
 from the previous segment's summary and this segment's boundary lines, and equal to what the roll
 would have written from the run's own series.
 */
module SegmentRecovery {
  import opened Basics
  import opened SegmentSlices

  /// One line of intervals.jsonl. An agent can be absent from it, or present without a number.
  datatype BoundaryLine = BoundaryLine(block: int, values: map<string, Value>)

  function ValueOf(line: BoundaryLine, id: string): Value {
    if id in line.values then line.values[id] else None
  }

  function Nulls(n: nat): seq<Value> { seq(n, _ => None) }

  function LineBlocks(lines: seq<BoundaryLine>): seq<int> {
    seq(|lines|, k requires 0 <= k < |lines| => lines[k].block)
  }

  function LineValues(lines: seq<BoundaryLine>, id: string): seq<Value> {
    seq(|lines|, k requires 0 <= k < |lines| => ValueOf(lines[k], id))
  }

  /// Everyone named anywhere: the previous summary, the lines, the coordinator's list.
  function Named(previous: Series, lines: seq<BoundaryLine>, identities: seq<string>): set<string> {
    previous.values.Keys + (set line <- lines, id <- line.values :: id) + (set id <- identities)
  }

  function PreviousValues(previous: Series, id: string): seq<Value> {
    if id in previous.values then previous.values[id] else Nulls(|previous.blocks|)
  }

  /// The previous series with this segment's boundaries after it.
  function Whole(previous: Series, lines: seq<BoundaryLine>, ids: set<string>): (w: Series)
    requires Aligned(previous)
    ensures Aligned(w)
  {
    Series(previous.blocks + LineBlocks(lines),
           map id | id in ids :: PreviousValues(previous, id) + LineValues(lines, id))
  }

  datatype Closed = Closed(series: Series, records: seq<Option<EpochPnl>>, toBlock: int)

  function CloseCrashedSegment(previous: Series, lines: seq<BoundaryLine>, identities: seq<string>, from: int): Closed
    requires Aligned(previous)
  {
    var to := if lines == [] then from else lines[|lines| - 1].block;
    var sliced := Slice(Whole(previous, lines, Named(previous, lines, identities)), from, to);
    Closed(sliced,
           seq(|identities|, k requires 0 <= k < |identities| =>
             PnlOf(if identities[k] in sliced.values then sliced.values[identities[k]] else [])),
           to)
  }

  // ---------------------------------------------------------------- what the roll would have written

  /// The previous summary is the run's slice that ended at `from`, for the agents known then; nobody
  /// else had a value in it.
  ghost predicate IsPreviousSummary(previous: Series, run: Series, since: int, from: int)
    requires Aligned(run)
  {
    var slice := Slice(run, since, from);
    previous.blocks == slice.blocks &&
    previous.values.Keys <= run.values.Keys &&
    (forall id <- previous.values :: previous.values[id] == slice.values[id]) &&
    (forall id <- run.values :: id !in previous.values ==> forall v <- slice.values[id] :: v.None?)
  }

  /// The lines are the run's boundaries after `from`, the first `|lines|` of them.
  ghost predicate AreLaterBoundaries(lines: seq<BoundaryLine>, run: Series, from: int)
    requires Aligned(run)
  {
    var c := Closing(run.blocks, from);
    c + |lines| <= |run.blocks| &&
    forall k :: 0 <= k < |lines| ==>
                  lines[k].block == run.blocks[c + k] && lines[k].values.Keys <= run.values.Keys &&
                  forall id <- run.values :: ValueOf(lines[k], id) == run.values[id][c + k]
  }

  lemma BelowIs(blocks: seq<int>, x: int, c: nat)
    requires Rising(blocks) && c <= |blocks| && (c > 0 ==> blocks[c - 1] < x) && (c < |blocks| ==> blocks[c] >= x)
    ensures Below(blocks, x) == c
  {}

  /// Counting from `a` on shifts the count by `a`, for a block past the first one kept.
  lemma BelowShifts(blocks: seq<int>, a: nat, d: nat, x: int)
    requires Rising(blocks) && a <= Below(blocks, x) <= d <= |blocks|
    ensures Rising(blocks[a..d]) && Below(blocks[a..d], x) == Below(blocks, x) - a
  {
    var cut := blocks[a..d];
    assert forall i :: 0 <= i < |cut| ==> cut[i] == blocks[a + i];
    BelowIs(cut, x, Below(blocks, x) - a);
  }

  /// Where the recovered segment ends: its last line, or where it began.
  function EndOf(blocks: seq<int>, from: int, d: nat): int
    requires d <= |blocks|
  {
    if d <= Closing(blocks, from) then from else blocks[d - 1]
  }

  lemma EndCloses(blocks: seq<int>, from: int, d: nat)
    requires Rising(blocks) && Closing(blocks, from) <= d <= |blocks|
    ensures from <= EndOf(blocks, from, d) && Closing(blocks, EndOf(blocks, from, d)) == d
  {
    if Closing(blocks, from) < d { BelowIs(blocks, blocks[d - 1] + 1, d); }
  }

  /// The stretch of the run the recovery works on opens and closes where the run does.
  lemma SameCut(blocks: seq<int>, since: int, from: int, d: nat)
    requires Rising(blocks) && since <= from && Closing(blocks, from) <= d <= |blocks|
    ensures var a, to := Opening(blocks, since), EndOf(blocks, from, d);
            a <= Closing(blocks, from) && Rising(blocks[a..d]) &&
            Opening(blocks[a..d], from) + a == Opening(blocks, from) && Closing(blocks[a..d], to) + a == d
  {
    hide Below, Opening, Rising, SliceIndices, IsRange;
    var a := Opening(blocks, since);
    IndicesAreRange(blocks, since, from);
    EndCloses(blocks, from, d);
    BelowShifts(blocks, a, d, EndOf(blocks, from, d) + 1);
    BelowShifts(blocks, a, d, from + 1);
    SeamSharesOneBoundary(blocks, from);
    SeamSharesOneBoundary(blocks[a..d], from);
    OpeningGrows(blocks, since, from);
  }

  lemma WholeIsAStretchOfTheRun(run: Series, previous: Series, lines: seq<BoundaryLine>, ids: set<string>,
                                since: int, from: int)
    requires Aligned(run) && Rising(run.blocks) && since <= from && Aligned(previous) && ids <= run.values.Keys
    requires IsPreviousSummary(previous, run, since, from) && AreLaterBoundaries(lines, run, from)
    ensures var a, d := Opening(run.blocks, since), Closing(run.blocks, from) + |lines|;
            var whole := Whole(previous, lines, ids);
            a <= d && whole.blocks == run.blocks[a..d] &&
            forall id <- ids :: whole.values[id] == run.values[id][a..d]
  {
    hide Opening, Below, Rising, SliceIndices, Pick;
    SliceIsRange(run, since, from);
    var a, c := Opening(run.blocks, since), Closing(run.blocks, from);
    var d := c + |lines|;
    assert LineBlocks(lines) == run.blocks[c..d];
    Glue(run.blocks, a, c, d);
    forall id <- ids
      ensures Whole(previous, lines, ids).values[id] == run.values[id][a..d]
    {
      PreviousValuesAreTheSlice(run, previous, id, since, from);
      assert LineValues(lines, id) == run.values[id][c..d];
      Glue(run.values[id], a, c, d);
    }
  }

  lemma PreviousValuesAreTheSlice(run: Series, previous: Series, id: string, since: int, from: int)
    requires Aligned(run) && id in run.values && IsPreviousSummary(previous, run, since, from)
    ensures PreviousValues(previous, id) == Slice(run, since, from).values[id]
  {
    hide SliceIndices;
    var slice := Slice(run, since, from).values[id];
    if id !in previous.values {
      assert forall k :: 0 <= k < |slice| ==> slice[k] in slice;
    }
  }

  /**
   The recovered segment is the one the roll would have written at the run's last boundary among the lines, or where
   the segment began without any: the same boundaries, and for every agent named anywhere the same values (null where
   it had none) and the same P.
   */
  lemma RecoveryIsTheRoll(run: Series, previous: Series, lines: seq<BoundaryLine>, identities: seq<string>,
                          since: int, from: int)
    requires Aligned(run) && Rising(run.blocks) && since <= from && Aligned(previous)
    requires IsPreviousSummary(previous, run, since, from) && AreLaterBoundaries(lines, run, from)
    requires forall id <- identities :: id in run.values
    ensures var closed := CloseCrashedSegment(previous, lines, identities, from);
            var to := if lines == [] then from else run.blocks[Closing(run.blocks, from) + |lines| - 1];
            var rolled := Slice(run, from, to);
            closed.toBlock == to && closed.series.blocks == rolled.blocks &&
            (forall id <- closed.series.values :: id in run.values && closed.series.values[id] == rolled.values[id]) &&
            (forall id <- identities :: id in closed.series.values) &&
            (forall id <- previous.values :: id in closed.series.values) &&
            (forall line <- lines, id <- line.values :: id in closed.series.values) &&
            (forall k :: 0 <= k < |identities| ==> closed.records[k] == PnlOf(rolled.values[identities[k]]))
  {
    hide Opening, Below, Rising, IsPreviousSummary, SliceIndices, Whole, Nulls;
    var ids := Named(previous, lines, identities);
    NamedInRun(run, previous, lines, identities, since, from);
    var whole := Whole(previous, lines, ids);
    WholeKeys(previous, lines, ids);
    WholeIsAStretchOfTheRun(run, previous, lines, ids, since, from);
    var d := Closing(run.blocks, from) + |lines|;
    SameCut(run.blocks, since, from, d);
    EndCloses(run.blocks, from, d);
    var to := EndOf(run.blocks, from, d);
    assert CloseCrashedSegment(previous, lines, identities, from).toBlock == to;
    SlicesAgree(run, whole, ids, Opening(run.blocks, since), d, from, to);
  }

  lemma WholeKeys(previous: Series, lines: seq<BoundaryLine>, ids: set<string>)
    requires Aligned(previous)
    ensures Whole(previous, lines, ids).values.Keys == ids
  {}

  lemma NamedInRun(run: Series, previous: Series, lines: seq<BoundaryLine>, identities: seq<string>, since: int,
                   from: int)
    requires Aligned(run)
    requires IsPreviousSummary(previous, run, since, from) && AreLaterBoundaries(lines, run, from)
    requires forall id <- identities :: id in run.values
    ensures Named(previous, lines, identities) <= run.values.Keys
  {
    hide Closing, Slice;
  }

  lemma SlicesAgree(run: Series, whole: Series, ids: set<string>, a: nat, d: nat, from: int, to: int)
    requires Aligned(run) && Aligned(whole) && Rising(run.blocks) && Rising(whole.blocks) && from <= to
    requires a <= d <= |run.blocks| && whole.blocks == run.blocks[a..d]
    requires whole.values.Keys == ids <= run.values.Keys && forall id <- ids :: whole.values[id] == run.values[id][a..d]
    requires Opening(whole.blocks, from) + a == Opening(run.blocks, from)
    requires Closing(whole.blocks, to) + a == d == Closing(run.blocks, to)
    ensures Slice(whole, from, to).blocks == Slice(run, from, to).blocks
    ensures forall id <- ids ::
              id in Slice(run, from, to).values &&
              Slice(whole, from, to).values[id] == Slice(run, from, to).values[id]
  {
    hide Opening, Closing, Rising, SliceIndices;
    SliceIsRange(run, from, to);
    SliceIsRange(whole, from, to);
    var o := Opening(run.blocks, from);
    assert run.blocks[a..d][o - a..d - a] == run.blocks[o..d];
    forall id <- ids ensures Slice(whole, from, to).values[id] == Slice(run, from, to).values[id] {
      assert run.values[id][a..d][o - a..d - a] == run.values[id][o..d];
    }
  }
}
