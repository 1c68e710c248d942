/**
 Cutting one boundary series into segments (core/src/segments.ts `sliceIntervalSeries`) and the P each
 cut yields (core/src/scoring/epochPnl.ts): nothing is lost at a seam and nothing is counted twice.
 */
module SegmentSlices {
  import opened Basics

  type Value = Option<real>

  /// Boundary blocks, and every agent's value at each; None where the boundary did not report it.
  datatype Series = Series(blocks: seq<int>, values: map<string, seq<Value>>)

  ghost predicate Aligned(s: Series) {
    forall id <- s.values :: |s.values[id]| == |s.blocks|
  }

  ghost predicate Rising(blocks: seq<int>) {
    forall i, j :: 0 <= i < j < |blocks| ==> blocks[i] < blocks[j]
  }

  function Pick<T>(all: seq<T>, indices: seq<nat>): seq<T>
    requires forall k :: 0 <= k < |indices| ==> indices[k] < |all|
  {
    seq(|indices|, k requires 0 <= k < |indices| => all[indices[k]])
  }

  // ---------------------------------------------------------------- the cut, as the source makes it

  /// The indices below `n` whose block lies in [from, to].
  function Within(blocks: seq<int>, from: int, to: int, n: nat): (r: seq<nat>)
    requires n <= |blocks|
    ensures forall k :: 0 <= k < |r| ==> r[k] < n && from <= blocks[r[k]] <= to
  {
    if n == 0 then []
    else if from <= blocks[n - 1] <= to then Within(blocks, from, to, n - 1) + [n - 1]
    else Within(blocks, from, to, n - 1)
  }

  /// The last index below `n` whose block comes before `from`, or -1.
  function Carried(blocks: seq<int>, from: int, n: nat): (c: int)
    requires n <= |blocks|
    ensures -1 <= c < n && (c >= 0 ==> blocks[c] < from)
  {
    if n == 0 then -1 else if blocks[n - 1] < from then n - 1 else Carried(blocks, from, n - 1)
  }

  /// The boundaries a segment keeps: its own, and the one before them unless it starts on one.
  function SliceIndices(blocks: seq<int>, from: int, to: int): (r: seq<nat>)
    ensures forall k :: 0 <= k < |r| ==> r[k] < |blocks|
  {
    var own := Within(blocks, from, to, |blocks|);
    var carried := Carried(blocks, from, |blocks|);
    if carried >= 0 && !(own != [] && blocks[own[0]] == from) then [carried] + own else own
  }

  function Slice(s: Series, from: int, to: int): (r: Series)
    requires Aligned(s)
    ensures Aligned(r)
  {
    var indices := SliceIndices(s.blocks, from, to);
    Series(Pick(s.blocks, indices), map id | id in s.values :: Pick(s.values[id], indices))
  }

  method SliceIntervalSeries(s: Series, from: int, to: int) returns (r: Series)
    requires Aligned(s)
    ensures r == Slice(s, from, to)
  {
    var indices: seq<nat> := [];
    var carried := -1;
    for i := 0 to |s.blocks|
      invariant indices == Within(s.blocks, from, to, i) && carried == Carried(s.blocks, from, i)
    {
      var block := s.blocks[i];
      if block < from { carried := i; }
      else if block <= to { indices := indices + [i]; }
    }
    var startsOnBoundary := indices != [] && s.blocks[indices[0]] == from;
    if carried >= 0 && !startsOnBoundary { indices := [carried as nat] + indices; }
    r := Series(Pick(s.blocks, indices), map id | id in s.values :: Pick(s.values[id], indices));
  }

  // ---------------------------------------------------------------- the cut, as a range

  /// How many boundaries come before block `x`.
  function Below(blocks: seq<int>, x: int): (c: nat)
    ensures c <= |blocks| && (c > 0 ==> blocks[c - 1] < x) && (c < |blocks| ==> blocks[c] >= x)
  {
    if blocks == [] then 0
    else if blocks[|blocks| - 1] < x then |blocks|
    else Below(blocks[..|blocks| - 1], x)
  }

  lemma BelowSplits(blocks: seq<int>, x: int, i: nat)
    requires Rising(blocks) && i < |blocks|
    ensures blocks[i] < x <==> i < Below(blocks, x)
  {}

  lemma BelowGrows(blocks: seq<int>, x: int, y: int)
    requires Rising(blocks) && x <= y
    ensures Below(blocks, x) <= Below(blocks, y)
  {}

  /// The first boundary of a segment that opens at `from`: the one on it, or the last before it, or the
  /// first there is.
  function Opening(blocks: seq<int>, from: int): nat {
    var lo := Below(blocks, from);
    if lo < |blocks| && blocks[lo] == from then lo else if lo > 0 then lo - 1 else 0
  }

  /// One past the last boundary of a segment that closes at `to`.
  function Closing(blocks: seq<int>, to: int): (c: nat)
    ensures c <= |blocks|
  {
    Below(blocks, to + 1)
  }

  /// The whole numbers in [a, b).
  ghost predicate IsRange(indices: seq<nat>, a: int, b: int) {
    |indices| == b - a && forall k :: 0 <= k < |indices| ==> indices[k] == a + k
  }

  lemma {:induction false} CarriedIsBelow(blocks: seq<int>, from: int, n: nat)
    requires Rising(blocks) && n <= |blocks|
    ensures Carried(blocks, from, n) == Min(n, Below(blocks, from)) - 1
  {
    hide Below, Rising;
    if n > 0 {
      CarriedIsBelow(blocks, from, n - 1);
      BelowSplits(blocks, from, n - 1);
    }
  }

  lemma {:induction false} WithinIsRange(blocks: seq<int>, from: int, to: int, n: nat)
    requires Rising(blocks) && n <= |blocks| && from <= to
    ensures Below(blocks, from) <= Closing(blocks, to)
    ensures IsRange(Within(blocks, from, to, n), Min(n, Below(blocks, from)), Min(n, Closing(blocks, to)))
  {
    hide Below, Rising, IsRange;
    BelowGrows(blocks, from, to + 1);
    if n == 0 {
      EmptyRange(0);
    } else {
      var earlier := Within(blocks, from, to, n - 1);
      WithinIsRange(blocks, from, to, n - 1);
      BelowSplits(blocks, from, n - 1);
      BelowSplits(blocks, to + 1, n - 1);
      if from <= blocks[n - 1] <= to {
        RangeAppend(earlier, Below(blocks, from), n - 1);
      } else if blocks[n - 1] < from {
        RangeIsEmpty(earlier, n - 1);
        EmptyRange(n);
      }
    }
  }

  lemma EmptyRange(a: int)
    ensures IsRange([], a, a)
  {}

  lemma RangeIsEmpty(indices: seq<nat>, a: int)
    requires IsRange(indices, a, a)
    ensures indices == []
  {}

  lemma RangeAppend(indices: seq<nat>, a: int, b: nat)
    requires a <= b && IsRange(indices, a, b)
    ensures IsRange(indices + [b], a, b + 1)
  {}

  /// For rising boundaries a segment keeps one contiguous stretch of the run's.
  lemma SliceIsRange(s: Series, from: int, to: int)
    requires Aligned(s) && Rising(s.blocks) && from <= to
    ensures var a, b := Opening(s.blocks, from), Closing(s.blocks, to);
            a <= b && Slice(s, from, to).blocks == s.blocks[a..b] &&
            forall id <- s.values :: Slice(s, from, to).values[id] == s.values[id][a..b]
  {
    IndicesAreRange(s.blocks, from, to);
    var a, b := Opening(s.blocks, from), Closing(s.blocks, to);
    var indices := SliceIndices(s.blocks, from, to);
    PickRange(s.blocks, indices, a, b);
    forall id <- s.values ensures Slice(s, from, to).values[id] == s.values[id][a..b] {
      PickRange(s.values[id], indices, a, b);
    }
  }

  lemma PickRange<T>(all: seq<T>, indices: seq<nat>, a: nat, b: nat)
    requires a <= b <= |all| && IsRange(indices, a, b)
    ensures Pick(all, indices) == all[a..b]
  {}

  lemma IndicesAreRange(blocks: seq<int>, from: int, to: int)
    requires Rising(blocks) && from <= to
    ensures Opening(blocks, from) <= Closing(blocks, to)
    ensures IsRange(SliceIndices(blocks, from, to), Opening(blocks, from), Closing(blocks, to))
  {
    WithinIsRange(blocks, from, to, |blocks|);
    CarriedIsBelow(blocks, from, |blocks|);
    BelowGrows(blocks, from, to + 1);
    hide Below, Within, Carried, Rising, IsRange, Closing;
    var lo, hi := Below(blocks, from), Closing(blocks, to);
    if lo < |blocks| { BelowSplits(blocks, to + 1, lo); }
    var own := Within(blocks, from, to, |blocks|);
    RangeEnds(own, lo, hi);
    if lo > 0 { RangePrepend(own, lo, hi); }
  }

  lemma RangeEnds(indices: seq<nat>, a: nat, b: nat)
    requires IsRange(indices, a, b)
    ensures |indices| == b - a && (a < b ==> indices[0] == a)
  {}

  lemma RangePrepend(indices: seq<nat>, a: nat, b: nat)
    requires 0 < a <= b && IsRange(indices, a, b)
    ensures IsRange([a - 1] + indices, a - 1, b)
  {}

  // ---------------------------------------------------------------- tiling

  /// Interval k of the run, the one that ends at boundary k, is an interval of the segment.
  ghost predicate HasInterval(blocks: seq<int>, from: int, to: int, k: nat) {
    Opening(blocks, from) < k < Closing(blocks, to)
  }

  lemma IntervalIsWhereItEnds(blocks: seq<int>, from: int, to: int, k: nat)
    requires Rising(blocks) && from <= to && k < |blocks|
    ensures HasInterval(blocks, from, to, k) <==> k >= 1 && from < blocks[k] <= to
  {
    BelowSplits(blocks, from, k);
    BelowSplits(blocks, to + 1, k);
  }

  ghost predicate Cuts(cuts: seq<int>) {
    |cuts| >= 2 && forall i, j :: 0 <= i < j < |cuts| ==> cuts[i] < cuts[j]
  }

  ghost predicate InCut(cuts: seq<int>, j: nat, x: int)
    requires j + 1 < |cuts|
  {
    cuts[j] < x <= cuts[j + 1]
  }

  lemma {:induction false} CutBefore(cuts: seq<int>, x: int) returns (j: nat)
    requires Cuts(cuts) && cuts[0] < x <= cuts[|cuts| - 1]
    ensures j + 1 < |cuts| && InCut(cuts, j, x)
    decreases |cuts|
  {
    if x <= cuts[1] {
      j := 0;
    } else {
      j := CutBefore(cuts[1..], x);
      j := j + 1;
    }
  }

  /// The j-th segment has interval k.
  ghost predicate SegmentHas(blocks: seq<int>, cuts: seq<int>, j: nat, k: nat)
    requires j + 1 < |cuts|
  {
    HasInterval(blocks, cuts[j], cuts[j + 1], k)
  }

  lemma SegmentHasWhatEndsInIt(blocks: seq<int>, cuts: seq<int>, j: nat, k: nat)
    requires Rising(blocks) && Cuts(cuts) && j + 1 < |cuts| && 1 <= k < |blocks|
    ensures SegmentHas(blocks, cuts, j, k) <==> InCut(cuts, j, blocks[k])
  {
    IntervalIsWhereItEnds(blocks, cuts[j], cuts[j + 1], k);
  }

  /// Each interval that ends after the first cut and by the last belongs to exactly one segment, and no
  /// other interval belongs to any.
  lemma SegmentsTileTheIntervals(blocks: seq<int>, cuts: seq<int>, k: nat)
    requires Rising(blocks) && Cuts(cuts) && 1 <= k < |blocks|
    ensures cuts[0] < blocks[k] <= cuts[|cuts| - 1] <==>
              exists j: nat :: j + 1 < |cuts| && SegmentHas(blocks, cuts, j, k)
    ensures forall i: nat, j: nat :: i < j && j + 1 < |cuts| ==>
              !(SegmentHas(blocks, cuts, i, k) && SegmentHas(blocks, cuts, j, k))
  {
    hide SegmentHas, Rising;
    if cuts[0] < blocks[k] <= cuts[|cuts| - 1] {
      var j := CutBefore(cuts, blocks[k]);
      SegmentHasWhatEndsInIt(blocks, cuts, j, k);
    }
    if j: nat :| j + 1 < |cuts| && SegmentHas(blocks, cuts, j, k) {
      SegmentHasWhatEndsInIt(blocks, cuts, j, k);
    }
    forall i: nat, j: nat | i < j && j + 1 < |cuts|
      ensures !(SegmentHas(blocks, cuts, i, k) && SegmentHas(blocks, cuts, j, k))
    {
      SegmentHasWhatEndsInIt(blocks, cuts, i, k);
      SegmentHasWhatEndsInIt(blocks, cuts, j, k);
      assert cuts[i + 1] <= cuts[j];
    }
  }

  /// Where a segment closes the next one opens: on the same boundary, the only one they share.
  lemma SeamSharesOneBoundary(blocks: seq<int>, at: int)
    requires Rising(blocks)
    ensures Closing(blocks, at) > 0 ==> Opening(blocks, at) == Closing(blocks, at) - 1
    ensures Closing(blocks, at) == 0 ==> Opening(blocks, at) == 0
  {
    BelowGrows(blocks, at, at + 1);
  }

  // ---------------------------------------------------------------- P

  datatype EpochPnl = EpochPnl(pnl: real, initial: real, final: real, finalIndex: nat, lastIndex: nat,
                               carriedFinal: bool)

  /// The last reported value after the first, at or before `i`.
  function LastReported(values: seq<Value>, i: nat): (r: nat)
    requires i < |values|
    ensures r <= i && (r > 0 ==> values[r].Some?) && forall k :: r < k <= i ==> values[k].None?
  {
    if i == 0 || values[i].Some? then i else LastReported(values, i - 1)
  }

  function PnlOf(values: seq<Value>): Option<EpochPnl> {
    if |values| < 2 || values[0].None? then None
    else
      var last := |values| - 1;
      var i := LastReported(values, last);
      if i == 0 then None
      else Some(EpochPnl(values[i].value - values[0].value, values[0].value, values[i].value, i, last, i != last))
  }

  method EpochPnlFromSeries(values: seq<Value>) returns (p: Option<EpochPnl>)
    ensures p == PnlOf(values)
  {
    if |values| < 2 { return None; }
    if values[0].None? { return None; }
    var last := |values| - 1;
    var i := last;
    while i > 0
      invariant 0 <= i <= last && LastReported(values, last) == LastReported(values, i)
    {
      if values[i].Some? { break; }
      i := i - 1;
    }
    if i == 0 { return None; }
    p := Some(EpochPnl(values[i].value - values[0].value, values[0].value, values[i].value, i, last, i != last));
  }

  /// There is a P exactly when the first boundary reports the agent and a later one does: from the first value to the
  /// last reported one, which is carried when it is not the last boundary's.
  lemma PnlIsFromFirstToLastReported(values: seq<Value>)
    ensures PnlOf(values).Some? <==> values != [] && values[0].Some? && exists k :: 0 < k < |values| && values[k].Some?
    ensures PnlOf(values).Some? ==>
              var p := PnlOf(values).value;
              0 < p.finalIndex <= p.lastIndex == |values| - 1 &&
              Some(p.initial) == values[0] && Some(p.final) == values[p.finalIndex] && p.pnl == p.final - p.initial &&
              (forall k :: p.finalIndex < k < |values| ==> values[k].None?) &&
              (p.carriedFinal <==> values[|values| - 1].None?)
  {}

  function Scored(p: Option<EpochPnl>): real { if p.Some? then p.value.pnl else 0.0 }

  /// An agent's P over the segment from one block to another; none counts as nothing.
  ghost function PnlIn(s: Series, id: string, from: int, to: int): real
    requires Aligned(s) && id in s.values
  {
    Scored(PnlOf(Slice(s, from, to).values[id]))
  }

  /// What an agent's segments add up to; a segment that yields no P adds nothing.
  ghost function SegmentsPnl(s: Series, id: string, cuts: seq<int>): real
    requires Aligned(s) && id in s.values
    decreases |cuts|
  {
    if |cuts| < 2 then 0.0
    else PnlIn(s, id, cuts[0], cuts[1]) + SegmentsPnl(s, id, cuts[1..])
  }

  // ---------------------------------------------------------------- adding the segments up

  /// The last value reported at or before boundary `i`; nothing before the first.
  function Latest(v: seq<Value>, i: nat): real
    requires i < |v|
  {
    if v[i].Some? then v[i].value else if i == 0 then 0.0 else Latest(v, i - 1)
  }

  /// The value an agent goes into a segment with that opens at block `at`.
  function Mark(s: Series, id: string, at: int): real
    requires Aligned(s) && id in s.values
  {
    if s.blocks == [] then 0.0 else OpeningInRange(s.blocks, at); Latest(s.values[id], Opening(s.blocks, at))
  }

  /// The boundary a segment opens on reports the agent.
  predicate OpensValued(s: Series, id: string, at: int)
    requires Aligned(s) && id in s.values
  {
    Opening(s.blocks, at) < |s.blocks| && s.values[id][Opening(s.blocks, at)].Some?
  }

  lemma OpeningInRange(blocks: seq<int>, at: int)
    ensures blocks != [] ==> Opening(blocks, at) < |blocks|
  {}

  lemma OpeningGrows(blocks: seq<int>, x: int, y: int)
    requires Rising(blocks) && x <= y
    ensures Opening(blocks, x) <= Opening(blocks, y)
  {
    BelowGrows(blocks, x, y);
  }

  /// What the agent's carried value changes by over the segments: those that open on a gap, or the others.
  ghost function Changes(s: Series, id: string, cuts: seq<int>, valued: bool): real
    requires Aligned(s) && id in s.values
    decreases |cuts|
  {
    if |cuts| < 2 then 0.0
    else
      (if OpensValued(s, id, cuts[0]) == valued then Mark(s, id, cuts[1]) - Mark(s, id, cuts[0]) else 0.0) +
      Changes(s, id, cuts[1..], valued)
  }

  lemma {:induction false} LatestInSlice(v: seq<Value>, a: nat, b: nat, i: nat)
    requires a < b <= |v| && v[a].Some? && i < b - a
    ensures var r := LastReported(v[a..b], i); v[a..b][r].Some? && Latest(v, a + i) == v[a + r].value
  {
    if i > 0 && v[a + i].None? {
      assert v[a..b][i].None?;
      LatestInSlice(v, a, b, i - 1);
    }
  }

  /// P over a stretch: what the carried value changes by, or nothing when the stretch opens on a gap.
  lemma PnlOfStretch(v: seq<Value>, a: nat, b: nat)
    requires a < b <= |v|
    ensures Scored(PnlOf(v[a..b])) == if v[a].Some? then Latest(v, b - 1) - Latest(v, a) else 0.0
  {
    assert v[a..b][0] == v[a];
    if v[a].Some? { LatestInSlice(v, a, b, b - a - 1); }
  }

  lemma SegmentPnl(s: Series, id: string, from: int, to: int)
    requires Aligned(s) && Rising(s.blocks) && id in s.values && from <= to
    ensures Opening(s.blocks, from) <= Closing(s.blocks, to)
    ensures PnlIn(s, id, from, to) == Scored(PnlOf(s.values[id][Opening(s.blocks, from)..Closing(s.blocks, to)]))
  {
    SliceIsRange(s, from, to);
  }

  lemma SegmentScore(s: Series, id: string, from: int, to: int)
    requires Aligned(s) && Rising(s.blocks) && id in s.values && from <= to
    ensures PnlIn(s, id, from, to) == if OpensValued(s, id, from) then Mark(s, id, to) - Mark(s, id, from) else 0.0
  {
    hide PnlIn, Rising, PnlOf, Below, Opening, Latest;
    SegmentPnl(s, id, from, to);
    SeamSharesOneBoundary(s.blocks, to);
    OpeningGrows(s.blocks, from, to);
    OpeningInRange(s.blocks, from);
    var v, a, b := s.values[id], Opening(s.blocks, from), Closing(s.blocks, to);
    if b > 0 {
      PnlOfStretch(v, a, b);
    } else {
      assert v[a..b] == [];
      NoPnlWithoutBoundaries(v[a..b]);
    }
  }

  lemma NoPnlWithoutBoundaries(values: seq<Value>)
    requires values == []
    ensures Scored(PnlOf(values)) == 0.0
  {}

  /// The segments' P add up to the changes over the segments that open valued.
  lemma {:induction false} SegmentsAddUp(s: Series, id: string, cuts: seq<int>)
    requires Aligned(s) && Rising(s.blocks) && id in s.values && Cuts(cuts)
    ensures SegmentsPnl(s, id, cuts) == Changes(s, id, cuts, true)
    decreases |cuts|
  {
    hide PnlIn, Rising, Mark, OpensValued;
    SegmentScore(s, id, cuts[0], cuts[1]);
    if |cuts| > 2 {
      assert forall j :: 0 <= j < |cuts[1..]| ==> cuts[1..][j] == cuts[j + 1];
      SegmentsAddUp(s, id, cuts[1..]);
    } else {
      assert SegmentsPnl(s, id, cuts[1..]) == Changes(s, id, cuts[1..], true) == 0.0;
    }
  }

  /// The changes over all the segments are the change over the whole.
  lemma {:induction false} ChangesTelescope(s: Series, id: string, cuts: seq<int>)
    requires Aligned(s) && id in s.values && cuts != []
    ensures Changes(s, id, cuts, true) + Changes(s, id, cuts, false) ==
            Mark(s, id, cuts[|cuts| - 1]) - Mark(s, id, cuts[0])
    decreases |cuts|
  {
    hide Mark, OpensValued;
    if |cuts| > 1 {
      ChangesTelescope(s, id, cuts[1..]);
    }
  }

  lemma WholeScore(s: Series, id: string, cuts: seq<int>)
    requires Aligned(s) && Rising(s.blocks) && id in s.values && Cuts(cuts)
    ensures cuts[0] <= cuts[|cuts| - 1]
    ensures PnlIn(s, id, cuts[0], cuts[|cuts| - 1]) ==
              if OpensValued(s, id, cuts[0]) then Mark(s, id, cuts[|cuts| - 1]) - Mark(s, id, cuts[0]) else 0.0
  {
    SegmentScore(s, id, cuts[0], cuts[|cuts| - 1]);
  }

  /**
   The segments' P add up to the whole run's, wherever the cuts fall, exactly when what the carried value
   changes by over the segments that open on a gap comes to nothing. An agent without a value where the
   whole opens has no P over the whole, so there it is the changes over the valued ones that must.
   */
  lemma SegmentsTelescopeIff(s: Series, id: string, cuts: seq<int>)
    requires Aligned(s) && Rising(s.blocks) && id in s.values && Cuts(cuts)
    ensures OpensValued(s, id, cuts[0]) ==>
              (SegmentsPnl(s, id, cuts) == PnlIn(s, id, cuts[0], cuts[|cuts| - 1]) <==>
               Changes(s, id, cuts, false) == 0.0)
    ensures !OpensValued(s, id, cuts[0]) ==>
              (SegmentsPnl(s, id, cuts) == PnlIn(s, id, cuts[0], cuts[|cuts| - 1]) <==>
               Changes(s, id, cuts, true) == 0.0)
  {
    hide PnlIn, Rising, Mark, OpensValued, Changes, SegmentsPnl;
    SegmentsAddUp(s, id, cuts);
    ChangesTelescope(s, id, cuts);
    WholeScore(s, id, cuts);
  }

  /// In particular when every segment opens valued; the boundaries between, and the last, may be gaps.
  lemma SegmentsTelescope(s: Series, id: string, cuts: seq<int>)
    requires Aligned(s) && Rising(s.blocks) && id in s.values && Cuts(cuts)
    requires s.blocks != [] ==> forall j :: 0 <= j < |cuts| - 1 ==> OpensValued(s, id, cuts[j])
    ensures SegmentsPnl(s, id, cuts) == PnlIn(s, id, cuts[0], cuts[|cuts| - 1])
  {
    hide PnlIn, Rising, SegmentsPnl;
    NoChanges(s, id, cuts, s.blocks == []);
    SegmentsTelescopeIff(s, id, cuts);
  }

  lemma {:induction false} NoChanges(s: Series, id: string, cuts: seq<int>, valued: bool)
    requires Aligned(s) && id in s.values
    requires forall j :: 0 <= j < |cuts| - 1 ==> OpensValued(s, id, cuts[j]) != valued
    ensures Changes(s, id, cuts, valued) == 0.0
    decreases |cuts|
  {
    hide OpensValued, Mark;
    if |cuts| >= 2 { NoChanges(s, id, cuts[1..], valued); }
  }

  /// Gains of 50 that no segment reports: the boundary both share has no value.
  lemma GapAtSeamLosesTheGain()
    ensures var s := Series([0, 10, 20], map["a" := [Some(100.0), None, Some(150.0)]]);
            SegmentsPnl(s, "a", [0, 10, 20]) == 0.0 && PnlIn(s, "a", 0, 20) == 50.0
  {
    var s := Series([0, 10, 20], map["a" := [Some(100.0), None, Some(150.0)]]);
    ThreeBoundaries(s, "a");
    hide SegmentsPnl, PnlIn;
  }

  /// And a segment's 50 that the whole does not have: the agent came after the first boundary.
  lemma LateAgentHasNoWhole()
    ensures var s := Series([0, 10, 20], map["a" := [None, Some(100.0), Some(150.0)]]);
            SegmentsPnl(s, "a", [0, 10, 20]) == 50.0 && PnlIn(s, "a", 0, 20) == 0.0
  {
    var s := Series([0, 10, 20], map["a" := [None, Some(100.0), Some(150.0)]]);
    ThreeBoundaries(s, "a");
    hide SegmentsPnl, PnlIn;
  }

  /// Two segments over three boundaries, cut on each of them.
  lemma ThreeBoundaries(s: Series, id: string)
    requires s.blocks == [0, 10, 20] && Aligned(s) && id in s.values
    ensures var v := s.values[id];
            SegmentsPnl(s, id, [0, 10, 20]) ==
              (if v[0].Some? then Latest(v, 1) - Latest(v, 0) else 0.0) +
              (if v[1].Some? then Latest(v, 2) - Latest(v, 1) else 0.0) &&
            PnlIn(s, id, 0, 20) == if v[0].Some? then Latest(v, 2) - Latest(v, 0) else 0.0
  {
    ThreeOpenings();
    hide PnlOf, Below, Opening, Closing, PnlIn, Latest;
    var v := s.values[id];
    SegmentPnl(s, id, 0, 10);
    SegmentPnl(s, id, 10, 20);
    SegmentPnl(s, id, 0, 20);
    PnlOfStretch(v, 0, 2);
    PnlOfStretch(v, 1, 3);
    PnlOfStretch(v, 0, 3);
    var cuts := [0, 10, 20];
    assert cuts[1..] == [10, 20] && [10, 20][1..] == [20];
    assert SegmentsPnl(s, id, [20]) == 0.0;
    assert SegmentsPnl(s, id, [10, 20]) == PnlIn(s, id, 10, 20) + SegmentsPnl(s, id, [20]);
  }

  lemma ThreeOpenings()
    ensures var blocks := [0, 10, 20];
            Opening(blocks, 0) == 0 && Opening(blocks, 10) == 1 && Closing(blocks, 10) == 2 && Closing(blocks, 20) == 3
  {
    var blocks := [0, 10, 20];
    BelowSplits(blocks, 0, 0);
    BelowSplits(blocks, 10, 0);
    BelowSplits(blocks, 10, 1);
    BelowSplits(blocks, 11, 1);
    BelowSplits(blocks, 11, 2);
    BelowSplits(blocks, 21, 2);
  }
}
