/**
 Where an answer of the tail looks for the head when nothing in front of a submission names it: the last
 stretch of the file before the offset (dashboard/server/runsApi.ts `headBlockBefore`). The stretch can begin
 inside a line, and can hold no line that names a block, or only lines that name lower ones: the coordinator
 reads an interval boundary a block behind the one it is processing.
 */
module TailLookBack {
  import opened Basics
  import opened Tail
  import opened TailDelivery

  /// The newest block that the lines, or the end of one, name by their text alone.
  function MaxNamed(names: Line -> Option<nat>, lines: seq<Placed>, best: Option<nat>): Option<nat> {
    if lines == [] then best else
      var named := names(lines[0].line);
      MaxNamed(names, lines[1..], if named.Some? then Raised(best, named.value) else best)
  }

  /// Where the stretch begins: `window` bytes in front of the offset, 64KB in the source, or the file's start.
  function StretchStart(start: nat, window: nat): nat { Max(0, start - window) }

  /// The lines of the stretch, the first of which can be the end of one.
  function Stretch(file: seq<Byte>, start: nat, window: nat): seq<Placed>
    requires LineStart(file, start)
  {
    LinesIn(file, StretchStart(start, window), start)
  }

  function LookBack(names: Line -> Option<nat>, file: seq<Byte>, start: nat, window: nat): Option<nat>
    requires LineStart(file, start)
  {
    if start <= StretchStart(start, window) then None else MaxNamed(names, Stretch(file, start, window), None)
  }

  /// The text of the line names the block the line reports, and its end names that or none.
  ghost predicate Agree(r: Reader, names: Line -> Option<nat>, line: Line) {
    names(line) == AfterLine(r, line, None) &&
    forall k: nat :: k <= |line| ==> names(line[k..]).None? || names(line[k..]) == names(line)
  }

  ghost predicate AgreeOn(r: Reader, names: Line -> Option<nat>, lines: seq<Placed>) {
    forall p <- lines :: Agree(r, names, p.line)
  }

  ghost predicate Names(names: Line -> Option<nat>, lines: seq<Placed>, block: nat) {
    exists p <- lines :: names(p.line) == Some(block)
  }

  lemma {:induction false} MaxNamedIsNewest(r: Reader, names: Line -> Option<nat>, lines: seq<Placed>,
                                            best: Option<nat>)
    requires AgreeOn(r, names, lines)
    ensures MaxNamed(names, lines, best) == NewestNamed(r, lines, best)
    decreases |lines|
  {
    if lines != [] {
      assert lines[0] in lines && forall p <- lines[1..] :: p in lines;
      MaxNamedIsNewest(r, names, lines[1..], AfterLine(r, lines[0].line, best));
    }
  }

  /// It is named, and no line names a higher one.
  lemma {:induction false} MaxNamedIsMax(names: Line -> Option<nat>, lines: seq<Placed>, best: Option<nat>)
    ensures var found := MaxNamed(names, lines, best);
            (best.Some? ==> found.Some? && best.value <= found.value) &&
            (forall p <- lines :: names(p.line).Some? ==> found.Some? && names(p.line).value <= found.value) &&
            (found.Some? ==> found == best || Names(names, lines, found.value))
    decreases |lines|
  {
    if lines != [] {
      var line := lines[0].line;
      var next := if names(line).Some? then Raised(best, names(line).value) else best;
      MaxNamedIsMax(names, lines[1..], next);
      assert lines[0] in lines && (forall p <- lines[1..] :: p in lines) && lines == [lines[0]] + lines[1..];
    }
  }

  /// The start of the line that byte `at` is in.
  function LineOf(file: seq<Byte>, at: nat, base: nat): (s: nat)
    requires at < |file| && LineStart(file, base) && base <= at
    ensures base <= s <= at && LineStart(file, s) && NextNewline(file, s) == NextNewline(file, at)
  {
    if at == base || file[at - 1] == NEWLINE then at else LineOf(file, at - 1, base)
  }

  /// Each line of a stretch, from inside a line or not, is the end of one of the lines in front of the offset.
  lemma StretchLineIsAnEnd(file: seq<Byte>, base: nat, at: nat, start: nat, p: Placed) returns (whole: Placed, k: nat)
    requires base <= at <= start && LineStart(file, base) && LineStart(file, start) && p in LinesIn(file, at, start)
    ensures whole in LinesIn(file, base, start) && k <= |whole.line| && p.line == whole.line[k..]
  {
    hide LinesIn;
    if at == start { NoLinesIn(file, at); assert false; }
    var s, e := LineOf(file, at, base), NextNewline(file, at);
    LinesInTurn(file, at, start);
    LinesInTurn(file, s, start);
    LinesInConcat(file, base, s, start);
    if p == LineAt(file, at) {
      whole, k := LineAt(file, s), at - s;
      assert file[s..e][at - s..] == file[at..e];
    } else {
      whole, k := p, 0;
    }
  }

  /**
   The look-back finds the newest block named in front of the offset if and only if some line of the stretch
   names that block, or no line in front of the offset names any.
   */
  lemma LookBackFindsNewestIff(r: Reader, names: Line -> Option<nat>, file: seq<Byte>, start: nat, window: nat)
    requires LineStart(file, start) && AgreeOn(r, names, LinesIn(file, 0, start))
    ensures var newest := NewestNamed(r, LinesIn(file, 0, start), None);
            LookBack(names, file, start, window) == newest <==>
            newest.None? || Names(names, Stretch(file, start, window), newest.value)
  {
    hide LinesIn, AfterLine, MaxNamed, NewestNamed;
    var whole, lines := LinesIn(file, 0, start), Stretch(file, start, window);
    MaxNamedIsNewest(r, names, whole, None);
    MaxNamedIsMax(names, whole, None);
    MaxNamedIsMax(names, lines, None);
    if start == StretchStart(start, window) { NoLinesIn(file, start); }
    forall p <- lines | names(p.line).Some?
      ensures NewestNamed(r, whole, None).Some? && names(p.line).value <= NewestNamed(r, whole, None).value
    {
      var q, k := StretchLineIsAnEnd(file, 0, StretchStart(start, window), start, p);
      assert Agree(r, names, q.line);
    }
  }

  /**
   So an answer is the part of the pass from the top that it stands for, at every height, when a line of the stretch
   names the newest block in front of the offset, or none is named there, and what the answer itself reads in front
   of its first submission without a head names no block, or one up to that.
   */
  lemma AnswerWithLookBackIsThatOfThePass(
      r: Reader, names: Line -> Option<nat>, file: seq<Byte>, start: nat, limit: nat, window: nat)
    requires LineStart(file, start) && AgreeOn(r, names, LinesIn(file, 0, start))
    requires r.lookback == LookBack(names, file, start, window)
    requires var newest := NewestNamed(r, LinesIn(file, 0, start), None);
             (newest.None? || Names(names, Stretch(file, start, window), newest.value)) &&
             CaughtUp(r, LinesIn(file, start, LastLineEnd(file, start, Min(|file|, start + limit))), None, newest)
    ensures var stop := LastLineEnd(file, start, Min(|file|, start + limit));
            var newest := NewestNamed(r, LinesIn(file, 0, start), None);
            forall height :: Poll(AtHeight(r, height), file, start, limit) ==
                             Walk(OnePass(AtHeight(r, height)), file, start, stop, newest)
  {
    hide Walk, LastLineEnd, LookBack, NewestNamed, LinesIn, CaughtUp, DatedAlike, AgreeOn;
    var stop := LastLineEnd(file, start, Min(|file|, start + limit));
    var newest := NewestNamed(r, LinesIn(file, 0, start), None);
    LookBackFindsNewestIff(r, names, file, start, window);
    CaughtUpIsDatedAlike(r, LinesIn(file, start, stop), None, newest, None);
    AnswerIsThatOfThePassIff(r, file, start, limit);
  }

  // ---------------------------------------------------------------- evidence out of reach, and evidence that drops

  /// A file of these lines.
  function Written(lines: seq<Line>): (file: seq<Byte>)
    ensures if lines == [] then file == [] else file != [] && file[|file| - 1] == NEWLINE
  {
    if lines == [] then [] else lines[0] + ([NEWLINE] + Written(lines[1..]))
  }

  ghost predicate OneLineEach(lines: seq<Line>) { forall line <- lines :: NEWLINE !in line }

  lemma {:induction false} WrittenConcat(a: seq<Line>, b: seq<Line>)
    ensures Written(a + b) == Written(a) + Written(b)
    decreases |a|
  {
    if a == [] {
      Units(b);
      Units(Written(b));
    } else {
      assert (a + b)[0] == a[0] && (a + b)[1..] == a[1..] + b;
      WrittenConcat(a[1..], b);
      assert Written(a) == a[0] + ([NEWLINE] + Written(a[1..]));
    }
  }

  lemma {:induction false} NextNewlineIs(file: seq<Byte>, at: nat, e: nat)
    requires at <= e < |file| && file[e] == NEWLINE && forall k :: at <= k < e ==> file[k] != NEWLINE
    ensures NextNewline(file, at) == e
    decreases e - at
  {
    if at < e { NextNewlineIs(file, at + 1, e); }
  }

  /// A line is read where it stands.
  lemma LineStands(file: seq<Byte>, at: nat, line: Line, rest: seq<Byte>)
    requires at <= |file| && file[at..] == line + ([NEWLINE] + rest) && NEWLINE !in line
    ensures LineAt(file, at) == Placed(at, line) && NextNewline(file, at) == at + |line| < |file|
    ensures file[at + |line| + 1..] == rest
  {
    hide NextNewline;
    var n := |line|;
    assert |file[at..]| == n + 1 + |rest|;
    forall k | at <= k < at + n ensures file[k] != NEWLINE {
      assert file[k] == file[at..][k - at] == line[k - at];
    }
    assert file[at + n] == file[at..][n] == NEWLINE;
    NextNewlineIs(file, at, at + n);
    assert file[at..at + n] == file[at..][..n] == line;
    assert file[at + n + 1..] == file[at..][n + 1..] == rest;
  }

  lemma Regrouped(line: Line, more: seq<Byte>, rest: seq<Byte>)
    ensures line + ([NEWLINE] + more) + rest == line + ([NEWLINE] + (more + rest))
  {}

  /// What was written is read back line by line.
  lemma {:induction false} WrittenLines(file: seq<Byte>, at: nat, lines: seq<Line>, rest: seq<Byte>)
    requires at <= |file| && file[at..] == Written(lines) + rest && OneLineEach(lines)
    ensures var end := at + |Written(lines)|;
            end <= |file| && file[end..] == rest && (at < end ==> file[end - 1] == NEWLINE) &&
            forall p <- LinesIn(file, at, end) :: p.line in lines
    decreases |lines|
  {
    hide LinesIn, NextNewline, LineAt;
    var end := at + |Written(lines)|;
    assert |file[at..]| == |Written(lines)| + |rest|;
    if lines == [] {
      NoLinesIn(file, at);
    } else {
      var line, more := lines[0], Written(lines[1..]);
      assert Written(lines) == line + ([NEWLINE] + more);
      Regrouped(line, more, rest);
      LineStands(file, at, line, more + rest);
      WrittenLines(file, at + |line| + 1, lines[1..], rest);
      assert file[end - 1] == file[at..][|Written(lines)| - 1] == NEWLINE;
      LinesInTurn(file, at, end);
    }
  }

  predicate Reports(r: Reader, line: Line, block: nat) {
    !r.blank(line) && r.parse(line) == Report(Some(block))
  }

  /// A file of some lines and more after them.
  lemma FrontLines(first: Line, others: seq<Line>, rest: seq<Byte>)
    requires OneLineEach([first] + others)
    ensures var front := Written([first] + others);
            var file, second, start := front + rest, |first| + 1, |front|;
            second + |Written(others)| == start && LineStart(file, start) && LineStart(file, second) &&
            file[start..] == rest &&
            LinesIn(file, 0, start) == [Placed(0, first)] + LinesIn(file, second, start) &&
            forall p <- LinesIn(file, second, start) :: p.line in others
  {
    hide LinesIn, NextNewline, LineAt, Written;
    WrittenTurn(first, others);
    var front := Written([first] + others);
    var file := front + rest;
    assert file[0..] == first + ([NEWLINE] + (Written(others) + rest));
    LineStands(file, 0, first, Written(others) + rest);
    assert first in [first] + others && forall line <- others :: line in [first] + others;
    WrittenLines(file, |first| + 1, others, rest);
    LinesInTurn(file, 0, |front|);
  }

  lemma WrittenTurn(first: Line, others: seq<Line>)
    ensures Written([first] + others) == first + ([NEWLINE] + Written(others))
  {
    assert ([first] + others)[1..] == others;
  }

  /// A stretch that does not reach the first line names what the others name, or nothing.
  lemma StretchOfOthers(r: Reader, names: Line -> Option<nat>, first: Line, others: seq<Line>, rest: seq<Byte>,
                        window: nat)
    requires OneLineEach([first] + others) && window <= |Written(others)| &&
             forall line <- others :: Agree(r, names, line)
    ensures var front := Written([first] + others);
            forall p <- Stretch(front + rest, |front|, window) :: names(p.line).Some? ==>
              exists line <- others :: names(line) == names(p.line)
  {
    hide LinesIn, Written;
    FrontLines(first, others, rest);
    var front := Written([first] + others);
    var file, start := front + rest, |front|;
    forall p <- Stretch(file, start, window) | names(p.line).Some?
      ensures exists line <- others :: names(line) == names(p.line)
    {
      var q, k := StretchLineIsAnEnd(file, |first| + 1, StretchStart(start, window), start, p);
      assert Agree(r, names, q.line);
    }
  }

  /// The newest block is the first line's when no other names a higher one.
  lemma NewestIsFirst(r: Reader, names: Line -> Option<nat>, first: Line, others: seq<Line>, rest: seq<Byte>,
                      block: nat)
    requires OneLineEach([first] + others) && forall line <- [first] + others :: Agree(r, names, line)
    requires Reports(r, first, block) && forall line <- others :: names(line).Some? ==> names(line).value <= block
    ensures var front := Written([first] + others);
            NewestNamed(r, LinesIn(front + rest, 0, |front|), None) == Some(block)
  {
    hide LinesIn, Written, MaxNamed, NewestNamed;
    FrontLines(first, others, rest);
    var front := Written([first] + others);
    var lines := LinesIn(front + rest, 0, |front|);
    assert first in [first] + others && forall line <- others :: line in [first] + others;
    assert lines[0] in lines && names(lines[0].line) == Some(block);
    MaxNamedIsNewest(r, names, lines, None);
    MaxNamedIsMax(names, lines, None);
  }

  /// What decides a submission without a head at the start of a walk.
  lemma FirstLine(r: Reader, file: seq<Byte>, start: nat, stop: nat, seen: Option<nat>)
    requires start < stop <= |file| && file[stop - 1] == NEWLINE && Headless(r, LineAt(file, start).line)
    ensures NextNewline(file, start) < stop
    ensures var date := Following(Newest(seen, r.lookback));
            if Mined(r.height, date) then Walk(r, file, start, stop, seen).1 > NextNewline(file, start)
            else Walk(r, file, start, stop, seen).1 == start
  {
    hide Walk, NextNewline, Mined;
    WalkTurn(r, file, start, stop, seen);
    HeadlessIsDated(r, LineAt(file, start).line, seen);
  }

  /// The same for an answer, and for the pass that goes on from there.
  lemma FirstSubmission(r: Reader, file: seq<Byte>, start: nat, limit: nat, before: Option<nat>, line: Line,
                        after: seq<Byte>)
    requires start <= |file| && file[start..] == line + ([NEWLINE] + after) && NEWLINE !in line && Headless(r, line)
    ensures Poll(r, file, start, limit).1 > start <==> limit > |line| && Mined(r.height, Following(r.lookback))
    ensures start + |line| < |file| && file[start + |line|] == NEWLINE
    ensures Walk(OnePass(r), file, start, start + |line| + 1, before).1 ==
            if Mined(r.height, Following(before)) then start + |line| + 1 else start
  {
    hide Walk, NextNewline, Mined, LastLineEnd, LineAt, Following, Poll;
    LineStands(file, start, line, after);
    FirstAnswer(r, file, start, limit);
    PassAtLine(r, file, start, before);
  }

  lemma FirstAnswer(r: Reader, file: seq<Byte>, start: nat, limit: nat)
    requires start <= |file| && NextNewline(file, start) < |file| && Headless(r, LineAt(file, start).line)
    ensures Poll(r, file, start, limit).1 > start <==>
            limit > NextNewline(file, start) - start && Mined(r.height, Following(r.lookback))
  {
    hide Walk, NextNewline, Mined, LastLineEnd, LineAt, Following;
    AnswerReachesLine(file, start, limit);
    var stop := LastLineEnd(file, start, Min(|file|, start + limit));
    if start < stop { FirstLine(r, file, start, stop, None); } else { WalkEnds(r, file, stop, None); }
  }

  lemma PassAtLine(r: Reader, file: seq<Byte>, start: nat, before: Option<nat>)
    requires start <= |file| && NextNewline(file, start) < |file| && Headless(r, LineAt(file, start).line)
    ensures var end := NextNewline(file, start) + 1;
            Walk(OnePass(r), file, start, end, before).1 == if Mined(r.height, Following(before)) then end else start
  {
    hide Walk, NextNewline, Mined, LineAt, Following;
    FirstLine(OnePass(r), file, start, NextNewline(file, start) + 1, before);
  }

  /// An answer reads the first line if and only if it fits.
  lemma AnswerReachesLine(file: seq<Byte>, start: nat, limit: nat)
    requires start <= |file| && NextNewline(file, start) < |file|
    ensures LastLineEnd(file, start, Min(|file|, start + limit)) > start <==> limit > NextNewline(file, start) - start
  {
    var e, end := NextNewline(file, start), Min(|file|, start + limit);
    hide NextNewline, LastLineEnd;
    if e < end { LastIsLast(file, start, end, e); } else { NoLineEnd(file, start, end); }
  }

  lemma {:induction false} NoLineEnd(file: seq<Byte>, a: nat, b: nat)
    requires a <= b <= |file| && b <= NextNewline(file, a)
    ensures LastLineEnd(file, a, b) == a
    decreases b - a
  {
    if a < b {
      if file[b - 1] == NEWLINE { NextIsFirst(file, a, b - 1); }
      NoLineEnd(file, a, b - 1);
    }
  }

  /// The evidence is in front of the stretch, and the stretch names nothing.
  lemma FarEvidence(r: Reader, names: Line -> Option<nat>, first: Line, quiet: seq<Line>, rest: seq<Byte>,
                    block: nat, window: nat)
    requires OneLineEach([first] + quiet) && window <= |Written(quiet)|
    requires (forall line <- [first] + quiet :: Agree(r, names, line)) && forall line <- quiet :: names(line).None?
    requires Reports(r, first, block)
    ensures var front := Written([first] + quiet);
            var file, start := front + rest, |front|;
            file[start..] == rest && LineStart(file, start) && LookBack(names, file, start, window) == None &&
            NewestNamed(r, LinesIn(file, 0, start), None) == Some(block)
  {
    hide LinesIn, Written, MaxNamed, NewestNamed, Agree, OneLineEach;
    var front := Written([first] + quiet);
    assert forall line <- quiet :: line in [first] + quiet;
    FrontLines(first, quiet, rest);
    StretchOfOthers(r, names, first, quiet, rest, window);
    MaxNamedIsMax(names, Stretch(front + rest, |front|, window), None);
    NewestIsFirst(r, names, first, quiet, rest, block);
  }

  /**
   Whatever the length of the stretch: with the evidence in front of it, a submission whose block is mined holds the
   tail up, request after request, where the pass from the top serves or drops it.
   */
  lemma FarEvidenceHoldsTheTailUp(r: Reader, names: Line -> Option<nat>, first: Line, quiet: seq<Line>,
                                  submission: Line, after: seq<Byte>, block: nat, window: nat, limit: nat)
    requires OneLineEach([first] + quiet) && NEWLINE !in submission && window <= |Written(quiet)|
    requires (forall line <- [first] + quiet :: Agree(r, names, line)) && forall line <- quiet :: names(line).None?
    requires Reports(r, first, block) && Headless(r, submission)
    requires r.height.At? && r.height.block >= block + 1 + TX_MINED_MARGIN
    requires var front := Written([first] + quiet);
             r.lookback == LookBack(names, front + (submission + ([NEWLINE] + after)), |front|, window)
    ensures var front := Written([first] + quiet);
            var file, start := front + (submission + ([NEWLINE] + after)), |front|;
            Poll(r, file, start, limit).1 == start &&
            Walk(OnePass(r), file, start, start + |submission| + 1, NewestNamed(r, LinesIn(file, 0, start), None)).1 ==
              start + |submission| + 1
  {
    hide Walk, LinesIn, Written, LookBack, NewestNamed, Agree, OneLineEach, Poll;
    var front, rest := Written([first] + quiet), submission + ([NEWLINE] + after);
    FarEvidence(r, names, first, quiet, rest, block, window);
    FirstSubmission(r, front + rest, |front|, limit, Some(block), submission, after);
  }

  /// The stretch holds a line that names a block, and the newest is in front of it.
  lemma LowerEvidence(r: Reader, names: Line -> Option<nat>, first: Line, quiet: seq<Line>, lower: Line,
                      rest: seq<Byte>, high: nat, low: nat, window: nat)
    requires OneLineEach([first] + (quiet + [lower])) && |lower| < window <= |Written(quiet + [lower])|
    requires (forall line <- [first] + (quiet + [lower]) :: Agree(r, names, line)) &&
             forall line <- quiet :: names(line).None?
    requires Reports(r, first, high) && Reports(r, lower, low) && low < high
    ensures var front := Written([first] + (quiet + [lower]));
            var file, start := front + rest, |front|;
            file[start..] == rest && LineStart(file, start) && LookBack(names, file, start, window) == Some(low) &&
            NewestNamed(r, LinesIn(file, 0, start), None) == Some(high)
  {
    hide LinesIn, Written, MaxNamed, NewestNamed, OneLineEach;
    var others := quiet + [lower];
    var front := Written([first] + others);
    var file, start := front + rest, |front|;
    assert forall line <- others :: line in [first] + others;
    assert lower in others && names(lower) == Some(low);
    FrontLines(first, others, rest);
    StretchOfOthers(r, names, first, others, rest, window);
    MaxNamedIsMax(names, Stretch(file, start, window), None);
    LastLineIsInStretch(first, quiet, lower, rest, window);
    NewestIsFirst(r, names, first, others, rest, high);
  }

  lemma LastLineIsInStretch(first: Line, quiet: seq<Line>, lower: Line, rest: seq<Byte>, window: nat)
    requires OneLineEach([first] + (quiet + [lower])) && |lower| < window
    ensures var front := Written([first] + (quiet + [lower]));
            LineStart(front + rest, |front|) &&
            exists p <- Stretch(front + rest, |front|, window) :: p.line == lower
  {
    hide LinesIn, NextNewline, LineAt;
    var before := Written([first] + quiet);
    var front := Written([first] + (quiet + [lower]));
    var file, start, at := front + rest, |front|, |before|;
    assert lower in [first] + (quiet + [lower]);
    LastLineStands(first, quiet, lower, rest);
    LineStands(file, at, lower, rest);
    LinesInTurn(file, at, start);
    LinesInConcat(file, StretchStart(start, window), at, start);
    assert LineAt(file, at) in Stretch(file, start, window);
  }

  lemma LastLineStands(first: Line, quiet: seq<Line>, lower: Line, rest: seq<Byte>)
    ensures var before, front := Written([first] + quiet), Written([first] + (quiet + [lower]));
            |front| == |before| + |lower| + 1 && (front + rest)[..|before|] == before &&
            (front + rest)[|before|..] == lower + ([NEWLINE] + rest)
  {
    assert [first] + (quiet + [lower]) == ([first] + quiet) + [lower];
    WrittenConcat([first] + quiet, [lower]);
    assert Written([lower]) == lower + ([NEWLINE] + []) == lower + [NEWLINE];
  }

  /// A chain mined to here passes what is dated by `low` and not what is dated by `high`.
  predicate Between(height: Height, low: nat, high: nat) {
    height.At? && low + 1 + TX_MINED_MARGIN <= height.block < high + 1 + TX_MINED_MARGIN
  }

  /**
   With only lower evidence in the stretch, the look-back finds that, and a submission is passed before its block is
   mined by the date of the pass from the top, which holds it.
   */
  lemma LowerEvidenceInStretchPassesEarly(
      r: Reader, names: Line -> Option<nat>, first: Line, quiet: seq<Line>, lower: Line, submission: Line,
      after: seq<Byte>, high: nat, low: nat, window: nat, limit: nat)
    requires OneLineEach([first] + (quiet + [lower])) && NEWLINE !in submission
    requires |lower| < window <= |Written(quiet + [lower])| && |submission| < limit
    requires (forall line <- [first] + (quiet + [lower]) :: Agree(r, names, line)) &&
             forall line <- quiet :: names(line).None?
    requires Reports(r, first, high) && Reports(r, lower, low) && Headless(r, submission) &&
             Between(r.height, low, high)
    requires var front := Written([first] + (quiet + [lower]));
             r.lookback == LookBack(names, front + (submission + ([NEWLINE] + after)), |front|, window)
    ensures var front := Written([first] + (quiet + [lower]));
            var file, start := front + (submission + ([NEWLINE] + after)), |front|;
            r.lookback == Some(low) && Poll(r, file, start, limit).1 > start &&
            Walk(OnePass(r), file, start, start + |submission| + 1,
                 NewestNamed(r, LinesIn(file, 0, start), None)).1 == start
  {
    hide Walk, LinesIn, Written, LookBack, NewestNamed, Agree, OneLineEach, Poll;
    var front, rest := Written([first] + (quiet + [lower])), submission + ([NEWLINE] + after);
    LowerEvidence(r, names, first, quiet, lower, rest, high, low, window);
    FirstSubmission(r, front + rest, |front|, limit, Some(high), submission, after);
  }

  /**
   With the newest evidence looked up, an answer that reads a lower one first forgets what was looked up, and passes
   a submission that the pass from the top holds.
   */
  lemma LowerEvidenceInAnswerPassesEarly(r: Reader, file: seq<Byte>, start: nat, limit: nat, high: nat, low: nat)
    requires LineStart(file, start) && NextNewline(file, start) + 1 < |file|
    requires var at := NextNewline(file, start) + 1;
             NextNewline(file, at) < Min(|file|, start + limit) && Headless(r, LineAt(file, at).line)
    requires r.lookback == NewestNamed(r, LinesIn(file, 0, start), None) == Some(high)
    requires Reports(r, LineAt(file, start).line, low) && Between(r.height, low, high)
    ensures var at := NextNewline(file, start) + 1;
            Poll(r, file, start, limit).1 > NextNewline(file, at) &&
            Walk(OnePass(r), file, start, NextNewline(file, at) + 1,
                 NewestNamed(r, LinesIn(file, 0, start), None)).1 == at
  {
    hide Walk, NextNewline, LastLineEnd, LineAt, NewestNamed, LinesIn, Mined, Following;
    var at, end := NextNewline(file, start) + 1, Min(|file|, start + limit);
    LastIsLast(file, start, end, NextNewline(file, at));
    OnlyBetween(r.height, low, high);
    TwoLines(r, file, start, LastLineEnd(file, start, end), None, low);
    TwoLines(OnePass(r), file, start, NextNewline(file, at) + 1, Some(high), low);
  }

  lemma OnlyBetween(height: Height, low: nat, high: nat)
    requires Between(height, low, high)
    ensures Mined(height, Following(Some(low))) && !Mined(height, Following(Some(high)))
  {}

  /// A line that reports a block, and a submission behind it.
  lemma TwoLines(r: Reader, file: seq<Byte>, start: nat, stop: nat, seen: Option<nat>, block: nat)
    requires start < stop <= |file| && file[stop - 1] == NEWLINE && NextNewline(file, start) + 1 < stop
    requires Reports(r, LineAt(file, start).line, block)
    requires Headless(r, LineAt(file, NextNewline(file, start) + 1).line)
    ensures var at := NextNewline(file, start) + 1;
            if Mined(r.height, Following(Raised(seen, block)))
            then Walk(r, file, start, stop, seen).1 > NextNewline(file, at)
            else Walk(r, file, start, stop, seen).1 == at
  {
    hide Walk, NextNewline, Mined;
    WalkTurn(r, file, start, stop, seen);
    FirstLine(r, file, NextNewline(file, start) + 1, stop, Raised(seen, block));
  }
}
