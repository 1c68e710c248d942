/**
 What a client of the tail receives over a whole session, however the file grew between its requests
 and whatever each request knew of the chain.
 */
module TailDelivery {
  import opened Basics
  import opened Tail

  /// One request: what the server knew, the file as it stood, the bytes asked for.
  datatype Request = Request(reader: Reader, file: seq<Byte>, limit: nat)

  /// A file only ever appended to, and one notion of a blank line.
  ghost predicate AppendOnly(reqs: seq<Request>, blank: Line -> bool) {
    (forall k :: 0 <= k < |reqs| ==> reqs[k].reader.blank == blank) &&
    (forall k :: 0 < k < |reqs| ==> reqs[k - 1].file <= reqs[k].file)
  }

  /// The session: each request asks from the offset the one before it answered.
  function Session(offset: nat, reqs: seq<Request>): (s: (seq<Entry>, nat))
    requires reqs != [] ==> offset <= |reqs[0].file|
    requires forall k :: 0 < k < |reqs| ==> reqs[k - 1].file <= reqs[k].file
    decreases |reqs|
  {
    if reqs == [] then ([], offset) else
      var (entries, next) := Poll(reqs[0].reader, reqs[0].file, offset, reqs[0].limit);
      var (more, last) := Session(next, reqs[1..]);
      (entries + more, last)
  }

  // ---------------------------------------------------------------- exactly once

  ghost predicate NoneHeld(entries: seq<Entry>) { forall e <- entries :: !e.decision.Hold? }

  lemma {:induction false} WalkDelivers(r: Reader, file: seq<Byte>, from: nat, stop: nat, seen: Option<nat>)
    requires from <= stop <= |file| && (from < stop ==> file[stop - 1] == NEWLINE)
    ensures var (entries, next) := Walk(r, file, from, stop, seen);
            Placing(entries) == NonBlank(r.blank, LinesIn(file, from, next)) && NoneHeld(entries)
    decreases stop - from
  {
    hide Redact, Walk, LinesIn, NextNewline, NonBlank;
    if from == stop {
      WalkEnds(r, file, stop, seen);
      NoLinesIn(file, from);
      NothingNonBlank(r.blank);
    } else {
      WalkTurn(r, file, from, stop, seen);
      var e := NextNewline(file, from);
      var seen' := if r.blank(file[from..e]) then seen else Redact(r, file[from..e], seen).1;
      WalkDelivers(r, file, e + 1, stop, seen');
      var next := Walk(r, file, from, stop, seen).1;
      if next > from {
        LinesInTurn(file, from, next);
        NonBlankTurn(r.blank, LineAt(file, from), LinesIn(file, e + 1, next));
      } else {
        NoLinesIn(file, from);
        NothingNonBlank(r.blank);
      }
    }
  }

  lemma NothingNonBlank(blank: Line -> bool)
    ensures NonBlank(blank, []) == []
  {}

  lemma NonBlankTurn(blank: Line -> bool, line: Placed, rest: seq<Placed>)
    ensures NonBlank(blank, [line] + rest) == (if blank(line.line) then [] else [line]) + NonBlank(blank, rest)
  {
    assert ([line] + rest)[1..] == rest;
  }

  /// The lines decided are precisely the non-blank lines of file[offset..last], in order, none held,
  /// and `last` is where a line ends.
  ghost predicate DeliveredOnce(file: seq<Byte>, blank: Line -> bool, offset: nat, last: nat, entries: seq<Entry>) {
    offset <= last <= |file| && (offset < last ==> file[last - 1] == NEWLINE) &&
    Placing(entries) == NonBlank(blank, LinesIn(file, offset, last)) && NoneHeld(entries)
  }

  lemma DeliveredThenMore(file: seq<Byte>, whole: seq<Byte>, blank: Line -> bool, offset: nat, next: nat, last: nat,
                          entries: seq<Entry>, more: seq<Entry>)
    requires file <= whole
    requires DeliveredOnce(file, blank, offset, next, entries) && DeliveredOnce(whole, blank, next, last, more)
    ensures DeliveredOnce(whole, blank, offset, last, entries + more)
  {
    LinesInStable(file, whole, offset, next);
    LinesInConcat(whole, offset, next, last);
    NonBlankConcat(blank, LinesIn(whole, offset, next), LinesIn(whole, next, last));
    EntriesConcat(entries, more);
  }

  lemma PollDelivers(r: Reader, file: seq<Byte>, offset: nat, limit: nat)
    requires offset <= |file|
    ensures DeliveredOnce(file, r.blank, offset, Poll(r, file, offset, limit).1, Poll(r, file, offset, limit).0)
  {
    WalkDelivers(r, file, offset, LastLineEnd(file, offset, Min(|file|, offset + limit)), None);
  }

  /**
   Exactly once, in file order: the lines decided over a session are precisely the non-blank lines of
   the file between the offset it started from and the one it ends at, and none of them was held.
   */
  lemma {:induction false} SessionDeliversOnce(offset: nat, reqs: seq<Request>, blank: Line -> bool)
    requires reqs != [] && AppendOnly(reqs, blank) && offset <= |reqs[0].file|
    ensures var (entries, last) := Session(offset, reqs);
            DeliveredOnce(reqs[|reqs| - 1].file, blank, offset, last, entries)
    decreases |reqs|
  {
    hide DeliveredOnce, Poll;
    var r, file := reqs[0].reader, reqs[0].file;
    var (entries, next) := Poll(r, file, offset, reqs[0].limit);
    PollDelivers(r, file, offset, reqs[0].limit);
    var rest := reqs[1..];
    var (more, last) := Session(next, rest);
    assert Session(offset, reqs) == (entries + more, last);
    if rest == [] {
      assert entries + more == entries;
    } else {
      assert rest[0] == reqs[1] && rest[|rest| - 1] == reqs[|reqs| - 1];
      SessionDeliversOnce(next, rest, blank);
      PrefixChain(reqs, |reqs| - 1);
      DeliveredThenMore(file, reqs[|reqs| - 1].file, blank, offset, next, last, entries, more);
    }
  }

  lemma {:induction false} PrefixChain(reqs: seq<Request>, k: nat)
    requires k < |reqs| && forall j :: 0 < j < |reqs| ==> reqs[j - 1].file <= reqs[j].file
    ensures reqs[0].file <= reqs[k].file
  {
    if k > 0 { PrefixChain(reqs, k - 1); }
  }

  /// The texts of the answers, one after another, are the text of the session.
  function AnswersText(offset: nat, reqs: seq<Request>): seq<Byte>
    requires reqs != [] ==> offset <= |reqs[0].file|
    requires forall k :: 0 < k < |reqs| ==> reqs[k - 1].file <= reqs[k].file
    decreases |reqs|
  {
    if reqs == [] then [] else
      var (entries, next) := Poll(reqs[0].reader, reqs[0].file, offset, reqs[0].limit);
      Text(entries) + AnswersText(next, reqs[1..])
  }

  lemma {:induction false} AnswersConcatenate(offset: nat, reqs: seq<Request>)
    requires reqs != [] ==> offset <= |reqs[0].file|
    requires forall k :: 0 < k < |reqs| ==> reqs[k - 1].file <= reqs[k].file
    ensures AnswersText(offset, reqs) == Text(Session(offset, reqs).0)
    decreases |reqs|
  {
    if reqs != [] {
      var (entries, next) := Poll(reqs[0].reader, reqs[0].file, offset, reqs[0].limit);
      AnswersConcatenate(next, reqs[1..]);
      EntriesConcat(entries, Session(next, reqs[1..]).0);
    }
  }

  // ---------------------------------------------------------------- what was delivered

  /// What the audience is served of a line that may be shown; None leaves nothing.
  type View = Line -> Option<Line>

  function Shown(view: View, line: Line): Decision { if view(line).Some? then Serve(view(line).value) else Drop }

  /// The lines as `view` serves them, one after another.
  function ViewText(view: View, lines: seq<Placed>): seq<Byte> {
    if lines == [] then [] else Served(Shown(view, lines[0].line)) + ViewText(view, lines[1..])
  }

  ghost predicate DecidedBy(view: View, entries: seq<Entry>) {
    forall e <- entries :: e.decision == Shown(view, e.line)
  }

  /// A line that is not held is served as its view has it, or dropped when that has nothing.
  lemma {:induction false} WalkShows(r: Reader, file: seq<Byte>, from: nat, stop: nat, seen: Option<nat>)
    requires from <= stop <= |file| && (from < stop ==> file[stop - 1] == NEWLINE)
    ensures DecidedBy(r.view, Walk(r, file, from, stop, seen).0)
    decreases stop - from
  {
    hide Walk, NextNewline;
    if from == stop {
      WalkEnds(r, file, stop, seen);
    } else {
      WalkTurn(r, file, from, stop, seen);
      var e := NextNewline(file, from);
      WalkShows(r, file, e + 1, stop, if r.blank(file[from..e]) then seen else Redact(r, file[from..e], seen).1);
    }
  }

  lemma {:induction false} TextIsViewText(view: View, entries: seq<Entry>)
    requires DecidedBy(view, entries)
    ensures Text(entries) == ViewText(view, Placing(entries))
  {
    if entries != [] {
      assert DecidedBy(view, entries[1..]);
      TextIsViewText(view, entries[1..]);
      assert Placing(entries)[1..] == Placing(entries[1..]);
    }
  }

  /// One answer's text is its lines as the request's own view serves them.
  lemma PollServesItsView(r: Reader, file: seq<Byte>, offset: nat, limit: nat)
    requires offset <= |file|
    ensures var (entries, next) := Poll(r, file, offset, limit);
            DeliveredOnce(file, r.blank, offset, next, entries) &&
            Text(entries) == ViewText(r.view, NonBlank(r.blank, LinesIn(file, offset, next)))
  {
    hide Walk, ViewText, NonBlank, LinesIn, LastLineEnd;
    PollDelivers(r, file, offset, limit);
    WalkShows(r, file, offset, LastLineEnd(file, offset, Min(|file|, offset + limit)), None);
    TextIsViewText(r.view, Poll(r, file, offset, limit).0);
  }

  ghost predicate OneView(reqs: seq<Request>, view: View) { forall q <- reqs :: q.reader.view == view }

  lemma {:induction false} SessionShows(offset: nat, reqs: seq<Request>, view: View)
    requires reqs != [] ==> offset <= |reqs[0].file|
    requires forall k :: 0 < k < |reqs| ==> reqs[k - 1].file <= reqs[k].file
    requires OneView(reqs, view)
    ensures DecidedBy(view, Session(offset, reqs).0)
    decreases |reqs|
  {
    if reqs != [] {
      var r, file, limit := reqs[0].reader, reqs[0].file, reqs[0].limit;
      assert reqs[0] in reqs;
      hide Walk, LastLineEnd, Shown;
      WalkShows(r, file, offset, LastLineEnd(file, offset, Min(|file|, offset + limit)), None);
      SessionShows(Poll(r, file, offset, limit).1, reqs[1..], view);
    }
  }

  /**
   What the client has after a session: each non-blank line between the first offset and the last, in file
   order, as the audience is served it, with nothing left of the dropped ones.
   */
  lemma SessionServesEveryLine(offset: nat, reqs: seq<Request>, blank: Line -> bool, view: View)
    requires reqs != [] && AppendOnly(reqs, blank) && OneView(reqs, view) && offset <= |reqs[0].file|
    ensures var file, last := reqs[|reqs| - 1].file, Session(offset, reqs).1;
            offset <= last <= |file| && (offset < last ==> file[last - 1] == NEWLINE) &&
            AnswersText(offset, reqs) == ViewText(view, NonBlank(blank, LinesIn(file, offset, last)))
  {
    hide Session, AnswersText, Text, ViewText, NonBlank, LinesIn, DecidedBy, OneView, NoneHeld;
    SessionDeliversOnce(offset, reqs, blank);
    AnswersConcatenate(offset, reqs);
    SessionShows(offset, reqs, view);
    TextIsViewText(view, Session(offset, reqs).0);
  }

  // ---------------------------------------------------------------- reaching the end

  /// What the redaction has seen once it has read `lines`.
  function SeenThrough(r: Reader, lines: seq<Placed>, seen: Option<nat>): Option<nat> {
    if lines == [] then seen
    else SeenThrough(r, lines[1..], if r.blank(lines[0].line) then seen else Redact(r, lines[0].line, seen).1)
  }

  /// An answer that stops short of the lines it read stands in front of a line the redaction holds.
  lemma {:induction false} WalkStopsOnlyAtHold(r: Reader, file: seq<Byte>, from: nat, stop: nat, seen: Option<nat>)
    requires from <= stop <= |file| && (from < stop ==> file[stop - 1] == NEWLINE)
    ensures var next := Walk(r, file, from, stop, seen).1;
            next < stop ==>
              var line := file[next..NextNewline(file, next)];
              !r.blank(line) && Redact(r, line, SeenThrough(r, LinesIn(file, from, next), seen)).0.Hold?
    decreases stop - from
  {
    hide Walk, NextNewline, LinesIn, Redact;
    if from == stop {
      WalkEnds(r, file, stop, seen);
    } else {
      WalkTurn(r, file, from, stop, seen);
      var e := NextNewline(file, from);
      var line := file[from..e];
      var seen' := if r.blank(line) then seen else Redact(r, line, seen).1;
      if r.blank(line) || !Redact(r, line, seen).0.Hold? {
        WalkStopsOnlyAtHold(r, file, e + 1, stop, seen');
        var next := Walk(r, file, e + 1, stop, seen').1;
        LinesInTurn(file, from, next);
      } else {
        NoLinesIn(file, from);
      }
    }
  }

  /// The block a submission counts as sent at.
  function DateOf(r: Reader, head: Option<nat>, seen: Option<nat>): Option<nat> {
    if head.Some? then head
    else if Newest(seen, r.lookback).Some? then Some(Newest(seen, r.lookback).value + 1) else None
  }

  /// Only a submission is held, and only until the chain is known to be two blocks past the one it was sent at: its
  /// head, or the block after the newest named where it has none.
  lemma HeldIffNotMined(r: Reader, line: Line, seen: Option<nat>)
    ensures Redact(r, line, seen).0.Hold? <==>
              r.parse(line).Submission? && !Mined(r.height, DateOf(r, r.parse(line).head, seen))
    ensures r.height.At? && r.parse(line).Submission? && r.parse(line).head.Some? ==>
              (Redact(r, line, seen).0.Hold? <==> r.height.block < r.parse(line).head.value + 2)
    ensures r.height.At? && r.parse(line) == Submission(None) && Newest(seen, r.lookback).Some? ==>
              (Redact(r, line, seen).0.Hold? <==> r.height.block < Newest(seen, r.lookback).value + 3)
    ensures r.parse(line).Submission? && (r.height.Unknown? || r.height.Finished?) ==>
              (Redact(r, line, seen).0.Hold? <==> r.height.Unknown?)
  {}

  /// The next request passes the line the last one stopped at if and only if it is mined by then.
  lemma HeldLineIsPassedOnceMined(r: Reader, file: seq<Byte>, at: nat, limit: nat)
    requires at <= |file| && NextNewline(file, at) < Min(|file|, at + limit)
    requires var line := file[at..NextNewline(file, at)]; !r.blank(line) && r.parse(line).Submission?
    ensures var line := file[at..NextNewline(file, at)];
            Poll(r, file, at, limit).1 > NextNewline(file, at) <==>
            Mined(r.height, DateOf(r, r.parse(line).head, None))
    ensures var line := file[at..NextNewline(file, at)];
            r.height.At? && r.parse(line).head.Some? ==>
              (Poll(r, file, at, limit).1 > NextNewline(file, at) <==> r.height.block >= r.parse(line).head.value + 2)
    ensures var line := file[at..NextNewline(file, at)];
            r.height.At? && r.parse(line).head.None? && r.lookback.Some? ==>
              (Poll(r, file, at, limit).1 > NextNewline(file, at) <==> r.height.block >= r.lookback.value + 3)
  {
    hide Walk, LastLineEnd, Redact;
    var end := Min(|file|, at + limit);
    var e, stop := NextNewline(file, at), LastLineEnd(file, at, end);
    LastIsLast(file, at, end, e);
    WalkTurn(r, file, at, stop, None);
    HeldIffNotMined(r, file[at..e], None);
  }

  /// Once the run has finished, an answer moves on exactly when a newline lies within the bytes it reads.
  lemma FinishedPollMoves(r: Reader, file: seq<Byte>, offset: nat, limit: nat)
    requires offset <= |file| && r.height.Finished?
    ensures Poll(r, file, offset, limit).1 == LastLineEnd(file, offset, Min(|file|, offset + limit))
    ensures Poll(r, file, offset, limit).1 > offset <==>
              exists k :: offset <= k < Min(|file|, offset + limit) && file[k] == NEWLINE
  {
    var stop := LastLineEnd(file, offset, Min(|file|, offset + limit));
    WalkStopsOnlyAtHold(r, file, offset, stop, None);
    if k: int :| offset <= k < Min(|file|, offset + limit) && file[k] == NEWLINE {
      LastIsLast(file, offset, Min(|file|, offset + limit), k);
    }
  }

  /// Every line that is ended fits, with its newline, in one request.
  ghost predicate LinesFit(file: seq<Byte>, limit: nat) {
    forall s: nat :: LineStart(file, s) && s <= |file| && NextNewline(file, s) < |file| ==>
                  NextNewline(file, s) - s < limit
  }

  /// Where `n` requests for `limit` bytes each get to on a file that no longer grows.
  function Drain(r: Reader, file: seq<Byte>, limit: nat, offset: nat, n: nat): (e: nat)
    requires offset <= |file|
    ensures offset <= e <= |file|
    decreases n
  {
    if n == 0 then offset else Drain(r, file, limit, Poll(r, file, offset, limit).1, n - 1)
  }

  lemma {:induction false} DrainAdvances(r: Reader, file: seq<Byte>, limit: nat, offset: nat, n: nat)
    requires LineStart(file, offset) && r.height.Finished? && LinesFit(file, limit)
    requires offset <= LastLineEnd(file, 0, |file|) <= offset + n
    ensures Drain(r, file, limit, offset, n) == LastLineEnd(file, 0, |file|)
    decreases n
  {
    hide Poll, LinesFit;
    if n > 0 {
      FinishedPollAdvances(r, file, limit, offset);
      DrainAdvances(r, file, limit, Poll(r, file, offset, limit).1, n - 1);
    }
  }

  /// Short of the last newline a request moves on, never past it, to where a line starts.
  lemma FinishedPollAdvances(r: Reader, file: seq<Byte>, limit: nat, offset: nat)
    requires LineStart(file, offset) && r.height.Finished? && LinesFit(file, limit)
    requires offset <= LastLineEnd(file, 0, |file|)
    ensures var next, end := Poll(r, file, offset, limit).1, LastLineEnd(file, 0, |file|);
            LineStart(file, next) && offset <= next <= end && (offset < end ==> offset < next)
  {
    var next, end := Poll(r, file, offset, limit).1, LastLineEnd(file, 0, |file|);
    FinishedPollMoves(r, file, offset, limit);
    hide Poll, LastLineEnd;
    if offset < end {
      NextIsFirst(file, offset, end - 1);
      var e := NextNewline(file, offset);
      assert offset <= e < Min(|file|, offset + limit) && file[e] == NEWLINE;
    }
    if next > 0 && file[next - 1] == NEWLINE { LastIsLast(file, 0, |file|, next - 1); }
  }

  /// No request gets past a line that does not fit.
  lemma {:induction false} DrainStuck(r: Reader, file: seq<Byte>, limit: nat, offset: nat, n: nat, s: nat)
    requires LineStart(file, s) && offset <= s && r.height.Finished?
    requires NextNewline(file, s) < |file| && NextNewline(file, s) - s >= limit
    ensures Drain(r, file, limit, offset, n) <= s
    decreases n
  {
    if n > 0 {
      var next := Poll(r, file, offset, limit).1;
      FinishedPollMoves(r, file, offset, limit);
      if s < next { NextIsFirst(file, s, next - 1); }
      DrainStuck(r, file, limit, next, n - 1, s);
    }
  }

  /**
   A finished file is delivered to its last newline, by enough requests of `limit` bytes, if and only if
   every ended line fits in one. A single longer line stops the client for good.
   */
  lemma FinishedTailReachesEndIffLinesFit(r: Reader, file: seq<Byte>, limit: nat)
    requires r.height.Finished?
    ensures LinesFit(file, limit) <==>
              Drain(r, file, limit, 0, |file|) == LastLineEnd(file, 0, |file|)
    ensures !LinesFit(file, limit) ==>
              forall n: nat :: Drain(r, file, limit, 0, n) < LastLineEnd(file, 0, |file|)
  {
    if LinesFit(file, limit) {
      DrainAdvances(r, file, limit, 0, |file|);
    } else {
      var s: nat :| LineStart(file, s) && s <= |file| && NextNewline(file, s) < |file| &&
          NextNewline(file, s) - s >= limit;
      var end := LastLineEnd(file, 0, |file|);
      LastIsLast(file, 0, |file|, NextNewline(file, s));
      forall n: nat ensures Drain(r, file, limit, 0, n) < end {
        DrainStuck(r, file, limit, 0, n, s);
      }
    }
  }

  /// A line of two bytes and its newline, asked for two bytes at a time: the client never gets anywhere.
  lemma LongLineStallsTheTail(r: Reader, n: nat)
    requires r.height.Finished?
    ensures var file: seq<Byte> := [65, 65, NEWLINE];
            Drain(r, file, 2, 0, n) == 0 && LastLineEnd(file, 0, 3) == 3
  {
    var file: seq<Byte> := [65, 65, NEWLINE];
    assert NextNewline(file, 2) == 2;
    assert NextNewline(file, 1) == 2;
    DrainStuck(r, file, 2, 0, n, 0);
  }

  // ---------------------------------------------------------------- dating

  /// The newest block the lines name, on top of `seen`.
  function NewestNamed(r: Reader, lines: seq<Placed>, seen: Option<nat>): Option<nat> {
    if lines == [] then seen else NewestNamed(r, lines[1..], AfterLine(r, lines[0].line, seen))
  }

  function AfterLine(r: Reader, line: Line, seen: Option<nat>): Option<nat> {
    if !r.blank(line) && r.parse(line).Report? && r.parse(line).block.Some?
    then Raised(seen, r.parse(line).block.value) else seen
  }

  /// Redaction of the whole file in one pass from its first byte.
  function OnePass(r: Reader): Reader { r.(lookback := None) }

  /// The same request when the chain is known to be mined to `height`.
  function AtHeight(r: Reader, height: Height): Reader { r.(height := height) }

  /**
   Whether a walk that has seen `seen` and one pass that has read up to `before` date the submissions without
   a head among `lines` by the same block, those aside that stand behind a submission sent later than either
   date: an answer that gets past the latest submission so far passes them both ways. Nothing gets past a
   submission that cannot be dated while the run goes on.
   */
  ghost predicate DatedAlike(
      r: Reader, lines: seq<Placed>, seen: Option<nat>, before: Option<nat>, latest: Option<nat>)
    decreases |lines|
  {
    if lines == [] then true else
      var line, rest := lines[0].line, lines[1..];
      if r.blank(line) then DatedAlike(r, rest, seen, before, latest) else
        match r.parse(line)
        case Report(_) => DatedAlike(r, rest, AfterLine(r, line, seen), AfterLine(r, line, before), latest)
        case Submission(head) =>
          var found := Newest(seen, r.lookback);
          if head.Some? then DatedAlike(r, rest, seen, before, Raised(latest, head.value))
          else if found == before
          then found.None? || DatedAlike(r, rest, found, before, Raised(latest, found.value + 1))
          else Behind(found, before, latest) && DatedAlike(r, rest, found, before, latest)
  }

  /// A submission was sent later than what either block dates the next one to.
  predicate Behind(a: Option<nat>, b: Option<nat>, latest: Option<nat>) {
    a.Some? && b.Some? && latest.Some? && Max(a.value, b.value) + 1 <= latest.value
  }

  /// The walk decides as the pass that has read everything before.
  ghost predicate Alike(r: Reader, file: seq<Byte>, from: nat, stop: nat, seen: Option<nat>, before: Option<nat>)
    requires from <= stop <= |file| && (from < stop ==> file[stop - 1] == NEWLINE)
  {
    Walk(r, file, from, stop, seen) == Walk(OnePass(r), file, from, stop, before)
  }

  /// Every submission up to the latest is mined.
  predicate Reached(height: Height, latest: Option<nat>) { latest.None? || Mined(height, latest) }

  /// One turn of both: they hold the line or pass it together, and go on alike.
  lemma AlikeTurn(r: Reader, file: seq<Byte>, from: nat, stop: nat, seen: Option<nat>, before: Option<nat>)
    requires from < stop <= |file| && file[stop - 1] == NEWLINE
    ensures NextNewline(file, from) < stop
    ensures var e := NextNewline(file, from);
            var line := file[from..e];
            var (mine, seen') := Redact(r, line, seen);
            var (passes, before') := Redact(OnePass(r), line, before);
            Alike(r, file, from, stop, seen, before) <==>
              if r.blank(line) then Alike(r, file, e + 1, stop, seen, before)
              else mine.Hold? == passes.Hold? && (mine.Hold? || Alike(r, file, e + 1, stop, seen', before'))
  {
    hide Walk, Redact, NextNewline;
    WalkTurn(r, file, from, stop, seen);
    WalkTurn(OnePass(r), file, from, stop, before);
    var e := NextNewline(file, from);
    var line := file[from..e];
    var ((mine, seen'), before') := (Redact(r, line, seen), Redact(OnePass(r), line, before).1);
    PassedAlike(r, line, seen, before);
    SameFront(Entry(from, line, mine), Walk(r, file, e + 1, stop, seen').0,
              Walk(OnePass(r), file, e + 1, stop, before').0);
  }

  /// A line passed by both is served or dropped by both.
  lemma PassedAlike(r: Reader, line: Line, seen: Option<nat>, before: Option<nat>)
    ensures var (mine, passes) := (Redact(r, line, seen).0, Redact(OnePass(r), line, before).0);
            !mine.Hold? && !passes.Hold? ==> mine == passes
  {}

  lemma SameFront(entry: Entry, a: seq<Entry>, b: seq<Entry>)
    ensures [entry] + a == [entry] + b <==> a == b
  {
    assert ([entry] + a)[1..] == a && ([entry] + b)[1..] == b;
  }

  lemma {:induction false} FinishedWalksAreAlike(
      r: Reader, file: seq<Byte>, from: nat, stop: nat, seen: Option<nat>, before: Option<nat>)
    requires from <= stop <= |file| && (from < stop ==> file[stop - 1] == NEWLINE) && r.height.Finished?
    ensures Alike(r, file, from, stop, seen, before)
    decreases stop - from
  {
    hide Walk, Redact, NextNewline;
    if from == stop {
      WalkEnds(r, file, stop, seen);
      WalkEnds(OnePass(r), file, stop, before);
    } else {
      AlikeTurn(r, file, from, stop, seen, before);
      var e := NextNewline(file, from);
      var line := file[from..e];
      FinishedHoldsNothing(r, line, seen);
      FinishedHoldsNothing(OnePass(r), line, before);
      if r.blank(line) {
        FinishedWalksAreAlike(r, file, e + 1, stop, seen, before);
      } else {
        FinishedWalksAreAlike(r, file, e + 1, stop, Redact(r, line, seen).1, Redact(OnePass(r), line, before).1);
      }
    }
  }

  lemma FinishedHoldsNothing(r: Reader, line: Line, seen: Option<nat>)
    requires r.height.Finished?
    ensures !Redact(r, line, seen).0.Hold?
  {}

  /// A submission without a head is decided apart at some height that the walk gets this far at, unless it is
  /// dated alike or stands behind a later one.
  lemma ApartAtSomeHeight(found: Option<nat>, before: Option<nat>, latest: Option<nat>) returns (height: Height)
    requires found != before && !Behind(found, before, latest)
    ensures Reached(height, latest) && height.At?
    ensures Mined(height, Following(found)) != Mined(height, Following(before))
  {
    var low := if found.Some? && (before.None? || found.value < before.value) then found.value else before.value;
    height := At(Max(low + 1, if latest.Some? then latest.value else 0) + TX_MINED_MARGIN);
  }

  /// What a submission without a head is dated by the newest block: the one after it.
  function Following(block: Option<nat>): Option<nat> {
    if block.Some? then Some(block.value + 1) else None
  }

  lemma HeadlessIsDated(r: Reader, line: Line, seen: Option<nat>)
    requires r.parse(line) == Submission(None)
    ensures Redact(r, line, seen).0.Hold? <==> !Mined(r.height, Following(Newest(seen, r.lookback)))
    ensures Redact(r, line, seen).1 == Newest(seen, r.lookback)
  {}

  lemma ReachedRaised(height: Height, latest: Option<nat>, date: nat)
    ensures Reached(height, Raised(latest, date)) <==> Reached(height, latest) && Mined(height, Some(date))
  {}

  lemma ReachedFound(height: Height, latest: Option<nat>, found: Option<nat>)
    requires found.Some?
    ensures Reached(height, Raised(latest, found.value + 1)) <==>
            Reached(height, latest) && Mined(height, Following(found))
  {}

  /// Alike at every height that the walk gets this far at.
  ghost predicate AlwaysAlike(r: Reader, file: seq<Byte>, from: nat, stop: nat,
                              seen: Option<nat>, before: Option<nat>, latest: Option<nat>)
    requires from <= stop <= |file| && (from < stop ==> file[stop - 1] == NEWLINE)
  {
    forall height :: Reached(height, latest) ==> Alike(AtHeight(r, height), file, from, stop, seen, before)
  }

  /// One turn at a height, by what the line is.
  lemma AlikeTurnAt(r: Reader, height: Height, file: seq<Byte>, from: nat, stop: nat, seen: Option<nat>,
                    before: Option<nat>)
    requires from < stop <= |file| && file[stop - 1] == NEWLINE
    ensures NextNewline(file, from) < stop
    ensures var e, q := NextNewline(file, from), AtHeight(r, height);
            var line := file[from..e];
            Alike(q, file, from, stop, seen, before) <==>
              if r.blank(line) then Alike(q, file, e + 1, stop, seen, before)
              else if r.parse(line).Report?
              then Alike(q, file, e + 1, stop, AfterLine(r, line, seen), AfterLine(r, line, before))
              else
                var head, found := r.parse(line).head, Newest(seen, r.lookback);
                if head.Some? then Mined(height, head) ==> Alike(q, file, e + 1, stop, seen, before)
                else Mined(height, Following(found)) == Mined(height, Following(before)) &&
                     (Mined(height, Following(found)) ==> Alike(q, file, e + 1, stop, found, before))
  {
    hide Alike, NextNewline, Mined;
    AlikeTurn(AtHeight(r, height), file, from, stop, seen, before);
  }

  lemma NothingIsAlike(r: Reader, file: seq<Byte>, stop: nat, seen: Option<nat>, before: Option<nat>)
    requires stop <= |file|
    ensures Alike(r, file, stop, stop, seen, before)
  {}

  /// Where nothing dates a submission, it is held until the run is finished, and then nothing is.
  lemma UndatedIsAlike(r: Reader, height: Height, file: seq<Byte>, from: nat, stop: nat,
                       seen: Option<nat>, before: Option<nat>)
    requires from <= stop <= |file| && (from < stop ==> file[stop - 1] == NEWLINE)
    requires seen.None? && Mined(height, Following(seen))
    ensures Alike(AtHeight(r, height), file, from, stop, seen, before)
  {
    FinishedWalksAreAlike(AtHeight(r, height), file, from, stop, seen, before);
  }

  lemma BehindIsMined(height: Height, found: Option<nat>, before: Option<nat>, latest: Option<nat>)
    requires Behind(found, before, latest) && Reached(height, latest)
    ensures Mined(height, Following(found)) && Mined(height, Following(before))
  {}

  /**
   A walk begun anywhere, with anything looked up, decides as the pass that has read everything before, at every
   height that both get this far at, if and only if they date the submissions alike.
   */
  lemma {:induction false} AlwaysAlikeIff(r: Reader, file: seq<Byte>, from: nat, stop: nat,
                                          seen: Option<nat>, before: Option<nat>, latest: Option<nat>)
    requires from <= stop <= |file| && (from < stop ==> file[stop - 1] == NEWLINE)
    ensures AlwaysAlike(r, file, from, stop, seen, before, latest) <==>
            DatedAlike(r, LinesIn(file, from, stop), seen, before, latest)
    decreases stop - from
  {
    hide Alike, NextNewline, Mined, LinesIn, Behind, AfterLine, Following, Reached;
    if from == stop {
      NoLinesIn(file, from);
      forall height ensures Alike(AtHeight(r, height), file, from, stop, seen, before) {
        NothingIsAlike(AtHeight(r, height), file, stop, seen, before);
      }
    } else {
      LinesInTurn(file, from, stop);
      var e := NextNewline(file, from);
      var line, rest := file[from..e], LinesIn(file, e + 1, stop);
      assert LinesIn(file, from, stop)[1..] == rest;
      forall height {
        AlikeTurnAt(r, height, file, from, stop, seen, before);
      }
      if r.blank(line) {
        AlwaysAlikeIff(r, file, e + 1, stop, seen, before, latest);
      } else if r.parse(line).Report? {
        AlwaysAlikeIff(r, file, e + 1, stop, AfterLine(r, line, seen), AfterLine(r, line, before), latest);
      } else {
        var head, found := r.parse(line).head, Newest(seen, r.lookback);
        if head.Some? {
          AlwaysAlikeIff(r, file, e + 1, stop, seen, before, Raised(latest, head.value));
          forall height { ReachedRaised(height, latest, head.value); }
        } else if found == before && found.Some? {
          AlwaysAlikeIff(r, file, e + 1, stop, found, before, Raised(latest, found.value + 1));
          forall height { ReachedFound(height, latest, found); }
        } else if found == before {
          forall height | Mined(height, Following(found)) {
            UndatedIsAlike(r, height, file, e + 1, stop, found, before);
          }
        } else if Behind(found, before, latest) {
          AlwaysAlikeIff(r, file, e + 1, stop, found, before, latest);
          forall height | Reached(height, latest) { BehindIsMined(height, found, before, latest); }
        } else {
          var height := ApartAtSomeHeight(found, before, latest);
        }
      }
    }
  }

  /**
   At every height, an answer is what the pass that has read the file up to it decides from there, if and only if
   what the answer looked up and has seen dates its submissions as that pass does.
   */
  lemma AnswerIsThatOfThePassIff(r: Reader, file: seq<Byte>, start: nat, limit: nat)
    requires LineStart(file, start)
    ensures var stop := LastLineEnd(file, start, Min(|file|, start + limit));
            var before := NewestNamed(r, LinesIn(file, 0, start), None);
            (forall height :: Poll(AtHeight(r, height), file, start, limit) ==
                              Walk(OnePass(AtHeight(r, height)), file, start, stop, before)) <==>
            DatedAlike(r, LinesIn(file, start, stop), None, before, None)
  {
    hide Walk, LastLineEnd, LinesIn, DatedAlike;
    var stop := LastLineEnd(file, start, Min(|file|, start + limit));
    var before := NewestNamed(r, LinesIn(file, 0, start), None);
    AlwaysAlikeIff(r, file, start, stop, None, before, None);
    assert AlwaysAlike(r, file, start, stop, None, before, None) <==>
           forall height :: Alike(AtHeight(r, height), file, start, stop, None, before);
  }

  /// What a pass has seen is the newest block named so far.
  lemma {:induction false} SeenIsNewest(r: Reader, lines: seq<Placed>, seen: Option<nat>)
    ensures SeenThrough(OnePass(r), lines, seen) == NewestNamed(r, lines, seen)
    decreases |lines|
  {
    if lines != [] { SeenIsNewest(r, lines[1..], AfterLine(r, lines[0].line, seen)); }
  }

  /// A walk that gets to `mid` goes on from there with what it has seen.
  lemma {:induction false} WalkGoesOn(r: Reader, file: seq<Byte>, from: nat, mid: nat, stop: nat, seen: Option<nat>)
    requires from <= mid <= stop <= |file|
    requires (from < mid ==> file[mid - 1] == NEWLINE) && (from < stop ==> file[stop - 1] == NEWLINE)
    requires Walk(r, file, from, mid, seen).1 == mid
    ensures var (done, rest) := (Walk(r, file, from, mid, seen).0,
                                 Walk(r, file, mid, stop, SeenThrough(r, LinesIn(file, from, mid), seen)));
            Walk(r, file, from, stop, seen) == (done + rest.0, rest.1)
    decreases mid - from
  {
    hide Walk, NextNewline, LinesIn, Redact;
    if from == mid {
      WalkEnds(r, file, mid, seen);
      NoLinesIn(file, from);
      Units(Walk(r, file, mid, stop, seen).0);
    } else {
      WalkTurn(r, file, from, mid, seen);
      WalkTurn(r, file, from, stop, seen);
      LinesInTurn(file, from, mid);
      var e := NextNewline(file, from);
      var line := file[from..e];
      assert LinesIn(file, from, mid)[1..] == LinesIn(file, e + 1, mid);
      var seen' := if r.blank(line) then seen else Redact(r, line, seen).1;
      assert SeenThrough(r, LinesIn(file, from, mid), seen) == SeenThrough(r, LinesIn(file, e + 1, mid), seen');
      WalkGoesOn(r, file, e + 1, mid, stop, seen');
      Assoc([Entry(from, line, Redact(r, line, seen).0)], Walk(r, file, e + 1, mid, seen').0,
            Walk(r, file, mid, stop, SeenThrough(r, LinesIn(file, from, mid), seen)).0);
    }
  }

  /// The pass from the top of the file, if it gets to `start`, goes on as one that has read what is in front of it.
  lemma PassGoesOn(r: Reader, file: seq<Byte>, start: nat, stop: nat)
    requires start <= stop <= |file| && LineStart(file, start) && (0 < stop ==> file[stop - 1] == NEWLINE)
    requires Walk(OnePass(r), file, 0, start, None).1 == start
    ensures var rest := Walk(OnePass(r), file, start, stop, NewestNamed(r, LinesIn(file, 0, start), None));
            Walk(OnePass(r), file, 0, stop, None) == (Walk(OnePass(r), file, 0, start, None).0 + rest.0, rest.1)
  {
    hide Walk, LinesIn, SeenThrough, NewestNamed;
    SeenIsNewest(r, LinesIn(file, 0, start), None);
    WalkGoesOn(OnePass(r), file, 0, start, stop, None);
  }

  // ---------------------------------------------------------------- when the dates agree

  predicate Headless(r: Reader, line: Line) { !r.blank(line) && r.parse(line) == Submission(None) }

  /// Where every submission carries its head, as those of the present coordinator do, nothing else matters.
  lemma {:induction false} HeadedAreDatedAlike(
      r: Reader, lines: seq<Placed>, seen: Option<nat>, before: Option<nat>, latest: Option<nat>)
    requires forall p <- lines :: !Headless(r, p.line)
    ensures DatedAlike(r, lines, seen, before, latest)
    decreases |lines|
  {
    if lines != [] {
      var line := lines[0].line;
      assert !Headless(r, line) && forall p <- lines[1..] :: p in lines;
      if r.blank(line) || r.parse(line).Report? {
        HeadedAreDatedAlike(r, lines[1..], AfterLine(r, line, seen), AfterLine(r, line, before), latest);
      } else {
        HeadedAreDatedAlike(r, lines[1..], seen, before, Raised(latest, r.parse(line).head.value));
      }
    }
  }

  /// In front of the first submission without a head, the lines name no block, or one up to the newest before them.
  ghost predicate CaughtUp(r: Reader, lines: seq<Placed>, seen: Option<nat>, before: Option<nat>)
    decreases |lines|
  {
    lines != [] ==>
      var line := lines[0].line;
      if Headless(r, line) then seen.None? || seen == before
      else CaughtUp(r, lines[1..], AfterLine(r, line, seen), AfterLine(r, line, before))
  }

  lemma {:induction false} CaughtUpIsDatedAlike(
      r: Reader, lines: seq<Placed>, seen: Option<nat>, before: Option<nat>, latest: Option<nat>)
    requires CaughtUp(r, lines, seen, before) || (seen == before && seen.Some?)
    requires seen.None? ==> before == r.lookback
    ensures DatedAlike(r, lines, seen, before, latest)
    decreases |lines|
  {
    if lines != [] {
      var line, rest := lines[0].line, lines[1..];
      if Headless(r, line) {
        if before.Some? { CaughtUpIsDatedAlike(r, rest, before, before, Raised(latest, before.value + 1)); }
      } else if r.blank(line) || r.parse(line).Report? {
        CaughtUpIsDatedAlike(r, rest, AfterLine(r, line, seen), AfterLine(r, line, before), latest);
      } else {
        CaughtUpIsDatedAlike(r, rest, seen, before, Raised(latest, r.parse(line).head.value));
      }
    }
  }
}
