/**
 The live tail of a run's events.jsonl (dashboard/server/runsApi.ts, the "/tail/" branch of `handle`
 with `redactEvent`). A client polls an append-only file from the offset the last answer gave it. Each
 answer covers whole lines only, serves or drops each of them, and stops in front of a line that may
 not be shown yet.
 */
module Tail {
  import opened Basics

  newtype Byte = b: int | 0 <= b < 256
  type Line = seq<Byte>

  const NEWLINE: Byte := 10
  /// Blocks past the head at send time before a submission counts as mined.
  const TX_MINED_MARGIN := 2

  // ---------------------------------------------------------------- what one line is

  /// How far the chain is known to be mined.
  datatype Height = Unknown | At(block: int) | Finished

  /// A line as the redaction sees it: an environment submission with the head it was sent at (absent
  /// in lines of an older coordinator), or anything else, possibly naming the block being processed.
  datatype Event =
    | Submission(head: Option<nat>)
    | Report(block: Option<nat>)

  /// What one request reads the file with: whether a line is blank, what it parses to, what of it the
  /// audience is served (None drops it), the height, and the newest block named before the start.
  datatype Reader = Reader(
    blank: Line -> bool, parse: Line -> Event, view: Line -> Option<Line>, height: Height, lookback: Option<nat>)

  datatype Decision = Hold | Drop | Serve(text: Line)

  /// The block that dates a submission without a head of its own: seen in this pass, else looked up.
  function Newest(seen: Option<nat>, lookback: Option<nat>): Option<nat> {
    if seen.Some? then seen else lookback
  }

  function Raised(seen: Option<nat>, block: nat): Option<nat> {
    Some(Max(if seen.Some? then seen.value else 0, block))
  }

  predicate Mined(height: Height, head: Option<nat>) {
    height.Finished? || (height.At? && head.Some? && height.block >= head.value + TX_MINED_MARGIN)
  }

  /// The decision on one line, and what the pass has seen after it.
  function Redact(r: Reader, line: Line, seen: Option<nat>): (Decision, Option<nat>) {
    match r.parse(line)
    case Report(block) =>
      (if r.view(line).Some? then Serve(r.view(line).value) else Drop,
       if block.Some? then Raised(seen, block.value) else seen)
    case Submission(head) =>
      var seen' := if head.None? then Newest(seen, r.lookback) else seen;
      var dated := if head.Some? then head else if seen'.Some? then Some(seen'.value + 1) else None;
      (if !Mined(r.height, dated) then Hold
       else if r.view(line).Some? then Serve(r.view(line).value) else Drop,
       seen')
  }

  // ---------------------------------------------------------------- lines of a file

  /// The first newline at or after `i`, or the end of the text.
  function NextNewline(text: seq<Byte>, i: nat): (e: nat)
    requires i <= |text|
    ensures i <= e <= |text| && (e < |text| ==> text[e] == NEWLINE)
    decreases |text| - i
  {
    if i == |text| || text[i] == NEWLINE then i else NextNewline(text, i + 1)
  }

  ghost predicate LineStart(text: seq<Byte>, i: nat) {
    i <= |text| && (i == 0 || text[i - 1] == NEWLINE)
  }

  /// A line and the byte it starts at.
  datatype Placed = Placed(at: nat, line: Line)

  /// The lines of text[a..b], each ended by a newline before `b`.
  function LinesIn(text: seq<Byte>, a: nat, b: nat): seq<Placed>
    requires a <= b <= |text| && (a < b ==> text[b - 1] == NEWLINE)
    decreases b - a
  {
    if a == b then [] else
      NextIsFirst(text, a, b - 1);
      [LineAt(text, a)] + LinesIn(text, NextNewline(text, a) + 1, b)
  }

  function LineAt(text: seq<Byte>, a: nat): Placed
    requires a <= |text|
  {
    Placed(a, text[a..NextNewline(text, a)])
  }

  function NonBlank(blank: Line -> bool, lines: seq<Placed>): seq<Placed> {
    if lines == [] then []
    else (if blank(lines[0].line) then [] else [lines[0]]) + NonBlank(blank, lines[1..])
  }

  lemma {:induction false} NonBlankConcat(blank: Line -> bool, a: seq<Placed>, b: seq<Placed>)
    ensures NonBlank(blank, a + b) == NonBlank(blank, a) + NonBlank(blank, b)
  {
    if a == [] {
      assert a + b == b;
    } else {
      assert (a + b)[1..] == a[1..] + b;
      NonBlankConcat(blank, a[1..], b);
    }
  }

  lemma LinesInTurn(text: seq<Byte>, a: nat, b: nat)
    requires a < b <= |text| && text[b - 1] == NEWLINE
    ensures NextNewline(text, a) < b
    ensures LinesIn(text, a, b) ==
              [LineAt(text, a)] + LinesIn(text, NextNewline(text, a) + 1, b)
  {
    NextIsFirst(text, a, b - 1);
  }

  lemma NoLinesIn(text: seq<Byte>, a: nat)
    requires a <= |text|
    ensures LinesIn(text, a, a) == []
  {}

  lemma {:induction false} LinesInConcat(text: seq<Byte>, a: nat, b: nat, c: nat)
    requires a <= b <= c <= |text| && (a < b ==> text[b - 1] == NEWLINE) && (b < c ==> text[c - 1] == NEWLINE)
    ensures a < c ==> text[c - 1] == NEWLINE
    ensures LinesIn(text, a, b) + LinesIn(text, b, c) == LinesIn(text, a, c)
    decreases b - a
  {
    hide LinesIn, NextNewline, LineAt;
    if a == b {
      NoLinesIn(text, a);
      Units(LinesIn(text, b, c));
    } else {
      LinesInTurn(text, a, b);
      LinesInTurn(text, a, c);
      var e := NextNewline(text, a);
      LinesInConcat(text, e + 1, b, c);
      Assoc([LineAt(text, a)], LinesIn(text, e + 1, b), LinesIn(text, b, c));
    }
  }

  /// Appending to the file changes none of the lines already ended.
  lemma {:induction false} LinesInStable(text: seq<Byte>, grown: seq<Byte>, a: nat, b: nat)
    requires text <= grown && a <= b <= |text| && (a < b ==> text[b - 1] == NEWLINE)
    ensures LinesIn(grown, a, b) == LinesIn(text, a, b)
    decreases b - a
  {
    hide LinesIn, NextNewline;
    if a == b {
      NoLinesIn(text, a);
      NoLinesIn(grown, a);
    } else {
      var e := NextNewline(text, a);
      LinesInTurn(text, a, b);
      LinesInTurn(grown, a, b);
      NextStable(text, grown, a);
      assert grown[a..e] == text[a..e];
      LinesInStable(text, grown, e + 1, b);
    }
  }

  lemma {:induction false} NextIsFirst(text: seq<Byte>, i: nat, k: nat)
    requires i <= k < |text| && text[k] == NEWLINE
    ensures NextNewline(text, i) <= k
    decreases k - i
  {
    if i < k && text[i] != NEWLINE { NextIsFirst(text, i + 1, k); }
  }

  lemma {:induction false} NextStable(text: seq<Byte>, grown: seq<Byte>, i: nat)
    requires text <= grown && i <= |text| && NextNewline(text, i) < |text|
    ensures NextNewline(grown, i) == NextNewline(text, i)
    decreases |text| - i
  {
    if i < |text| && text[i] != NEWLINE { NextStable(text, grown, i + 1); }
  }

  // ---------------------------------------------------------------- one request

  /// A line that was decided, and how.
  datatype Entry = Entry(at: nat, line: Line, decision: Decision)

  function Placing(entries: seq<Entry>): seq<Placed> {
    if entries == [] then [] else [Placed(entries[0].at, entries[0].line)] + Placing(entries[1..])
  }

  /// The text an answer carries: every served line, each ended by a newline.
  function Text(entries: seq<Entry>): seq<Byte> {
    if entries == [] then [] else Served(entries[0].decision) + Text(entries[1..])
  }

  function Served(d: Decision): seq<Byte> { if d.Serve? then d.text + [NEWLINE] else [] }

  lemma {:induction false} EntriesConcat(a: seq<Entry>, b: seq<Entry>)
    ensures Placing(a + b) == Placing(a) + Placing(b)
    ensures Text(a + b) == Text(a) + Text(b)
  {
    if a == [] {
      assert a + b == b;
    } else {
      assert (a + b)[1..] == a[1..] + b;
      EntriesConcat(a[1..], b);
      Assoc(Served(a[0].decision), Text(a[1..]), Text(b));
      Assoc([Placed(a[0].at, a[0].line)], Placing(a[1..]), Placing(b));
    }
  }

  /// The decisions on the lines of `file` from `from` up to `stop`, ending early in front of a held one.
  function Walk(r: Reader, file: seq<Byte>, from: nat, stop: nat, seen: Option<nat>): (w: (seq<Entry>, nat))
    requires from <= stop <= |file| && (from < stop ==> file[stop - 1] == NEWLINE)
    ensures from <= w.1 <= stop && (from < w.1 ==> file[w.1 - 1] == NEWLINE)
    decreases stop - from
  {
    if from == stop then ([], stop) else
      var e := NextNewline(file, from);
      NextIsFirst(file, from, stop - 1);
      var line := file[from..e];
      if r.blank(line) then Walk(r, file, e + 1, stop, seen)
      else
        var (decision, seen') := Redact(r, line, seen);
        if decision.Hold? then ([], from)
        else
          var (entries, next) := Walk(r, file, e + 1, stop, seen');
          ([Entry(from, line, decision)] + entries, next)
  }

  /// One past the last newline of file[a..b], or `a` when there is none.
  function LastLineEnd(file: seq<Byte>, a: nat, b: nat): (e: nat)
    requires a <= b <= |file|
    ensures a <= e <= b && (a < e ==> file[e - 1] == NEWLINE)
    decreases b - a
  {
    if a == b then a else if file[b - 1] == NEWLINE then b else LastLineEnd(file, a, b - 1)
  }

  lemma {:induction false} LastIsLast(file: seq<Byte>, a: nat, b: nat, k: nat)
    requires a <= k < b <= |file| && file[k] == NEWLINE
    ensures k < LastLineEnd(file, a, b)
    decreases b - a
  {
    if file[b - 1] != NEWLINE { LastIsLast(file, a, b - 1, k); }
  }

  /// One answer: the lines decided and the offset to ask from next.
  function Poll(r: Reader, file: seq<Byte>, offset: nat, limit: nat): (p: (seq<Entry>, nat))
    requires offset <= |file|
    ensures offset <= p.1 <= |file| && (offset < p.1 ==> file[p.1 - 1] == NEWLINE)
  {
    Walk(r, file, offset, LastLineEnd(file, offset, Min(|file|, offset + limit)), None)
  }

  /// The position of the last newline the request read, or -1.
  method LastNewline(file: seq<Byte>, start: nat, end: nat) returns (cut: int)
    requires start <= end <= |file|
    ensures LastLineEnd(file, start, end) == if cut < 0 then start else cut + 1
    ensures cut < 0 || start <= cut < end
  {
    cut := end - 1;
    while cut >= start && file[cut] != NEWLINE
      invariant start - 1 <= cut < end
      invariant LastLineEnd(file, start, end) == LastLineEnd(file, start, cut + 1)
    {
      cut := cut - 1;
    }
    if cut < start { cut := -1; }
  }

  /// `rest` is what is left of `whole` once `done` has been decided.
  ghost predicate Onward(whole: (seq<Entry>, nat), done: seq<Entry>, rest: (seq<Entry>, nat)) {
    whole.0 == done + rest.0 && whole.1 == rest.1
  }

  lemma OnwardEntry(whole: (seq<Entry>, nat), done: seq<Entry>, entry: Entry, rest: (seq<Entry>, nat))
    requires Onward(whole, done, ([entry] + rest.0, rest.1))
    ensures Onward(whole, done + [entry], rest)
    ensures Text(done + [entry]) == Text(done) + Served(entry.decision)
  {
    Assoc(done, [entry], rest.0);
    EntriesConcat(done, [entry]);
    assert Text([entry]) == Served(entry.decision) + [] == Served(entry.decision);
  }

  /**
   The request handler: read from the offset, cut at the last newline, walk the lines, stop in front of
   a held one. An offset past the end is the end. (An empty line is blank, whatever else is.)
   */
  method TailWalk(r: Reader, file: seq<Byte>, offset: nat, limit: nat) returns (text: seq<Byte>, next: nat)
    requires limit >= 1 && r.blank([])
    ensures var p := Poll(r, file, Min(offset, |file|), limit); text == Text(p.0) && next == p.1
  {
    hide Walk, LastLineEnd;
    var start := Min(offset, |file|);
    WalkEnds(r, file, start, None);
    if start >= |file| {
      EndIsLast(file);
      return [], |file|;
    }
    var cut := LastNewline(file, start, Min(|file|, start + limit));
    if cut < 0 { return [], start; }
    text, next := WalkLines(r, file, start, cut);
  }

  lemma WalkEnds(r: Reader, file: seq<Byte>, stop: nat, seen: Option<nat>)
    requires stop <= |file|
    ensures Walk(r, file, stop, stop, seen) == ([], stop)
  {}

  lemma EndIsLast(file: seq<Byte>)
    ensures LastLineEnd(file, |file|, |file|) == |file|
  {}

  /// One turn of the walk.
  lemma WalkTurn(r: Reader, file: seq<Byte>, from: nat, stop: nat, seen: Option<nat>)
    requires from < stop <= |file| && file[stop - 1] == NEWLINE
    ensures NextNewline(file, from) < stop
    ensures var e := NextNewline(file, from);
            var (decision, seen') := Redact(r, file[from..e], seen);
            Walk(r, file, from, stop, seen) ==
              if r.blank(file[from..e]) then Walk(r, file, e + 1, stop, seen)
              else if decision.Hold? then ([], from)
              else ([Entry(from, file[from..e], decision)] + Walk(r, file, e + 1, stop, seen').0,
                    Walk(r, file, e + 1, stop, seen').1)
  {
    hide Redact;
    NextIsFirst(file, from, stop - 1);
  }

  /// Nothing is left to decide at the cut, where only an empty line can stand, or past it.
  lemma WalkLeftover(r: Reader, file: seq<Byte>, cut: nat, seen: Option<nat>)
    requires cut < |file| && file[cut] == NEWLINE && r.blank([])
    ensures Walk(r, file, cut, cut + 1, seen) == Walk(r, file, cut + 1, cut + 1, seen) == ([], cut + 1)
  {
    assert NextNewline(file, cut) == cut;
    assert file[cut..cut] == [];
  }

  method WalkLines(r: Reader, file: seq<Byte>, start: nat, cut: nat) returns (text: seq<Byte>, next: nat)
    requires start <= cut < |file| && file[cut] == NEWLINE && r.blank([])
    ensures var p := Walk(r, file, start, cut + 1, None); text == Text(p.0) && next == p.1
  {
    hide Redact, NextNewline, Walk;
    ghost var whole := Walk(r, file, start, cut + 1, None);
    ghost var entries: seq<Entry> := [];
    text, next := [], cut + 1;
    var from, seen := start, None;
    while from < cut
      invariant start <= from <= cut + 1 && next == cut + 1
      invariant text == Text(entries)
      invariant Onward(whole, entries, Walk(r, file, from, cut + 1, seen))
    {
      var nl := NextNewline(file, from);
      WalkTurn(r, file, from, cut + 1, seen);
      var line := file[from..nl];
      if !r.blank(line) {
        var (decision, seen') := Redact(r, line, seen);
        if decision.Hold? {
          next := from;
          assert entries + [] == entries;
          return;
        }
        ghost var entry := Entry(from, line, decision);
        OnwardEntry(whole, entries, entry, Walk(r, file, nl + 1, cut + 1, seen'));
        entries := entries + [entry];
        if decision.Serve? { text := text + (decision.text + [NEWLINE]); }
        seen := seen';
      }
      from := nl + 1;
    }
    WalkLeftover(r, file, cut, seen);
    assert entries + [] == entries;
  }
}
