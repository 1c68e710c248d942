/**
 A whole file for the audience, streamed (dashboard/server/runsApi.ts, `redactedLinesStream`): chunks
 come in wherever the disk cut them, and the unfinished line at the end of one is carried into the
 next. The redaction is called on the same lines, in the same order, as if the file had been split once.
 */
module LineStream {
  import opened Basics
  import opened Tail

  /// `text.split("\n")`: never empty; the last part is what follows the last newline.
  function Split(text: seq<Byte>): (parts: seq<Line>)
    ensures |parts| >= 1
  {
    if text == [] then [[]] else
      var rest := Split(text[1..]);
      if text[0] == NEWLINE then [[]] + rest else [[text[0]] + rest[0]] + rest[1..]
  }

  function Ended(text: seq<Byte>): seq<Line> { Split(text)[..|Split(text)| - 1] }

  function Unended(text: seq<Byte>): Line { Split(text)[|Split(text)| - 1] }

  /// What a redaction says of a line, given what it has seen, and what it has seen then.
  type Redaction<!C> = (Line, C) -> (Option<Line>, C)

  /// The text kept of `lines`, each kept line ended by a newline, and what the redaction has seen after.
  function Kept<C>(redact: Redaction<C>, blank: Line -> bool, lines: seq<Line>, seen: C): (seq<Byte>, C) {
    if lines == [] then ([], seen)
    else if blank(lines[0]) then Kept(redact, blank, lines[1..], seen)
    else
      var (out, seen') := redact(lines[0], seen);
      var (more, last) := Kept(redact, blank, lines[1..], seen');
      ((if out.Some? then out.value + [NEWLINE] else []) + more, last)
  }

  lemma {:induction false} KeptConcat<C>(redact: Redaction<C>, blank: Line -> bool, a: seq<Line>, b: seq<Line>, seen: C)
    ensures Kept(redact, blank, a + b, seen) ==
              (Kept(redact, blank, a, seen).0 + Kept(redact, blank, b, Kept(redact, blank, a, seen).1).0,
               Kept(redact, blank, b, Kept(redact, blank, a, seen).1).1)
    decreases |a|
  {
    if a == [] {
      Units(b);
      Units(Kept(redact, blank, b, seen).0);
    } else {
      assert (a + b)[0] == a[0] && (a + b)[1..] == a[1..] + b;
      if blank(a[0]) {
        KeptConcat(redact, blank, a[1..], b, seen);
      } else {
        var (out, seen') := redact(a[0], seen);
        KeptConcat(redact, blank, a[1..], b, seen');
        Assoc(if out.Some? then out.value + [NEWLINE] else [], Kept(redact, blank, a[1..], seen').0,
              Kept(redact, blank, b, Kept(redact, blank, a[1..], seen').1).0);
      }
    }
  }

  lemma SplitTurn(c: Byte, text: seq<Byte>)
    ensures Split([c] + text) ==
              if c == NEWLINE then [[]] + Split(text) else [[c] + Split(text)[0]] + Split(text)[1..]
  {
    assert ([c] + text)[1..] == text;
  }

  /// How one more byte in front changes the ended lines and the unended one.
  lemma EndedTurn(c: Byte, text: seq<Byte>)
    ensures c == NEWLINE ==> Ended([c] + text) == [[]] + Ended(text) && Unended([c] + text) == Unended(text)
    ensures c != NEWLINE && |Split(text)| == 1 ==> Ended([c] + text) == [] && Unended([c] + text) == [c] + Unended(text)
    ensures c != NEWLINE && |Split(text)| > 1 ==>
              Ended([c] + text) == [[c] + Ended(text)[0]] + Ended(text)[1..] && Unended([c] + text) == Unended(text)
  {
    SplitTurn(c, text);
  }

  /// Splitting more text continues from the unended line.
  lemma {:induction false} SplitConcat(a: seq<Byte>, b: seq<Byte>)
    ensures Split(a + b) == Ended(a) + Split(Unended(a) + b)
    decreases |a|
  {
    if a == [] {
      Units(b);
      assert Ended(a) == [] && Unended(a) == [];
      Units(Split(b));
    } else {
      hide Split;
      var c, text := a[0], a[1..];
      assert a == [c] + text;
      Assoc([c], text, b);
      SplitTurn(c, text + b);
      EndedTurn(c, text);
      SplitConcat(text, b);
      SplitConcatTurn(c, text, b);
    }
  }

  lemma SplitConcatTurn(c: Byte, text: seq<Byte>, b: seq<Byte>)
    requires Split(text + b) == Ended(text) + Split(Unended(text) + b)
    ensures (if c == NEWLINE then [[]] + Split(text + b) else [[c] + Split(text + b)[0]] + Split(text + b)[1..]) ==
              Ended([c] + text) + Split(Unended([c] + text) + b)
  {
    hide Split;
    EndedTurn(c, text);
    var rest := Split(Unended(text) + b);
    if c == NEWLINE {
      Assoc([[]], Ended(text), rest);
    } else if |Split(text)| == 1 {
      Assoc([c], Unended(text), b);
      SplitTurn(c, Unended(text) + b);
      Units(rest);
      Units(Split(Unended([c] + text) + b));
    } else {
      assert (Ended(text) + rest)[1..] == Ended(text)[1..] + rest;
      Assoc([[c] + Ended(text)[0]], Ended(text)[1..], rest);
    }
  }

  // ---------------------------------------------------------------- what is written reads back

  lemma {:induction false} SplitLine(line: Line, rest: seq<Byte>)
    requires NEWLINE !in line
    ensures Split(line + [NEWLINE] + rest) == [line] + Split(rest)
    decreases |line|
  {
    if line == [] {
      assert [] + [NEWLINE] + rest == [NEWLINE] + rest;
      SplitTurn(NEWLINE, rest);
    } else {
      var c, more := line[0], line[1..];
      assert line == [c] + more;
      SplitLine(more, rest);
      assert line + [NEWLINE] + rest == [c] + (more + [NEWLINE] + rest);
      SplitTurn(c, more + [NEWLINE] + rest);
    }
  }

  ghost predicate OneLine(out: Option<Line>) { out.Some? ==> NEWLINE !in out.value }

  /// What the redaction makes of the lines it is called on, one after another; None drops a line.
  function Outputs<C>(redact: Redaction<C>, blank: Line -> bool, lines: seq<Line>, seen: C): seq<Option<Line>> {
    if lines == [] then []
    else if blank(lines[0]) then Outputs(redact, blank, lines[1..], seen)
    else [redact(lines[0], seen).0] + Outputs(redact, blank, lines[1..], redact(lines[0], seen).1)
  }

  function Present(outs: seq<Option<Line>>): seq<Line> {
    if outs == [] then [] else (if outs[0].Some? then [outs[0].value] else []) + Present(outs[1..])
  }

  /// The text kept, split at its newlines, is the lines kept, each of them ended.
  lemma {:induction false} KeptReadsBack<C>(redact: Redaction<C>, blank: Line -> bool, lines: seq<Line>, seen: C)
    requires forall out <- Outputs(redact, blank, lines, seen) :: OneLine(out)
    ensures Split(Kept(redact, blank, lines, seen).0) == Present(Outputs(redact, blank, lines, seen)) + [[]]
    decreases |lines|
  {
    hide Split;
    if lines == [] {
      SplitNothing();
    } else if blank(lines[0]) {
      KeptReadsBack(redact, blank, lines[1..], seen);
    } else {
      var (out, seen') := redact(lines[0], seen);
      var outs := Outputs(redact, blank, lines, seen);
      assert outs[0] == out && outs[1..] == Outputs(redact, blank, lines[1..], seen');
      assert OneLine(outs[0]) && forall o <- outs[1..] :: o in outs;
      KeptReadsBack(redact, blank, lines[1..], seen');
      var more := Kept(redact, blank, lines[1..], seen').0;
      if out.Some? {
        SplitLine(out.value, more);
        Assoc([out.value], Present(outs[1..]), [[]]);
      } else {
        Units(more);
        Units(Present(outs[1..]));
      }
    }
  }

  lemma SplitNothing()
    ensures Split([]) == [[]]
  {}

  /// The lines an answer of the tail serves.
  function ServedLines(entries: seq<Entry>): seq<Line> {
    if entries == [] then []
    else (if entries[0].decision.Serve? then [entries[0].decision.text] else []) + ServedLines(entries[1..])
  }

  /// So does an answer's text: the client gets each served line for itself.
  lemma {:induction false} AnswerReadsBack(entries: seq<Entry>)
    requires forall e <- entries :: e.decision.Serve? ==> NEWLINE !in e.decision.text
    ensures Split(Text(entries)) == ServedLines(entries) + [[]]
  {
    hide Split;
    if entries == [] {
      SplitNothing();
    } else {
      assert entries[0] in entries;
      AnswerReadsBack(entries[1..]);
      if entries[0].decision.Serve? {
        SplitLine(entries[0].decision.text, Text(entries[1..]));
        Assoc([entries[0].decision.text], ServedLines(entries[1..]), [[]]);
      } else {
        Units(Text(entries[1..]));
        Units(ServedLines(entries[1..]));
      }
    }
  }

  class LineTransform<C(!new)> {
    const redact: Redaction<C>
    const blank: Line -> bool
    var carry: Line
    var seen: C
    ghost const start: C
    ghost var fed: seq<Byte>
    ghost var emitted: seq<Byte>

    /// Everything fed so far has been emitted, line by line, except the line not yet ended.
    ghost predicate Valid()
      reads this
    {
      carry == Unended(fed) && (emitted, seen) == Kept(redact, blank, Ended(fed), start)
    }

    constructor (redact: Redaction<C>, blank: Line -> bool, start: C)
      ensures Valid() && fed == emitted == [] && this.redact == redact && this.blank == blank && this.start == start
    {
      this.redact, this.blank, this.start := redact, blank, start;
      carry, seen := [], start;
      fed, emitted := [], [];
    }

    method Transform(chunk: seq<Byte>) returns (out: seq<Byte>)
      requires Valid()
      modifies this
      ensures Valid() && fed == old(fed) + chunk && emitted == old(emitted) + out
    {
      var text := carry + chunk;
      var lines := Split(text);
      ghost var ended, was := Ended(fed), seen;
      SplitConcat(fed, chunk);
      carry := lines[|lines| - 1];
      lines := lines[..|lines| - 1];
      assert Ended(fed + chunk) == ended + lines;
      KeptConcat(redact, blank, ended, lines, start);
      out := KeepLines(lines);
      fed, emitted := fed + chunk, emitted + out;
    }

    /// The loop over the lines of one chunk.
    method KeepLines(lines: seq<Line>) returns (out: seq<Byte>)
      modifies this`seen
      ensures (out, seen) == Kept(redact, blank, lines, old(seen))
    {
      out := [];
      assert lines[0..] == lines;
      Units(Kept(redact, blank, lines, seen).0);
      for k := 0 to |lines|
        invariant Kept(redact, blank, lines, old(seen)) ==
                    (out + Kept(redact, blank, lines[k..], seen).0, Kept(redact, blank, lines[k..], seen).1)
      {
        assert lines[k..][0] == lines[k] && lines[k..][1..] == lines[k + 1..];
        if !blank(lines[k]) {
          var (kept, seen') := redact(lines[k], seen);
          ghost var text := if kept.Some? then kept.value + [NEWLINE] else [];
          Assoc(out, text, Kept(redact, blank, lines[k + 1..], seen').0);
          Units(out);
          if kept.Some? { out := out + (kept.value + [NEWLINE]); }
          seen := seen';
        }
      }
      Units(out);
    }

    method Flush() returns (out: seq<Byte>)
      requires Valid()
      modifies this
      ensures fed == old(fed) && emitted == old(emitted) + out
      ensures (emitted, seen) == Kept(redact, blank, Split(fed), start)
    {
      assert Split(fed) == Ended(fed) + [carry];
      KeptConcat(redact, blank, Ended(fed), [carry], start);
      out := KeepLines([carry]);
      emitted := emitted + out;
    }
  }

  function Joined(chunks: seq<seq<Byte>>): seq<Byte> {
    if chunks == [] then [] else chunks[0] + Joined(chunks[1..])
  }

  lemma {:induction false} JoinedLast(chunks: seq<seq<Byte>>, k: nat)
    requires k < |chunks|
    ensures Joined(chunks[..k + 1]) == Joined(chunks[..k]) + chunks[k]
  {
    if k == 0 {
      assert chunks[..1][1..] == [];
      Units(chunks[0]);
    } else {
      JoinedLast(chunks[1..], k - 1);
      assert chunks[..k + 1][1..] == chunks[1..][..k] && chunks[..k][1..] == chunks[1..][..k - 1];
      Assoc(chunks[0], Joined(chunks[1..][..k - 1]), chunks[k]);
    }
  }

  /**
   The whole pipe. However the file is cut into chunks, what comes out is the redaction of its lines
   split once, the unended last line included.
   */
  method StreamFile<C(!new)>(redact: Redaction<C>, blank: Line -> bool, start: C, chunks: seq<seq<Byte>>)
    returns (out: seq<Byte>)
    ensures out == Kept(redact, blank, Split(Joined(chunks)), start).0
  {
    var t := new LineTransform(redact, blank, start);
    out := [];
    for k := 0 to |chunks|
      invariant t.Valid() && t.redact == redact && t.blank == blank && t.start == start
      invariant t.fed == Joined(chunks[..k]) && t.emitted == out
    {
      JoinedLast(chunks, k);
      var text := t.Transform(chunks[k]);
      out := out + text;
    }
    assert chunks[..|chunks|] == chunks;
    var last := t.Flush();
    out := out + last;
  }
}
