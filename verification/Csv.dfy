/**
 Reading the credential form's CSV export (scripts/inferenceKeys.ts): the character loop of `parseCsv`,
 which returns any table exactly as it was written.
 */
module Csv {
  import opened Basics

  const QUOTE: char := '\"'
  const BOM: char := '\U{FEFF}'

  type Table = seq<seq<string>>

  datatype Parsed = Rows(rows: Table) | EndsInsideQuotes

  /// What the loop holds: the finished rows, the row and field being read, and whether it is in quotes.
  datatype Reading = Reading(rows: Table, row: seq<string>, field: string, quoted: bool)

  function FieldEnded(s: Reading): Reading { s.(row := s.row + [s.field], field := "") }

  function RowEnded(s: Reading): Reading { Reading(s.rows + [s.row + [s.field]], [], "", s.quoted) }

  function Finished(s: Reading): Parsed {
    if s.quoted then EndsInsideQuotes
    else if s.field != "" || s.row != [] then Rows(RowEnded(s).rows)
    else Rows(s.rows)
  }

  function Starts(rest: string, i: nat, c: char): bool { i < |rest| && rest[i] == c }

  /// The loop from some point of the text on.
  function Scan(rest: string, s: Reading): Parsed
    decreases |rest|
  {
    if rest == "" then Finished(s)
    else if s.quoted then
      if rest[0] != QUOTE then Scan(rest[1..], s.(field := s.field + [rest[0]]))
      else if Starts(rest, 1, QUOTE) then Scan(rest[2..], s.(field := s.field + [QUOTE]))
      else Scan(rest[1..], s.(quoted := false))
    else if rest[0] == QUOTE && s.field == "" then Scan(rest[1..], s.(quoted := true))
    else if rest[0] == ',' then Scan(rest[1..], FieldEnded(s))
    else if rest[0] == '\r' && Starts(rest, 1, '\n') then Scan(rest[2..], RowEnded(s))
    else if rest[0] == '\n' || rest[0] == '\r' then Scan(rest[1..], RowEnded(s))
    else Scan(rest[1..], s.(field := s.field + [rest[0]]))
  }

  const START: Reading := Reading([], [], "", false)

  function Parse(text: string): Parsed {
    Scan(if Starts(text, 0, BOM) then text[1..] else text, START)
  }

  /// One turn of the loop.
  lemma ScanTurn(text: string, i: nat, s: Reading)
    requires i < |text|
    ensures var c, next := text[i], text[i + 1..];
            Scan(text[i..], s) ==
              if s.quoted then
                if c != QUOTE then Scan(next, s.(field := s.field + [c]))
                else if Starts(text, i + 1, QUOTE) then Scan(text[i + 2..], s.(field := s.field + [QUOTE]))
                else Scan(next, s.(quoted := false))
              else if c == QUOTE && s.field == "" then Scan(next, s.(quoted := true))
              else if c == ',' then Scan(next, FieldEnded(s))
              else if c == '\r' && Starts(text, i + 1, '\n') then Scan(text[i + 2..], RowEnded(s))
              else if c == '\n' || c == '\r' then Scan(next, RowEnded(s))
              else Scan(next, s.(field := s.field + [c]))
  {
    var rest := text[i..];
    assert rest[1..] == text[i + 1..] && (|rest| > 1 ==> rest[2..] == text[i + 2..] && rest[1] == text[i + 1]);
  }

  method ParseCsv(text: string) returns (r: Parsed)
    ensures r == Parse(text)
  {
    hide Scan;
    var rows: Table, row: seq<string>, field, quoted := [], [], "", false;
    var i := if Starts(text, 0, BOM) then 1 else 0;
    assert text[0..] == text;
    while i < |text|
      invariant 0 <= i <= |text|
      invariant Parse(text) == Scan(text[i..], Reading(rows, row, field, quoted))
    {
      ScanTurn(text, i, Reading(rows, row, field, quoted));
      var c := text[i];
      if quoted {
        if c == QUOTE {
          if Starts(text, i + 1, QUOTE) {
            field := field + [QUOTE];
            i := i + 1;
          } else {
            quoted := false;
          }
        } else {
          field := field + [c];
        }
      } else if c == QUOTE && field == "" {
        quoted := true;
      } else if c == ',' {
        row := row + [field];
        field := "";
      } else if c == '\n' || c == '\r' {
        if c == '\r' && Starts(text, i + 1, '\n') { i := i + 1; }
        rows := rows + [row + [field]];
        row := [];
        field := "";
      } else {
        field := field + [c];
      }
      i := i + 1;
    }
    assert text[i..] == "";
    ScanNothing(Reading(rows, row, field, quoted));
    if quoted { return EndsInsideQuotes; }
    if field != "" || row != [] { rows := rows + [row + [field]]; }
    r := Rows(rows);
  }

  // ---------------------------------------------------------------- writing a table

  /// A field as a writer puts it down: in quotes, or as it is.
  datatype Cell = Cell(text: string, quote: bool)

  datatype Ending = Cr | Lf | CrLf | EndOfText

  datatype Row = Row(cells: seq<Cell>, ending: Ending)

  function Doubled(text: string): string {
    if text == "" then "" else Escaped(text[0]) + Doubled(text[1..])
  }

  function Escaped(c: char): string { if c == QUOTE then [QUOTE, QUOTE] else [c] }

  function PrintCell(c: Cell): string {
    if c.quote then [QUOTE] + Doubled(c.text) + [QUOTE] else c.text
  }

  function PrintCells(cells: seq<Cell>): string {
    if cells == [] then ""
    else if |cells| == 1 then PrintCell(cells[0])
    else PrintCell(cells[0]) + "," + PrintCells(cells[1..])
  }

  function PrintEnding(e: Ending): string {
    match e
    case Cr => "\r"
    case Lf => "\n"
    case CrLf => "\r\n"
    case EndOfText => ""
  }

  function Print(rows: seq<Row>): string {
    if rows == [] then "" else PrintCells(rows[0].cells) + PrintEnding(rows[0].ending) + Print(rows[1..])
  }

  function Texts(cells: seq<Cell>): seq<string> {
    seq(|cells|, k requires 0 <= k < |cells| => cells[k].text)
  }

  function TableOf(rows: seq<Row>): Table {
    seq(|rows|, k requires 0 <= k < |rows| => Texts(rows[k].cells))
  }

  predicate Special(c: char) { c == ',' || c == '\n' || c == '\r' }

  /// A field may be left bare when it holds no separator and does not open with a quote.
  ghost predicate Bare(text: string) {
    (forall k :: 0 <= k < |text| ==> !Special(text[k])) && !Starts(text, 0, QUOTE)
  }

  /// A row has a field, and quotes those that need it.
  ghost predicate ProperRow(r: Row) {
    r.cells != [] && forall k :: 0 <= k < |r.cells| ==> r.cells[k].quote || Bare(r.cells[k].text)
  }

  /// Only the last row can be without a line ending.
  ghost predicate Proper(rows: seq<Row>) {
    forall k :: 0 <= k < |rows| ==> ProperRow(rows[k]) && (rows[k].ending == EndOfText ==> k == |rows| - 1)
  }

  predicate Empty(r: Row) { |r.cells| == 1 && r.cells[0].text == "" }

  /// A row that leaves nothing in the text in front of its ending.
  predicate Blank(r: Row) { Empty(r) && !r.cells[0].quote }

  /// A row of one empty field cannot be told from none when it has no ending, quoted or not; nor can a blank
  /// one when its line feed follows a carriage return.
  predicate Lost(r: Row, afterCr: bool) {
    (Empty(r) && r.ending == EndOfText) || (Blank(r) && r.ending == Lf && afterCr)
  }

  predicate LostAt(rows: seq<Row>, afterCr: bool, k: nat)
    requires k < |rows|
  {
    Lost(rows[k], if k == 0 then afterCr else rows[k - 1].ending == Cr)
  }

  /// No row is lost, going by its own cells and ending and the ending of the row before it.
  ghost predicate NoneLost(rows: seq<Row>, afterCr: bool) {
    forall k: nat :: k < |rows| ==> !LostAt(rows, afterCr, k)
  }

  /// The rows that are not lost.
  function Kept(rows: seq<Row>, afterCr: bool): seq<Row>
    decreases |rows|
  {
    if rows == [] then []
    else (if Lost(rows[0], afterCr) then [] else [rows[0]]) + Kept(rows[1..], rows[0].ending == Cr)
  }

  // ---------------------------------------------------------------- the round trip

  /// What can follow a field: nothing, a comma or a line ending.
  ghost predicate FieldStops(tail: string) { tail == "" || Special(tail[0]) }

  lemma ScanEscaped(c: char, rest: string, s: Reading)
    requires s.quoted
    ensures Scan(Escaped(c) + rest, s) == Scan(rest, s.(field := s.field + [c]))
  {
    var text := Escaped(c) + rest;
    assert text[|Escaped(c)|..] == rest;
  }

  lemma ScanClosingQuote(tail: string, s: Reading)
    requires s.quoted && !Starts(tail, 0, QUOTE)
    ensures Scan([QUOTE] + tail, s) == Scan(tail, s.(quoted := false))
  {
    assert ([QUOTE] + tail)[1..] == tail;
  }

  lemma {:induction false} ScanDoubled(text: string, tail: string, s: Reading)
    requires s.quoted && !Starts(tail, 0, QUOTE)
    ensures Scan(Doubled(text) + ([QUOTE] + tail), s) == Scan(tail, s.(field := s.field + text, quoted := false))
    decreases |text|
  {
    hide Scan, Escaped, Starts;
    if text == "" {
      Units([QUOTE] + tail);
      Units(s.field);
      ScanClosingQuote(tail, s);
    } else {
      var rest := Doubled(text[1..]) + ([QUOTE] + tail);
      Assoc(Escaped(text[0]), Doubled(text[1..]), [QUOTE] + tail);
      ScanEscaped(text[0], rest, s);
      ScanDoubled(text[1..], tail, s.(field := s.field + [text[0]]));
      Assoc(s.field, [text[0]], text[1..]);
      assert [text[0]] + text[1..] == text;
    }
  }

  lemma {:induction false} ScanBare(text: string, tail: string, s: Reading)
    requires !s.quoted && (forall k :: 0 <= k < |text| ==> !Special(text[k])) && FieldStops(tail)
    requires s.field == "" ==> !Starts(text, 0, QUOTE)
    ensures Scan(text + tail, s) == Scan(tail, s.(field := s.field + text))
    decreases |text|
  {
    if text == "" {
      Units(tail);
      Units(s.field);
    } else {
      assert (text + tail)[0] == text[0] && (text + tail)[1..] == text[1..] + tail;
      ScanBare(text[1..], tail, s.(field := s.field + [text[0]]));
      assert s.field + [text[0]] + text[1..] == s.field + text;
    }
  }

  /// What stands between a closing quote and the end of the field is part of it.
  lemma TextBehindQuotesIsKept(inside: string, behind: string, tail: string, s: Reading)
    requires !s.quoted && s.field == "" && FieldStops(tail) && QUOTE !in behind
    requires forall k :: 0 <= k < |behind| ==> !Special(behind[k])
    ensures Scan([QUOTE] + (Doubled(inside) + ([QUOTE] + (behind + tail))), s) ==
            Scan(tail, s.(field := inside + behind))
  {
    var text := Doubled(inside) + ([QUOTE] + (behind + tail));
    assert ([QUOTE] + text)[1..] == text;
    Units(inside);
    assert "" + inside == inside;
    ScanDoubled(inside, behind + tail, s.(quoted := true));
    ScanBare(behind, tail, s.(field := inside));
  }

  lemma ScanCell(c: Cell, tail: string, s: Reading)
    requires !s.quoted && s.field == "" && FieldStops(tail) && (c.quote || Bare(c.text))
    ensures Scan(PrintCell(c) + tail, s) == Scan(tail, s.(field := c.text))
  {
    Units(c.text);
    if c.quote {
      var inside := Doubled(c.text) + ([QUOTE] + tail);
      assert PrintCell(c) + tail == [QUOTE] + inside;
      assert ([QUOTE] + inside)[1..] == inside;
      ScanDoubled(c.text, tail, s.(quoted := true));
    } else {
      ScanBare(c.text, tail, s);
    }
  }

  /// What the loop holds when it has read the fields up to the last, and is in the last one still.
  function InLast(cells: seq<Cell>, s: Reading): Reading
    requires cells != []
  {
    s.(row := s.row + Texts(cells)[..|cells| - 1], field := cells[|cells| - 1].text)
  }

  lemma InLastTurn(cells: seq<Cell>, s: Reading)
    requires |cells| > 1
    ensures InLast(cells[1..], FieldEnded(s.(field := cells[0].text))) == InLast(cells, s)
  {
    assert Texts(cells)[..|cells| - 1] == [cells[0].text] + Texts(cells[1..])[..|cells| - 2];
    Assoc(s.row, [cells[0].text], Texts(cells[1..])[..|cells| - 2]);
  }

  lemma InOnlyCell(cell: Cell, s: Reading)
    ensures InLast([cell], s) == s.(field := cell.text)
  {
    Units(s.row);
    assert Texts([cell])[..0] == [];
  }

  lemma PrintTurn(cells: seq<Cell>, tail: string)
    requires |cells| > 1
    ensures PrintCells(cells) + tail == PrintCell(cells[0]) + ("," + (PrintCells(cells[1..]) + tail))
  {
    Assoc(PrintCell(cells[0]) + ",", PrintCells(cells[1..]), tail);
    Assoc(PrintCell(cells[0]), ",", PrintCells(cells[1..]) + tail);
  }

  /// A row of fields leaves the last one being read and the others in the row.
  lemma {:induction false} ScanCells(cells: seq<Cell>, tail: string, s: Reading)
    requires cells != [] && !s.quoted && s.field == "" && FieldStops(tail)
    requires forall k :: 0 <= k < |cells| ==> cells[k].quote || Bare(cells[k].text)
    ensures Scan(PrintCells(cells) + tail, s) == Scan(tail, InLast(cells, s))
    decreases |cells|
  {
    hide Scan, PrintCell, Texts, InLast, Bare;
    if |cells| == 1 {
      assert cells == [cells[0]];
      InOnlyCell(cells[0], s);
      ScanCell(cells[0], tail, s);
    } else {
      var rest := PrintCells(cells[1..]) + tail;
      PrintTurn(cells, tail);
      ScanCell(cells[0], "," + rest, s);
      ScanComma(rest, s.(field := cells[0].text));
      ScanCells(cells[1..], tail, FieldEnded(s.(field := cells[0].text)));
      InLastTurn(cells, s);
    }
  }

  lemma ScanComma(rest: string, s: Reading)
    requires !s.quoted
    ensures Scan("," + rest, s) == Scan(rest, FieldEnded(s))
  {
    assert ("," + rest)[1..] == rest;
  }

  /// Text opens with a line feed only when its first row is blank and ends in one.
  lemma LineFeedFirst(rows: seq<Row>)
    requires Proper(rows)
    ensures Starts(Print(rows), 0, '\n') ==> rows != [] && Blank(rows[0]) && rows[0].ending == Lf
  {
    if rows != [] {
      var r := rows[0];
      assert ProperRow(r);
      CellsOpen(r.cells);
      if PrintCells(r.cells) != "" {
        assert Print(rows)[0] == PrintCells(r.cells)[0];
      } else if r.ending == EndOfText {
        assert rows[1..] == [];
        assert Print(rows) == "" + "" + "";
      }
    }
  }

  lemma CellsOpen(cells: seq<Cell>)
    requires cells != [] && (cells[0].quote || Bare(cells[0].text))
    ensures PrintCells(cells) == "" <==> |cells| == 1 && cells[0].text == "" && !cells[0].quote
    ensures !Starts(PrintCells(cells), 0, '\n')
  {
    var first := PrintCell(cells[0]);
    if |cells| > 1 {
      assert PrintCells(cells) == first + "," + PrintCells(cells[1..]);
    }
  }

  lemma ScanEnding(e: Ending, tail: string, s: Reading)
    requires !s.quoted && e != EndOfText && (e == Cr ==> !Starts(tail, 0, '\n'))
    ensures Scan(PrintEnding(e) + tail, s) == Scan(tail, RowEnded(s))
  {
    var text := PrintEnding(e) + tail;
    assert text[|PrintEnding(e)|..] == tail;
    if |PrintEnding(e)| == 1 && tail != "" { assert text[1] == tail[0]; }
  }

  lemma ScanNothing(s: Reading)
    ensures Scan("", s) == Finished(s)
  {}

  /// At the start of a row.
  predicate BetweenRows(s: Reading) { s.row == [] && s.field == "" && !s.quoted }

  lemma RowReadIsTexts(cells: seq<Cell>, s: Reading)
    requires cells != [] && BetweenRows(s)
    ensures InLast(cells, s).row + [InLast(cells, s).field] == Texts(cells)
  {
    Units(Texts(cells)[..|cells| - 1]);
  }

  function RowAdded(s: Reading, cells: seq<Cell>): Reading { Reading(s.rows + [Texts(cells)], [], "", false) }

  /// A row with an ending is read and the next begins.
  lemma ScanRow(cells: seq<Cell>, e: Ending, after: string, s: Reading)
    requires cells != [] && forall k :: 0 <= k < |cells| ==> cells[k].quote || Bare(cells[k].text)
    requires BetweenRows(s) && e != EndOfText && (e == Cr ==> !Starts(after, 0, '\n'))
    ensures Scan(PrintCells(cells) + (PrintEnding(e) + after), s) == Scan(after, RowAdded(s, cells))
  {
    hide Scan, PrintCells, Texts;
    ScanCells(cells, PrintEnding(e) + after, s);
    ScanEnding(e, after, InLast(cells, s));
    RowReadIsTexts(cells, s);
  }

  /// The last row, if it has no ending, is finished by the end of the text, unless that finds nothing of it.
  lemma ScanLastRow(r: Row, s: Reading)
    requires ProperRow(r) && BetweenRows(s) && r.ending == EndOfText
    ensures Scan(PrintCells(r.cells), s) == Rows(if Empty(r) then s.rows else s.rows + [Texts(r.cells)])
  {
    hide Scan, PrintCells;
    Units(PrintCells(r.cells));
    ScanCells(r.cells, "", s);
    ScanNothing(InLast(r.cells, s));
    RowReadIsTexts(r.cells, s);
  }

  /// What is lost is decided by the row before alone.
  lemma KeptAfter(rows: seq<Row>)
    requires rows != [] ==> !(Blank(rows[0]) && rows[0].ending == Lf)
    ensures Kept(rows, true) == Kept(rows, false)
  {}

  /// A blank line feed in front that would be lost after a carriage return.
  predicate FeedFollows(r: Row, rest: seq<Row>) {
    r.ending == Cr && rest != [] && Blank(rest[0]) && rest[0].ending == Lf
  }

  lemma KeptTurn(r: Row, rest: seq<Row>)
    requires r.ending != EndOfText
    ensures Kept([r] + rest, false) == [r] + Kept(if FeedFollows(r, rest) then rest[1..] else rest, false)
  {
    assert ([r] + rest)[1..] == rest;
    if r.ending == Cr && !FeedFollows(r, rest) { KeptAfter(rest); }
  }

  /// From between two rows, what is read of written rows are those not lost.
  lemma {:induction false} ScanRows(rows: seq<Row>, s: Reading)
    requires Proper(rows) && BetweenRows(s)
    ensures Scan(Print(rows), s) == Rows(s.rows + TableOf(Kept(rows, false)))
    decreases |rows|
  {
    hide Scan, Print, ProperRow, TableOf, Kept;
    if rows == [] {
      ScanNoRows(s);
    } else {
      var r, rest := rows[0], rows[1..];
      assert rows == [r] + rest;
      if r.ending == EndOfText {
        assert rest == [] && rows == [r];
        ScanOnlyLast(r, s);
      } else {
        KeptTurn(r, rest);
        var after := if FeedFollows(r, rest) then rest[1..] else rest;
        if FeedFollows(r, rest) { ScanOverLost(r, rest, s); } else { ScanOver(r, rest, s); }
        ScanRows(after, RowAdded(s, r.cells));
        KeptOne(s, r, Kept(after, false));
      }
    }
  }

  lemma ScanNoRows(s: Reading)
    requires BetweenRows(s)
    ensures Scan(Print([]), s) == Rows(s.rows + TableOf(Kept([], false)))
  {
    assert TableOf(Kept([], false)) == [];
    Units(s.rows);
    ScanNothing(s);
  }

  lemma ScanOnlyLast(r: Row, s: Reading)
    requires ProperRow(r) && BetweenRows(s) && r.ending == EndOfText
    ensures Scan(Print([r]), s) == Rows(s.rows + TableOf(Kept([r], false)))
  {
    hide Scan, PrintCells;
    assert [r][1..] == [];
    assert Print([r]) == PrintCells(r.cells) + "" + "";
    Units(PrintCells(r.cells));
    ScanLastRow(r, s);
    LastKept(r, s);
  }

  lemma LastKept(r: Row, s: Reading)
    requires r.ending == EndOfText
    ensures s.rows + TableOf(Kept([r], false)) == if Empty(r) then s.rows else s.rows + [Texts(r.cells)]
  {
    assert [r][1..] == [];
    assert Kept([r], false) == if Empty(r) then [] else [r];
  }

  lemma KeptOne(s: Reading, r: Row, kept: seq<Row>)
    ensures RowAdded(s, r.cells).rows + TableOf(kept) == s.rows + TableOf([r] + kept)
  {
    assert TableOf([r] + kept) == [Texts(r.cells)] + TableOf(kept);
    Assoc(s.rows, [Texts(r.cells)], TableOf(kept));
  }

  /// A row whose ending nothing that follows can change.
  lemma ScanOver(r: Row, rest: seq<Row>, s: Reading)
    requires Proper([r] + rest) && BetweenRows(s) && r.ending != EndOfText
    requires !FeedFollows(r, rest)
    ensures Scan(Print([r] + rest), s) == Scan(Print(rest), RowAdded(s, r.cells))
  {
    hide Scan, PrintCells;
    var rows := [r] + rest;
    assert rows[0] == r && rows[1..] == rest && ProperRow(rows[0]);
    assert Proper(rest) by {
      forall k | 0 <= k < |rest| ensures ProperRow(rest[k]) && (rest[k].ending == EndOfText ==> k == |rest| - 1) {
        assert rows[k + 1] == rest[k];
      }
    }
    LineFeedFirst(rest);
    Assoc(PrintCells(r.cells), PrintEnding(r.ending), Print(rest));
    ScanRow(r.cells, r.ending, Print(rest), s);
  }

  /// A carriage return and the line feed of a blank row make one ending.
  lemma ScanOverLost(r: Row, rest: seq<Row>, s: Reading)
    requires Proper([r] + rest) && BetweenRows(s) && FeedFollows(r, rest)
    ensures Scan(Print([r] + rest), s) == Scan(Print(rest[1..]), RowAdded(s, r.cells))
  {
    hide Scan;
    var rows := [r] + rest;
    assert rows[0] == r && rows[1..] == rest && ProperRow(rows[0]);
    var after := Print(rest[1..]);
    assert PrintCells(rest[0].cells) == "" && Print(rest) == "" + "\n" + after;
    assert Print(rows) == PrintCells(r.cells) + ("\r\n" + after);
    ScanRow(r.cells, CrLf, after, s);
  }

  lemma {:induction false} KeptIsAllIffNoneLost(rows: seq<Row>, afterCr: bool)
    ensures |Kept(rows, afterCr)| <= |rows|
    ensures |Kept(rows, afterCr)| == |rows| <==> NoneLost(rows, afterCr)
    ensures NoneLost(rows, afterCr) ==> Kept(rows, afterCr) == rows
    decreases |rows|
  {
    hide Lost, NoneLost;
    if rows == [] {
      NothingLost(afterCr);
    } else {
      KeptIsAllIffNoneLost(rows[1..], rows[0].ending == Cr);
      NoneLostTurn(rows, afterCr);
      assert rows == [rows[0]] + rows[1..];
    }
  }

  lemma NothingLost(afterCr: bool)
    ensures NoneLost([], afterCr)
  {}

  lemma NoneLostTurn(rows: seq<Row>, afterCr: bool)
    requires rows != []
    ensures NoneLost(rows, afterCr) <==> !Lost(rows[0], afterCr) && NoneLost(rows[1..], rows[0].ending == Cr)
  {
    hide Lost;
    var rest, cr := rows[1..], rows[0].ending == Cr;
    assert LostAt(rows, afterCr, 0) == Lost(rows[0], afterCr);
    forall k: nat | k < |rest| ensures LostAt(rest, cr, k) == LostAt(rows, afterCr, k + 1) {
      assert rest[k] == rows[k + 1] && (k > 0 ==> rest[k - 1] == rows[k]);
    }
    if NoneLost(rest, cr) && !Lost(rows[0], afterCr) {
      forall k: nat | k < |rows| ensures !LostAt(rows, afterCr, k) {
        if k > 0 { assert !LostAt(rest, cr, k - 1); }
      }
    }
  }

  lemma {:induction false} UnclosedScan(text: string, s: Reading)
    requires s.quoted && QUOTE !in text
    ensures Scan(text, s) == EndsInsideQuotes
    decreases |text|
  {
    if text != "" { UnclosedScan(text[1..], s.(field := s.field + [text[0]])); }
  }

  /// Behind rows that are all ended, a quote that opens a field and is never closed is refused, whatever follows it.
  lemma {:induction false} UnclosedQuoteIsRefused(rows: seq<Row>, text: string, s: Reading)
    requires Proper(rows) && BetweenRows(s) && QUOTE !in text
    requires forall k :: 0 <= k < |rows| ==> rows[k].ending == CrLf
    ensures Scan(Print(rows) + ([QUOTE] + text), s) == EndsInsideQuotes
    decreases |rows|
  {
    hide Scan, PrintCells;
    var open := [QUOTE] + text;
    if rows == [] {
      Units(open);
      OpensQuote(text, s);
      UnclosedScan(text, s.(quoted := true));
    } else {
      var r, rest := rows[0], rows[1..];
      assert ProperRow(r);
      assert Proper(rest) by {
        forall k | 0 <= k < |rest| ensures ProperRow(rest[k]) { assert rows[k + 1] == rest[k]; }
      }
      assert Print(rows) + open == PrintCells(r.cells) + (PrintEnding(r.ending) + (Print(rest) + open));
      ScanRow(r.cells, r.ending, Print(rest) + open, s);
      UnclosedQuoteIsRefused(rest, text, RowAdded(s, r.cells));
    }
  }

  lemma OpensQuote(text: string, s: Reading)
    requires BetweenRows(s)
    ensures Scan([QUOTE] + text, s) == Scan(text, s.(quoted := true))
  {
    assert ([QUOTE] + text)[1..] == text;
  }

  // ---------------------------------------------------------------- a text that opens with the mark

  /// How often the byte order mark stands in a text, a row, a table.
  function Marks(text: string): int { multiset(text)[BOM] }

  function RowMarks(row: seq<string>): int { SumBy(row, Marks) }

  function TableMarks(rows: Table): int { SumBy(rows, RowMarks) }

  function ReadMarks(s: Reading): int { TableMarks(s.rows) + RowMarks(s.row) + Marks(s.field) }

  lemma FieldEndedMarks(s: Reading)
    ensures ReadMarks(FieldEnded(s)) == ReadMarks(s)
  {
    SumByPush(s.row, s.field, Marks);
  }

  lemma RowEndedMarks(s: Reading)
    ensures ReadMarks(RowEnded(s)) == ReadMarks(s)
  {
    SumByPush(s.row, s.field, Marks);
    SumByPush(s.rows, s.row + [s.field], RowMarks);
  }

  lemma CharMarks(s: Reading, c: char)
    ensures ReadMarks(s.(field := s.field + [c])) == ReadMarks(s) + Marks([c])
  {}

  lemma FirstMarks(rest: string, n: nat)
    requires n <= |rest|
    ensures Marks(rest) == Marks(rest[..n]) + Marks(rest[n..])
  {
    assert rest == rest[..n] + rest[n..];
  }

  /// Reading neither makes nor drops a mark, past the one it may skip at the front.
  lemma {:induction false} ScanKeepsMarks(rest: string, s: Reading)
    ensures Scan(rest, s).Rows? ==> TableMarks(Scan(rest, s).rows) == ReadMarks(s) + Marks(rest)
    decreases |rest|
  {
    hide ReadMarks, Marks;
    if rest == "" {
      FinishedMarks(s);
    } else {
      var c := rest[0];
      FirstMarks(rest, 1);
      assert rest[..1] == [c];
      CharMarks(s, c);
      SeparatorMarks(rest);
      if s.quoted {
        if c != QUOTE {
          ScanKeepsMarks(rest[1..], s.(field := s.field + [c]));
        } else if Starts(rest, 1, QUOTE) {
          ScanKeepsMarks(rest[2..], s.(field := s.field + [QUOTE]));
        } else {
          QuotedMarks(s, false);
          ScanKeepsMarks(rest[1..], s.(quoted := false));
        }
      } else if c == QUOTE && s.field == "" {
        QuotedMarks(s, true);
        ScanKeepsMarks(rest[1..], s.(quoted := true));
      } else if c == ',' {
        FieldEndedMarks(s);
        ScanKeepsMarks(rest[1..], FieldEnded(s));
      } else if c == '\r' && Starts(rest, 1, '\n') {
        RowEndedMarks(s);
        ScanKeepsMarks(rest[2..], RowEnded(s));
      } else if c == '\n' || c == '\r' {
        RowEndedMarks(s);
        ScanKeepsMarks(rest[1..], RowEnded(s));
      } else {
        ScanKeepsMarks(rest[1..], s.(field := s.field + [c]));
      }
    }
  }

  lemma FinishedMarks(s: Reading)
    ensures Finished(s).Rows? ==> TableMarks(Finished(s).rows) == ReadMarks(s) + Marks("")
  {
    RowEndedMarks(s);
  }

  lemma QuotedMarks(s: Reading, quoted: bool)
    ensures ReadMarks(s.(quoted := quoted)) == ReadMarks(s)
  {}

  /// No mark goes with what is not read into a field.
  lemma SeparatorMarks(rest: string)
    requires rest != ""
    ensures rest[0] == QUOTE || Special(rest[0]) ==> Marks(rest[1..]) == Marks(rest)
    ensures |rest| > 1 && (rest[1] == QUOTE || rest[1] == '\n') ==> Marks(rest[2..]) == Marks(rest[1..])
  {
    FirstMarks(rest, 1);
    if |rest| > 1 {
      FirstMarks(rest[1..], 1);
      assert rest[1..][1..] == rest[2..];
    }
  }

  lemma {:induction false} KeptMarks(rows: seq<Row>, afterCr: bool)
    ensures TableMarks(TableOf(Kept(rows, afterCr))) <= TableMarks(TableOf(rows))
    decreases |rows|
  {
    hide Lost, Marks, Texts;
    if rows != [] {
      var kept := Kept(rows[1..], rows[0].ending == Cr);
      KeptMarks(rows[1..], rows[0].ending == Cr);
      assert TableOf(rows)[1..] == TableOf(rows[1..]);
      assert TableOf([rows[0]] + kept)[1..] == TableOf(kept);
      Units(kept);
      RowMarksAreNatural(Texts(rows[0].cells));
    }
  }

  lemma {:induction false} RowMarksAreNatural(row: seq<string>)
    ensures RowMarks(row) >= 0
  {
    if row != [] { RowMarksAreNatural(row[1..]); }
  }

  /// So a text whose own first mark is skipped is not read as it was written.
  lemma SkippedMarkIsMissed(rows: seq<Row>)
    requires Proper(rows) && Starts(Print(rows), 0, BOM)
    ensures Parse(Print(rows)) != Rows(TableOf(rows))
  {
    hide Scan, Print, TableMarks;
    var text := Print(rows);
    ScanRows(rows, START);
    Units(TableOf(Kept(rows, false)));
    ScanKeepsMarks(text, START);
    ScanKeepsMarks(text[1..], START);
    FirstMarks(text, 1);
    assert text[..1] == [BOM];
    KeptMarks(rows, false);
  }

  /// The rows without a mark at the front of the first field.
  function Unmarked(rows: seq<Row>): seq<Row> {
    if rows == [] || rows[0].cells == [] || rows[0].cells[0].text == "" then rows
    else rows[0 := rows[0].(cells := rows[0].cells[0 := Cell(rows[0].cells[0].text[1..], false)])]
  }

  /// The first field is left bare and opens with the mark.
  predicate MarkFirst(rows: seq<Row>) {
    rows != [] && rows[0].cells != [] && !rows[0].cells[0].quote && Starts(rows[0].cells[0].text, 0, BOM)
  }

  /// There is a quote behind it.
  predicate QuoteSecond(rows: seq<Row>) {
    rows != [] && rows[0].cells != [] && Starts(rows[0].cells[0].text, 1, QUOTE)
  }

  lemma MarkOpensTheText(rows: seq<Row>)
    requires Proper(rows)
    ensures Starts(Print(rows), 0, BOM) <==> MarkFirst(rows)
  {
    if rows != [] {
      assert ProperRow(rows[0]);
      CellsSplit(rows[0].cells);
      if PrintCells(rows[0].cells) != "" { assert Print(rows)[0] == PrintCells(rows[0].cells)[0]; }
    }
  }

  function MoreCells(cells: seq<Cell>): string
    requires cells != []
  {
    if |cells| == 1 then "" else "," + PrintCells(cells[1..])
  }

  lemma CellsSplit(cells: seq<Cell>)
    requires cells != []
    ensures PrintCells(cells) == PrintCell(cells[0]) + MoreCells(cells)
  {
    hide PrintCell;
    Units(PrintCell(cells[0]));
    if |cells| > 1 { Assoc(PrintCell(cells[0]), ",", PrintCells(cells[1..])); }
  }

  lemma UnmarkedIsTheRest(rows: seq<Row>)
    requires Proper(rows) && MarkFirst(rows)
    ensures Print(Unmarked(rows)) == Print(rows)[1..]
    ensures !QuoteSecond(rows) ==> Proper(Unmarked(rows))
  {
    hide PrintCells;
    var left, front := Unmarked(rows), PrintCells(rows[0].cells);
    CellsUnmarked(rows[0].cells);
    assert left[1..] == rows[1..];
    RestOfThree(front, PrintEnding(rows[0].ending), Print(rows[1..]));
    if !QuoteSecond(rows) { UnmarkedIsProper(rows); }
  }

  lemma CellsUnmarked(cells: seq<Cell>)
    requires cells != [] && cells[0].text != "" && !cells[0].quote
    ensures PrintCells(cells) != ""
    ensures PrintCells(cells[0 := Cell(cells[0].text[1..], false)]) == PrintCells(cells)[1..]
  {
    var left := cells[0 := Cell(cells[0].text[1..], false)];
    assert left[1..] == cells[1..];
    CellsSplit(cells);
    CellsSplit(left);
  }

  lemma RestOfThree(a: string, b: string, c: string)
    requires a != ""
    ensures (a + b + c)[1..] == a[1..] + b + c
  {}

  lemma UnmarkedIsProper(rows: seq<Row>)
    requires Proper(rows) && MarkFirst(rows) && !QuoteSecond(rows)
    ensures Proper(Unmarked(rows))
  {
    assert ProperRow(rows[0]);
  }

  /**
   Parsing what was written gives back the table exactly when no row of one empty field is lost and the text does not
   open with a bare field's own mark: fields with commas, quotes and line breaks included, any line ending on any row,
   quotes wherever they are needed and anywhere else, a byte order mark or none. Otherwise the lost rows are missing,
   or the mark is, unless a quote behind it then opens the field.
   */
  lemma ParseReturnsWhatWasWritten(rows: seq<Row>, bom: bool)
    requires Proper(rows)
    ensures var parsed, skipped := Parse((if bom then [BOM] else "") + Print(rows)), !bom && MarkFirst(rows);
            (!skipped ==> parsed == Rows(TableOf(Kept(rows, false)))) &&
            (skipped && !QuoteSecond(rows) ==> parsed == Rows(TableOf(Kept(Unmarked(rows), false)))) &&
            (parsed == Rows(TableOf(rows)) <==> NoneLost(rows, false) && !skipped)
  {
    hide Scan, Print, TableOf, MarkFirst, QuoteSecond, NoneLost, Proper, Unmarked;
    var text := (if bom then [BOM] else "") + Print(rows);
    assert bom ==> text[1..] == Print(rows);
    assert !bom ==> text == Print(rows);
    MarkOpensTheText(rows);
    if !bom && MarkFirst(rows) {
      SkippedMarkIsMissed(rows);
      UnmarkedIsTheRest(rows);
      if !QuoteSecond(rows) { ReadsKept(Unmarked(rows)); }
    } else {
      ReadsKept(rows);
      KeptIsAllIffNoneLost(rows, false);
      RowsApart(Kept(rows, false), rows);
    }
  }

  lemma ReadsKept(rows: seq<Row>)
    requires Proper(rows)
    ensures Scan(Print(rows), START) == Rows(TableOf(Kept(rows, false)))
  {
    ScanRows(rows, START);
    Units(TableOf(Kept(rows, false)));
  }

  lemma RowsApart(a: seq<Row>, b: seq<Row>)
    ensures |a| != |b| ==> TableOf(a) != TableOf(b)
  {
    assert |TableOf(a)| == |a| && |TableOf(b)| == |b|;
  }
}
