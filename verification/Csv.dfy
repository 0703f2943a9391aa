/** The CSV printer of `apps/src/utils/csv.ts` against a parser for section 2 of RFC 4180. */
module Csv {
  import opened Basics

  const QUOTE := '\"'
  const CR := '\r'
  const LF := '\n'
  const BOM := '\U{FEFF}'

  // ---------------------------------------------------------------- printing

  predicate Special(c: char) {
    c == QUOTE || c == ',' || c == LF || c == CR
  }

  function Doubled(text: string): string {
    if text == [] then [] else (if text[0] == QUOTE then [QUOTE, QUOTE] else [text[0]]) + Doubled(text[1..])
  }

  function EscapeCell(text: string): string {
    if exists i | 0 <= i < |text| :: Special(text[i]) then [QUOTE] + Doubled(text) + [QUOTE] else text
  }

  function PrintRow(row: seq<string>): string {
    if row == [] then ""
    else if |row| == 1 then EscapeCell(row[0])
    else EscapeCell(row[0]) + [','] + PrintRow(row[1..])
  }

  function PrintRows(rows: seq<seq<string>>): string {
    if rows == [] then ""
    else if |rows| == 1 then PrintRow(rows[0])
    else PrintRow(rows[0]) + [CR, LF] + PrintRows(rows[1..])
  }

  /** The content of the downloaded file. */
  function Document(rows: seq<seq<string>>): string {
    [BOM] + PrintRows(rows)
  }

  /** A cell is quoted only where it must be: it has a quote, a comma or half a line break in it. */
  lemma QuotedIfNeeded(text: string)
    ensures if QUOTE in text || ',' in text || CR in text || LF in text
            then |EscapeCell(text)| >= |text| + 2 && EscapeCell(text)[0] == EscapeCell(text)[|EscapeCell(text)| - 1] == QUOTE
            else EscapeCell(text) == text
  {
    DoubledIsLonger(text);
    if c :| c in text && Special(c) {
      var i :| 0 <= i < |text| && text[i] == c;
      assert Special(text[i]);
    }
  }

  lemma {:induction false} DoubledIsLonger(text: string)
    ensures |Doubled(text)| >= |text|
    decreases |text|
  {
    if text != [] {
      DoubledIsLonger(text[1..]);
    }
  }

  // ---------------------------------------------------------------- parsing

  datatype Mode = AtStart | Plain | Quoted | AfterQuote

  predicate LineBreak(s: string) {
    |s| >= 2 && s[0] == CR && s[1] == LF
  }

  /**
   Records separated by CRLF, fields by commas; a quoted field may hold anything, with quotes doubled; an
   unquoted one no quote, comma, CR or LF. `cell` and `row` are what was read of the current ones.
   */
  function Parse(s: string, mode: Mode, cell: string, row: seq<string>): Option<seq<seq<string>>>
    decreases |s|
  {
    if s == [] then if mode == Quoted then None else Some([row + [cell]])
    else if mode == Quoted then
      if s[0] == QUOTE then Parse(s[1..], AfterQuote, cell, row) else Parse(s[1..], Quoted, cell + [s[0]], row)
    else if mode == AfterQuote && s[0] == QUOTE then Parse(s[1..], Quoted, cell + [QUOTE], row)
    else if s[0] == ',' then Parse(s[1..], AtStart, "", row + [cell])
    else if LineBreak(s) then
      var rest := Parse(s[2..], AtStart, "", []);
      if rest.Some? then Some([row + [cell]] + rest.value) else None
    else if s[0] == CR || s[0] == LF then None
    else if mode == AtStart && s[0] == QUOTE then Parse(s[1..], Quoted, "", row)
    else if mode == AfterQuote || s[0] == QUOTE then None
    else Parse(s[1..], Plain, cell + [s[0]], row)
  }

  function ParseRows(s: string): Option<seq<seq<string>>> {
    Parse(s, AtStart, "", [])
  }

  /** A reader of the file that takes every line break as a separator. */
  function ParseDocument(s: string): Option<seq<seq<string>>> {
    ParseRows(if s != [] && s[0] == BOM then s[1..] else s)
  }

  /** A reader that takes a final line break as the end of the last record, as the standard also allows. */
  function ParseDocumentLeniently(s: string): Option<seq<seq<string>>> {
    var rows := ParseDocument(s);
    if rows.Some? && |rows.value| > 1 && |s| >= 2 && s[|s| - 2..] == [CR, LF]
    then Some(rows.value[..|rows.value| - 1]) else rows
  }

  // ---------------------------------------------------------------- one cell

  /** Where a printed cell ends. */
  predicate Boundary(s: string) {
    s == [] || s[0] == ',' || LineBreak(s)
  }

  lemma {:induction false} BoundaryEndsCell(s: string, mode: Mode, cell: string, row: seq<string>)
    requires Boundary(s) && mode != Quoted
    ensures Parse(s, mode, cell, row) == Parse(s, Plain, cell, row)
  {
  }

  lemma {:induction false} PlainText(text: string, rest: string, mode: Mode, cell: string, row: seq<string>)
    requires mode == AtStart || mode == Plain
    requires forall i | 0 <= i < |text| :: !Special(text[i])
    ensures Parse(text + rest, mode, cell, row) == Parse(rest, if text == [] then mode else Plain, cell + text, row)
    decreases |text|
  {
    if text == [] {
      assert text + rest == rest && cell + text == cell;
    } else {
      assert !Special(text[0]);
      assert (text + rest)[0] == text[0] && (text + rest)[1..] == text[1..] + rest;
      PlainText(text[1..], rest, Plain, cell + [text[0]], row);
      assert cell + [text[0]] + text[1..] == cell + text;
    }
  }

  lemma {:induction false} QuotedText(text: string, rest: string, cell: string, row: seq<string>)
    requires Boundary(rest)
    ensures Parse(Doubled(text) + [QUOTE] + rest, Quoted, cell, row) == Parse(rest, AfterQuote, cell + text, row)
    decreases |text|
  {
    var s := Doubled(text) + [QUOTE] + rest;
    if text == [] {
      assert s[0] == QUOTE && s[1..] == rest && cell + text == cell;
    } else {
      var tail := Doubled(text[1..]) + [QUOTE] + rest;
      QuotedText(text[1..], rest, cell + [text[0]], row);
      assert cell + [text[0]] + text[1..] == cell + text;
      if text[0] == QUOTE {
        assert s[0] == QUOTE && s[1..][0] == QUOTE && s[1..][1..] == tail;
      } else {
        assert s[0] == text[0] && s[1..] == tail;
      }
    }
  }

  lemma {:induction false} QuotedCellParses(text: string, rest: string, row: seq<string>)
    requires Boundary(rest)
    ensures Parse([QUOTE] + Doubled(text) + [QUOTE] + rest, AtStart, "", row) == Parse(rest, Plain, text, row)
  {
    var s := [QUOTE] + Doubled(text) + [QUOTE] + rest;
    assert s[0] == QUOTE && s[1..] == Doubled(text) + [QUOTE] + rest;
    QuotedText(text, rest, "", row);
    assert "" + text == text;
    BoundaryEndsCell(rest, AfterQuote, text, row);
  }

  /** Reading a printed cell up to its end yields its text. */
  lemma {:induction false} CellParses(text: string, rest: string, row: seq<string>)
    requires Boundary(rest)
    ensures Parse(EscapeCell(text) + rest, AtStart, "", row) == Parse(rest, Plain, text, row)
  {
    if exists i | 0 <= i < |text| :: Special(text[i]) {
      QuotedCellParses(text, rest, row);
    } else {
      PlainText(text, rest, AtStart, "", row);
      assert "" + text == text;
      BoundaryEndsCell(rest, AtStart, text, row);
    }
  }

  // ---------------------------------------------------------------- rows and tables

  lemma {:induction false} RowParses(cells: seq<string>, rest: string, row: seq<string>)
    requires cells != [] && (rest == [] || LineBreak(rest))
    ensures Parse(PrintRow(cells) + rest, AtStart, "", row) ==
            Parse(rest, Plain, cells[|cells| - 1], row + cells[..|cells| - 1])
    decreases |cells|
  {
    if |cells| == 1 {
      CellParses(cells[0], rest, row);
      assert row + cells[..0] == row;
    } else {
      FirstCellParses(cells, rest, row);
      RowParses(cells[1..], rest, row + [cells[0]]);
      TailOfRow(cells, row);
    }
  }

  lemma TailOfRow(cells: seq<string>, row: seq<string>)
    requires |cells| > 1
    ensures var tail := cells[1..];
            && tail[|tail| - 1] == cells[|cells| - 1]
            && row + [cells[0]] + tail[..|tail| - 1] == row + cells[..|cells| - 1]
  {
  }

  lemma {:induction false} FirstCellParses(cells: seq<string>, rest: string, row: seq<string>)
    requires |cells| > 1
    ensures Parse(PrintRow(cells) + rest, AtStart, "", row) ==
            Parse(PrintRow(cells[1..]) + rest, AtStart, "", row + [cells[0]])
  {
    var after := [','] + (PrintRow(cells[1..]) + rest);
    assert PrintRow(cells) + rest == EscapeCell(cells[0]) + after;
    CellParses(cells[0], after, row);
    assert after[1..] == PrintRow(cells[1..]) + rest;
  }

  lemma {:induction false} LastRowParses(row: seq<string>)
    requires row != []
    ensures ParseRows(PrintRow(row)) == Some([row])
  {
    RowParses(row, "", []);
    assert PrintRow(row) + "" == PrintRow(row);
    assert [] + row[..|row| - 1] + [row[|row| - 1]] == row;
  }

  lemma {:induction false} RowBeforeOthers(row: seq<string>, more: string)
    requires row != []
    ensures var rest := ParseRows(more);
            ParseRows(PrintRow(row) + ([CR, LF] + more)) == if rest.Some? then Some([row] + rest.value) else None
  {
    var rest := [CR, LF] + more;
    RowParses(row, rest, []);
    assert rest[2..] == more;
    assert [] + row[..|row| - 1] + [row[|row| - 1]] == row;
  }

  /** Parsing the printed rows gives back every cell, whatever it holds. */
  lemma {:induction false} RowsRoundTrip(rows: seq<seq<string>>)
    requires NonEmptyTable(rows)
    ensures ParseRows(PrintRows(rows)) == Some(rows)
    decreases |rows|
  {
    if |rows| == 1 {
      LastRowParses(rows[0]);
      assert [rows[0]] == rows;
    } else {
      RowBeforeOthers(rows[0], PrintRows(rows[1..]));
      RowsRoundTrip(rows[1..]);
      assert PrintRows(rows) == PrintRow(rows[0]) + ([CR, LF] + PrintRows(rows[1..]));
      assert [rows[0]] + rows[1..] == rows;
    }
  }

  /** A table of at least one row, each with at least one cell. */
  predicate NonEmptyTable(rows: seq<seq<string>>) {
    rows != [] && forall i | 0 <= i < |rows| :: rows[i] != []
  }

  lemma {:induction false} ParsedIsNonEmpty(s: string, mode: Mode, cell: string, row: seq<string>)
    ensures var r := Parse(s, mode, cell, row); r.Some? ==> NonEmptyTable(r.value)
    decreases |s|
  {
    if s != [] {
      if mode == Quoted {
        ParsedIsNonEmpty(s[1..], if s[0] == QUOTE then AfterQuote else Quoted,
                            if s[0] == QUOTE then cell else cell + [s[0]], row);
      } else if mode == AfterQuote && s[0] == QUOTE {
        ParsedIsNonEmpty(s[1..], Quoted, cell + [QUOTE], row);
      } else if s[0] == ',' {
        ParsedIsNonEmpty(s[1..], AtStart, "", row + [cell]);
      } else if LineBreak(s) {
        ParsedIsNonEmpty(s[2..], AtStart, "", []);
      } else {
        ParsedIsNonEmpty(s[1..], Quoted, "", row);
        ParsedIsNonEmpty(s[1..], Plain, cell + [s[0]], row);
      }
    }
  }

  /** The file reads back as the table exactly when the table has a row and every row a cell. */
  lemma DocumentRoundTrip(rows: seq<seq<string>>)
    ensures ParseDocument(Document(rows)) == Some(rows) <==> NonEmptyTable(rows)
    ensures Document(rows) != [] && Document(rows)[0] == '\U{FEFF}'
  {
    assert Document(rows)[1..] == PrintRows(rows);
    ParsedIsNonEmpty(PrintRows(rows), AtStart, "", []);
    if NonEmptyTable(rows) {
      RowsRoundTrip(rows);
    }
  }

  lemma PrintingIsInjective(a: seq<seq<string>>, b: seq<seq<string>>)
    requires NonEmptyTable(a) && NonEmptyTable(b)
    ensures Document(a) == Document(b) ==> a == b
  {
    DocumentRoundTrip(a);
    DocumentRoundTrip(b);
  }

  // ---------------------------------------------------------------- the final line break

  /** A printed cell ends in a line break never: its last LF is followed by a quote. */
  lemma {:induction false} RowEnd(cells: seq<string>)
    requires cells != []
    ensures PrintRow(cells) == "" <==> cells == [""]
    ensures PrintRow(cells) != "" ==> PrintRow(cells)[|PrintRow(cells)| - 1] != LF
    decreases |cells|
  {
    if |cells| > 1 {
      RowEnd(cells[1..]);
    } else {
      assert cells == [cells[0]];
    }
  }

  lemma {:induction false} RowsEnd(rows: seq<seq<string>>)
    requires NonEmptyTable(rows)
    ensures var s := PrintRows(rows);
            && (|rows| > 1 ==> |s| >= 2)
            && (|rows| > 1 && rows[|rows| - 1] == [""] ==> s[|s| - 2..] == [CR, LF])
            && (s != "" && !(|rows| > 1 && rows[|rows| - 1] == [""]) ==> s[|s| - 1] != LF)
    decreases |rows|
  {
    RowEnd(rows[0]);
    if |rows| > 1 {
      RowsEnd(rows[1..]);
      var s, tail := PrintRows(rows), PrintRows(rows[1..]);
      RowEnd(rows[1]);
      if |rows| == 2 && rows[1] == [""] {
        assert tail == "" && s[|s| - 2..] == [CR, LF];
      } else {
        assert s[|s| - 1] == tail[|tail| - 1];
      }
    }
  }

  /**
   A reader that drops a final line break gets the table back exactly when it is not of several rows
   with a last row of one empty cell.
   */
  lemma LenientRoundTrip(rows: seq<seq<string>>)
    requires NonEmptyTable(rows)
    ensures ParseDocumentLeniently(Document(rows)) == Some(rows) <==> !(|rows| > 1 && rows[|rows| - 1] == [""])
  {
    DocumentRoundTrip(rows);
    RowsEnd(rows);
    var s, d := PrintRows(rows), Document(rows);
    if |rows| > 1 {
      assert d[|d| - 2..] == s[|s| - 2..];
      assert s[|s| - 2..][1] == s[|s| - 1];
    }
  }
}
