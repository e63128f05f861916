/** The capped CSV/TSV preview parser, its uncapped meaning, and the printers it inverts. */
module Csv {
  const MAX_ROWS := 500
  const MAX_COLS := 50

  type Row = seq<string>

  datatype Table = Table(header: Row, rows: seq<Row>, truncated: bool)

  ghost predicate IsDelimiter(d: char) {
    d == ',' || d == '\t'
  }

  predicate Breaks(ch: char) {
    ch == '\n' || ch == '\r'
  }

  predicate QuoteAt(text: string, i: nat) {
    i < |text| && text[i] == '"'
  }

  /** The index after a row break: CRLF is one break. */
  function AfterBreak(text: string, i: nat): nat
    requires i < |text|
  {
    if text[i] == '\r' && i + 1 < |text| && text[i + 1] == '\n' then i + 2 else i + 1
  }

  // ---------- the uncapped meaning of a text ----------

  /** The rows a parser without caps reads from position `i`, given the row and field it is
      in the middle of. */
  function RowsFrom(text: string, d: char, i: nat, row: Row, field: string, inQuotes: bool): seq<Row>
    decreases |text| - i
  {
    if i >= |text| then
      if field != "" || row != [] then [row + [field]] else []
    else if inQuotes then
      if text[i] != '"' then RowsFrom(text, d, i + 1, row, field + [text[i]], true)
      else if QuoteAt(text, i + 1) then RowsFrom(text, d, i + 2, row, field + ['"'], true)
      else RowsFrom(text, d, i + 1, row, field, false)
    else if text[i] == '"' && field == "" then RowsFrom(text, d, i + 1, row, field, true)
    else if text[i] == d then RowsFrom(text, d, i + 1, row + [field], "", false)
    else if Breaks(text[i]) then
      [row + [field]] + RowsFrom(text, d, AfterBreak(text, i), [], "", false)
    else RowsFrom(text, d, i + 1, row, field + [text[i]], false)
  }

  function Rows(text: string, d: char): seq<Row> {
    RowsFrom(text, d, 0, [], "", false)
  }

  function Cut(row: Row): Row {
    if |row| > 50 then row[..50] else row
  }

  function CutAll(rows: seq<Row>): seq<Row> {
    seq(|rows|, i requires 0 <= i < |rows| => Cut(rows[i]))
  }

  ghost predicate Wide(rows: seq<Row>) {
    exists i :: 0 <= i < |rows| && |rows[i]| > 50
  }

  /** The preview of a table: at most 500 rows of at most 50 fields, and whether anything
      was left out. */
  ghost predicate IsPreview(t: Table, rows: seq<Row>) {
    var kept := CutAll(if |rows| > 500 then rows[..500] else rows);
    && (if kept == [] then t.header == [] && t.rows == [] else [t.header] + t.rows == kept)
    && (t.truncated <==> |rows| > 500 || Wide(rows))
  }

  // ---------- the parser ----------

  function Finish(rows: seq<Row>, truncated: bool): Table {
    if rows == [] then Table([], [], truncated) else Table(rows[0], rows[1..], truncated)
  }

  /** Appends the field unless the row is full, and reports whether it was dropped. */
  function PushField(row: Row, field: string): (Row, bool) {
    if |row| < MAX_COLS then (row + [field], false) else (row, true)
  }

  /** The state of the capped parser after it has read the complete rows `done` and the
      fields `partial` of the next one. */
  ghost predicate Tracks(rows: seq<Row>, row: Row, truncated: bool, done: seq<Row>, partial: Row) {
    && |done| <= MAX_ROWS
    && rows == CutAll(done)
    && row == Cut(partial)
    && (truncated <==> Wide(done) || |partial| > MAX_COLS)
  }

  lemma {:induction false} FieldPushed(
      rows: seq<Row>, row: Row, truncated: bool, done: seq<Row>, partial: Row, field: string)
    requires Tracks(rows, row, truncated, done, partial)
    ensures var (row', dropped) := PushField(row, field);
            Tracks(rows, row', truncated || dropped, done, partial + [field])
  {
  }

  lemma {:induction false} RowPushed(rows: seq<Row>, row: Row, truncated: bool, done: seq<Row>, partial: Row)
    requires Tracks(rows, row, truncated, done, partial)
    ensures rows + [row] == CutAll(done + [partial])
    ensures truncated <==> Wide(done + [partial])
    ensures |done| < MAX_ROWS ==> Tracks(rows + [row], [], truncated, done + [partial], [])
  {
    var all := done + [partial];
    assert forall i :: 0 <= i < |done| ==> all[i] == done[i];
    assert all[|done|] == partial;
  }

  /** Ends the row with `field`. Past the row cap the new row is dropped and parsing stops. */
  function PushRow(rows: seq<Row>, row: Row, truncated: bool, field: string): (seq<Row>, bool, bool) {
    var (row', dropped) := PushField(row, field);
    if |rows| + 1 > MAX_ROWS then ((rows + [row'])[..MAX_ROWS], true, true)
    else (rows + [row'], truncated || dropped, false)
  }

  /** Ending a row either hits the cap, and then the preview is known whatever the `rest`
      of the file holds, or leaves the parser at the start of the next row. */
  lemma {:induction false} RowStep(
      rows: seq<Row>, row: Row, truncated: bool, done: seq<Row>, partial: Row, field: string,
      rest: seq<Row>, all: seq<Row>)
    requires Tracks(rows, row, truncated, done, partial)
    requires all == done + ([partial + [field]] + rest)
    ensures var (rows', truncated', full) := PushRow(rows, row, truncated, field);
      && (full ==> IsPreview(Finish(rows', truncated'), all))
      && (!full ==> Tracks(rows', [], truncated', done + [partial + [field]], []))
    ensures all == done + [partial + [field]] + rest
  {
    var (row', dropped) := PushField(row, field);
    FieldPushed(rows, row, truncated, done, partial, field);
    if |done| == MAX_ROWS {
      assert all[..MAX_ROWS] == done;
      assert (rows + [row'])[..MAX_ROWS] == rows;
    } else {
      RowPushed(rows, row', truncated || dropped, done, partial + [field]);
    }
  }

  lemma {:induction false} NoRowLeft(rows: seq<Row>, truncated: bool, done: seq<Row>)
    requires Tracks(rows, [], truncated, done, [])
    ensures IsPreview(Finish(rows, truncated), done)
  {
  }

  method ParseCsv(text: string, d: char) returns (t: Table)
    ensures IsPreview(t, Rows(text, d))
  {
    var rows: seq<Row> := [];
    var row: Row := [];
    var field := "";
    var inQuotes := false;
    var truncated := false;
    ghost var all := Rows(text, d);
    ghost var done: seq<Row> := [];
    ghost var partial: Row := [];
    var i := 0;
    while i < |text|
      invariant 0 <= i <= |text|
      invariant Tracks(rows, row, truncated, done, partial)
      invariant all == done + RowsFrom(text, d, i, partial, field, inQuotes)
    {
      var ch := text[i];
      if inQuotes {
        if ch == '"' {
          if i + 1 < |text| && text[i + 1] == '"' {
            field := field + ['"'];
            i := i + 1;
          } else {
            inQuotes := false;
          }
        } else {
          field := field + [ch];
        }
      } else if ch == '"' && field == "" {
        inQuotes := true;
      } else if ch == d {
        FieldPushed(rows, row, truncated, done, partial, field);
        var (row', dropped) := PushField(row, field);
        partial := partial + [field];
        row, truncated, field := row', truncated || dropped, "";
      } else if ch == '\n' || ch == '\r' {
        if ch == '\r' && i + 1 < |text| && text[i + 1] == '\n' {
          i := i + 1;
        }
        RowStep(rows, row, truncated, done, partial, field, RowsFrom(text, d, i + 1, [], "", false), all);
        var (rows', truncated', full) := PushRow(rows, row, truncated, field);
        if full {
          return Finish(rows', truncated');
        }
        done, partial := done + [partial + [field]], [];
        rows, row, truncated, field := rows', [], truncated', "";
      } else {
        field := field + [ch];
      }
      i := i + 1;
    }
    if field != "" || |row| > 0 {
      RowStep(rows, row, truncated, done, partial, field, [], all);
      var (rows', truncated', full) := PushRow(rows, row, truncated, field);
      if !full {
        NoRowLeft(rows', truncated', done + [partial + [field]]);
      }
      return Finish(rows', truncated');
    }
    assert all == done;
    NoRowLeft(rows, truncated, done);
    return Finish(rows, truncated);
  }
}
