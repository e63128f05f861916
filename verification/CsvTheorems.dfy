/** What every preview guarantees: the parser inverts every printer that follows section 2
    of RFC 4180, and a preview that hit its row cap ignores the rest of the file. */
module CsvTheorems {
  import opened Csv

  /** How one field is printed: bare, or in quotes with perhaps more text after the closing
      quote. */
  datatype Cell = Bare(text: string) | Quoted(text: string, tail: string)

  datatype Break = LF | CRLF | CR

  /** One printed row and the line break it ends with. */
  datatype Line = Line(cells: seq<Cell>, brk: Break)

  /** Every row has a field. Text outside quotes holds no delimiter and no line break and does
      not start with a quote; quotes further on stand for themselves. */
  ghost predicate Printable(lines: seq<Line>, d: char) {
    forall l :: 0 <= l < |lines| ==> lines[l].cells != [] && PrintableCells(lines[l].cells, d)
  }

  ghost predicate PrintableCells(cells: seq<Cell>, d: char) {
    forall k :: 0 <= k < |cells| ==> PrintableCell(cells[k], d)
  }

  ghost predicate PrintableCell(c: Cell, d: char) {
    match c
    case Bare(text) => Plain(text, d) && !StartsQuoted(text)
    case Quoted(_, tail) => Plain(tail, d) && !StartsQuoted(tail)
  }

  ghost predicate Plain(v: string, d: char) {
    forall k :: 0 <= k < |v| ==> v[k] != d && !Breaks(v[k])
  }

  predicate StartsQuoted(v: string) {
    v != "" && v[0] == '"'
  }

  function Value(c: Cell): string {
    match c
    case Bare(text) => text
    case Quoted(text, tail) => text + tail
  }

  function Values(cells: seq<Cell>): Row {
    seq(|cells|, k requires 0 <= k < |cells| => Value(cells[k]))
  }

  function TableOf(lines: seq<Line>): seq<Row> {
    seq(|lines|, l requires 0 <= l < |lines| => Values(lines[l].cells))
  }

  function Doubled(v: string): string {
    if v == "" then "" else (if v[0] == '"' then ['"', '"'] else [v[0]]) + Doubled(v[1..])
  }

  function PrintField(c: Cell): string {
    match c
    case Bare(text) => text
    case Quoted(text, tail) => ['"'] + Doubled(text) + ['"'] + tail
  }

  function PrintCells(cells: seq<Cell>, d: char): string
  {
    if cells == [] then ""
    else if |cells| == 1 then PrintField(cells[0])
    else PrintField(cells[0]) + [d] + PrintCells(cells[1..], d)
  }

  function PrintBreak(b: Break): string {
    match b
    case LF => ['\n']
    case CRLF => ['\r', '\n']
    case CR => ['\r']
  }

  /** Every row with its line break. */
  function Print(lines: seq<Line>, d: char): string
  {
    if lines == [] then ""
    else PrintCells(lines[0].cells, d) + PrintBreak(lines[0].brk) + Print(lines[1..], d)
  }

  /** The same with the last line break dropped. */
  function PrintOpen(lines: seq<Line>, d: char): string
    requires lines != []
  {
    var n := |lines| - 1;
    Print(lines[..n], d) + PrintCells(lines[n].cells, d)
  }

  /** A line that prints as a lone LF, which a CR before it turns into one break. */
  predicate Vanishes(l: Line) {
    l.cells == [Bare("")] && l.brk == LF
  }

  /** The lines that can be told apart in the printed text. */
  function Kept(lines: seq<Line>, afterCR: bool): seq<Line> {
    if lines == [] then []
    else (if afterCR && Vanishes(lines[0]) then [] else [lines[0]]) + Kept(lines[1..], lines[0].brk == CR)
  }

  ghost predicate NothingVanishes(lines: seq<Line>) {
    forall k :: 0 < k < |lines| && lines[k - 1].brk == CR ==> !Vanishes(lines[k])
  }

  lemma {:induction false} KeptAll(lines: seq<Line>, afterCR: bool)
    ensures |Kept(lines, afterCR)| <= |lines|
    ensures |Kept(lines, afterCR)| == |lines|
       <==> NothingVanishes(lines) && !(lines != [] && afterCR && Vanishes(lines[0]))
    ensures |Kept(lines, afterCR)| == |lines| ==> Kept(lines, afterCR) == lines
  {
    if lines != [] {
      var rest := lines[1..];
      KeptAll(rest, lines[0].brk == CR);
      assert lines == [lines[0]] + rest;
      NothingVanishesTail(lines);
    }
  }

  lemma {:induction false} NothingVanishesTail(lines: seq<Line>)
    requires lines != []
    ensures NothingVanishes(lines)
       <==> NothingVanishes(lines[1..]) && !(|lines| > 1 && lines[0].brk == CR && Vanishes(lines[1]))
  {
    var rest := lines[1..];
    if NothingVanishes(lines) {
      forall k | 0 < k < |rest| && rest[k - 1].brk == CR ensures !Vanishes(rest[k]) {
        assert rest[k] == lines[k + 1] && rest[k - 1] == lines[k];
      }
    }
    if NothingVanishes(rest) && !(|lines| > 1 && lines[0].brk == CR && Vanishes(lines[1])) {
      forall k | 0 < k < |lines| && lines[k - 1].brk == CR ensures !Vanishes(lines[k]) {
        assert k > 1 ==> lines[k] == rest[k - 1] && lines[k - 1] == rest[k - 2];
      }
    }
  }

  // ---------- reading back what was printed ----------

  /** `piece` stands in `text` at position `i`. */
  ghost predicate Stands(piece: string, text: string, i: nat) {
    i + |piece| <= |text| && text[i..i + |piece|] == piece
  }

  lemma {:induction false} StandsParts(a: string, b: string, text: string, i: nat)
    requires Stands(a + b, text, i)
    ensures Stands(a, text, i) && Stands(b, text, i + |a|)
  {
    assert text[i..i + |a + b|][..|a|] == a;
    assert text[i..i + |a + b|][|a|..] == b;
  }

  lemma {:induction false} StandsChar(piece: string, text: string, i: nat, k: nat)
    requires Stands(piece, text, i) && k < |piece|
    ensures text[i + k] == piece[k]
  {
    assert text[i..i + |piece|][k] == piece[k];
  }

  lemma {:induction false} ReadBare(text: string, d: char, i: nat, row: Row, field: string, v: string)
    requires Plain(v, d) && (field != "" || !StartsQuoted(v)) && Stands(v, text, i)
    ensures RowsFrom(text, d, i, row, field, false) == RowsFrom(text, d, i + |v|, row, field + v, false)
    decreases |v|
  {
    if v == "" {
      assert field + v == field;
    } else {
      StandsChar(v, text, i, 0);
      assert v == [v[0]] + v[1..];
      StandsParts([v[0]], v[1..], text, i);
      ReadBare(text, d, i + 1, row, field + [v[0]], v[1..]);
      assert field + [v[0]] + v[1..] == field + v;
    }
  }

  lemma {:induction false} ReadQuotedBody(text: string, d: char, i: nat, row: Row, field: string, v: string)
    requires Stands(Doubled(v), text, i)
    ensures RowsFrom(text, d, i, row, field, true)
         == RowsFrom(text, d, i + |Doubled(v)|, row, field + v, true)
    decreases |v|
  {
    if v == "" {
      assert field + v == field;
    } else {
      var head := if v[0] == '"' then ['"', '"'] else [v[0]];
      StandsParts(head, Doubled(v[1..]), text, i);
      StandsChar(head, text, i, 0);
      if v[0] == '"' {
        StandsChar(head, text, i, 1);
      }
      ReadQuotedBody(text, d, i + |head|, row, field + [v[0]], v[1..]);
      assert field + [v[0]] + v[1..] == field + v;
    }
  }

  lemma {:induction false} QuoteOpens(text: string, d: char, i: nat, row: Row)
    requires QuoteAt(text, i)
    ensures RowsFrom(text, d, i, row, "", false) == RowsFrom(text, d, i + 1, row, "", true)
  {
  }

  lemma {:induction false} QuoteCloses(text: string, d: char, i: nat, row: Row, field: string)
    requires QuoteAt(text, i) && !QuoteAt(text, i + 1)
    ensures RowsFrom(text, d, i, row, field, true) == RowsFrom(text, d, i + 1, row, field, false)
  {
  }

  lemma {:induction false} QuotedParts(text: string, i: nat, body: string)
    requires Stands(['"'] + body + ['"'], text, i)
    ensures QuoteAt(text, i) && Stands(body, text, i + 1) && QuoteAt(text, i + 1 + |body|)
  {
    StandsParts(['"'] + body, ['"'], text, i);
    StandsParts(['"'], body, text, i);
    StandsChar(['"'], text, i, 0);
    StandsChar(['"'], text, i + 1 + |body|, 0);
  }

  lemma {:induction false} ReadQuoted(text: string, d: char, i: nat, row: Row, v: string)
    requires QuoteAt(text, i) && Stands(Doubled(v), text, i + 1)
    requires QuoteAt(text, i + 1 + |Doubled(v)|) && !QuoteAt(text, i + 2 + |Doubled(v)|)
    ensures RowsFrom(text, d, i, row, "", false) == RowsFrom(text, d, i + 2 + |Doubled(v)|, row, v, false)
  {
    hide RowsFrom;
    hide Stands;
    hide Doubled;
    QuoteOpens(text, d, i, row);
    ReadQuotedBody(text, d, i + 1, row, "", v);
    assert "" + v == v;
    QuoteCloses(text, d, i + 1 + |Doubled(v)|, row, v);
  }

  lemma {:induction false} ReadTail(text: string, d: char, i: nat, row: Row, v: string, tail: string)
    requires Plain(tail, d) && !StartsQuoted(tail)
    requires Stands(['"'] + Doubled(v) + ['"'] + tail, text, i)
    requires !QuoteAt(text, i + |Doubled(v)| + 2 + |tail|)
    ensures RowsFrom(text, d, i, row, "", false)
         == RowsFrom(text, d, i + |Doubled(v)| + 2 + |tail|, row, v + tail, false)
  {
    var quoted := ['"'] + Doubled(v) + ['"'];
    StandsParts(quoted, tail, text, i);
    QuotedParts(text, i, Doubled(v));
    if tail != "" {
      StandsChar(tail, text, i + |quoted|, 0);
    }
    hide RowsFrom, Stands, Doubled;
    ReadQuoted(text, d, i, row, v);
    ReadBare(text, d, i + |quoted|, row, v, tail);
  }

  lemma {:induction false} ReadField(text: string, d: char, i: nat, row: Row, c: Cell)
    requires PrintableCell(c, d)
    requires IsDelimiter(d) && Stands(PrintField(c), text, i) && !QuoteAt(text, i + |PrintField(c)|)
    ensures RowsFrom(text, d, i, row, "", false)
         == RowsFrom(text, d, i + |PrintField(c)|, row, Value(c), false)
  {
    hide RowsFrom, Stands, Doubled;
    match c
    case Bare(v) =>
      ReadBare(text, d, i, row, "", v);
      assert "" + v == v;
    case Quoted(v, tail) =>
      ReadTail(text, d, i, row, v, tail);
  }

  /** All fields but the last, after those of `row`. */
  function Before(row: Row, cells: seq<Cell>): Row
    requires cells != []
  {
    row + Values(cells)[..|cells| - 1]
  }

  function Last(cells: seq<Cell>): string
    requires cells != []
  {
    Value(cells[|cells| - 1])
  }

  /** Reading `cells` from `i` leaves their last value as the field in progress. */
  ghost predicate ReadsCells(text: string, d: char, i: nat, row: Row, cells: seq<Cell>)
    requires cells != []
  {
    RowsFrom(text, d, i, row, "", false)
    == RowsFrom(text, d, i + |PrintCells(cells, d)|, Before(row, cells), Last(cells), false)
  }

  lemma {:induction false} ReadDelimiter(text: string, d: char, i: nat, row: Row, field: string)
    requires IsDelimiter(d) && i < |text| && text[i] == d
    ensures RowsFrom(text, d, i, row, field, false) == RowsFrom(text, d, i + 1, row + [field], "", false)
  {
  }

  lemma {:induction false} BeforeTail(row: Row, cells: seq<Cell>)
    requires |cells| > 1
    ensures Before(row + [Value(cells[0])], cells[1..]) == Before(row, cells) && Last(cells[1..]) == Last(cells)
  {
  }

  lemma {:induction false} BeforeOne(row: Row, c: Cell, d: char)
    ensures Before(row, [c]) == row && Last([c]) == Value(c) && PrintCells([c], d) == PrintField(c)
  {
  }

  lemma {:induction false} BeforeAndLast(cells: seq<Cell>)
    requires cells != []
    ensures Before([], cells) + [Last(cells)] == Values(cells)
  {
  }

  lemma {:induction false} StandsAround(head: string, c: char, tail: string, text: string, i: nat)
    requires Stands(head + ([c] + tail), text, i)
    ensures Stands(head, text, i) && Stands(tail, text, i + |head| + 1)
    ensures i + |head| < |text| && text[i + |head|] == c
  {
    StandsParts(head, [c] + tail, text, i);
    StandsParts([c], tail, text, i + |head|);
    StandsChar([c], text, i + |head|, 0);
  }

  lemma {:induction false} PrintCellsCons(cells: seq<Cell>, d: char)
    requires |cells| > 1
    ensures var head, tail := PrintField(cells[0]), PrintCells(cells[1..], d);
      PrintCells(cells, d) == head + ([d] + tail) && |PrintCells(cells, d)| == |head| + 1 + |tail|
  {
  }

  lemma {:induction false} ReadFirstCell(text: string, d: char, i: nat, row: Row, cells: seq<Cell>)
    requires |cells| > 1 && IsDelimiter(d)
    requires PrintableCell(cells[0], d)
    requires Stands(PrintCells(cells, d), text, i)
    ensures var j := i + |PrintField(cells[0])| + 1;
      && RowsFrom(text, d, i, row, "", false) == RowsFrom(text, d, j, row + [Value(cells[0])], "", false)
      && Stands(PrintCells(cells[1..], d), text, j)
      && i + |PrintCells(cells, d)| == j + |PrintCells(cells[1..], d)|
  {
    hide *;
    var head, tail := PrintField(cells[0]), PrintCells(cells[1..], d);
    PrintCellsCons(cells, d);
    StandsAround(head, d, tail, text, i);
    DelimiterIsNoQuote(d);
    NoQuote(text, i + |head|);
    ReadField(text, d, i, row, cells[0]);
    ReadDelimiter(text, d, i + |head|, row, Value(cells[0]));
  }

  lemma {:induction false} ReadCells(text: string, d: char, i: nat, row: Row, cells: seq<Cell>)
    requires cells != [] && IsDelimiter(d)
    requires PrintableCells(cells, d)
    requires Stands(PrintCells(cells, d), text, i) && !QuoteAt(text, i + |PrintCells(cells, d)|)
    ensures ReadsCells(text, d, i, row, cells)
    decreases |cells|
  {
    hide RowsFrom, Stands, PrintCells, PrintField, PrintableCell, Before, Last, Value;
    if |cells| == 1 {
      assert cells == [cells[0]];
      BeforeOne(row, cells[0], d);
      ReadField(text, d, i, row, cells[0]);
    } else {
      ReadFirstCell(text, d, i, row, cells);
      ReadCells(text, d, i + |PrintField(cells[0])| + 1, row + [Value(cells[0])], cells[1..]);
      BeforeTail(row, cells);
    }
  }

  predicate LFAt(text: string, i: nat) {
    i < |text| && text[i] == '\n'
  }

  /** Where the text goes on after a printed break: past an LF that follows a lone CR. */
  function PastBreak(b: Break, text: string, i: nat): nat {
    if b == CR && LFAt(text, i + 1) then i + 2 else i + |PrintBreak(b)|
  }

  lemma {:induction false} ReadBreak(text: string, d: char, i: nat, row: Row, field: string, b: Break)
    requires Stands(PrintBreak(b), text, i) && IsDelimiter(d)
    ensures RowsFrom(text, d, i, row, field, false)
         == [row + [field]] + RowsFrom(text, d, PastBreak(b, text, i), [], "", false)
  {
    StandsChar(PrintBreak(b), text, i, 0);
    if b == CRLF {
      StandsChar(PrintBreak(b), text, i, 1);
    }
  }

  /** A printed line yields its row and leaves the parser after the break. */
  lemma {:induction false} ReadLine(text: string, d: char, i: nat, l: Line)
    requires l.cells != [] && PrintableCells(l.cells, d) && IsDelimiter(d)
    requires Stands(PrintCells(l.cells, d) + PrintBreak(l.brk), text, i)
    ensures RowsFrom(text, d, i, [], "", false)
         == [Values(l.cells)] + RowsFrom(text, d, PastBreak(l.brk, text, i + |PrintCells(l.cells, d)|), [], "", false)
  {
    hide *;
    var printed, brk := PrintCells(l.cells, d), PrintBreak(l.brk);
    BreakStarts(l.brk);
    StandsParts(printed, brk, text, i);
    StandsInside(brk, text, i + |printed|);
    StandsChar(brk, text, i + |printed|, 0);
    NoQuote(text, i + |printed|);
    ReadCells(text, d, i, [], l.cells);
    Reads(text, d, i, [], l.cells);
    ReadBreak(text, d, i + |printed|, Before([], l.cells), Last(l.cells), l.brk);
    BeforeAndLast(l.cells);
  }

  lemma {:induction false} BreakStarts(b: Break)
    ensures PrintBreak(b) != "" && PrintBreak(b)[0] != '"'
  {
  }

  lemma {:induction false} NoQuote(text: string, i: nat)
    requires i < |text| ==> text[i] != '"'
    ensures !QuoteAt(text, i)
  {
  }

  lemma {:induction false} TableJoin(a: seq<Line>, b: seq<Line>)
    ensures TableOf(a + b) == TableOf(a) + TableOf(b)
  {
  }

  /** A printed row starts with an LF only if it prints as nothing before one. */
  lemma {:induction false} FirstOfCells(cells: seq<Cell>, d: char)
    requires cells != [] && PrintableCells(cells, d) && IsDelimiter(d)
    ensures PrintCells(cells, d) == "" <==> cells == [Bare("")]
    ensures PrintCells(cells, d) != "" ==> PrintCells(cells, d)[0] != '\n'
  {
    hide Doubled;
    assert PrintableCell(cells[0], d);
    if |cells| == 1 && cells[0].Bare? && cells[0].text == "" {
      assert cells == [cells[0]];
    }
  }

  lemma {:induction false} FirstOfLine(l: Line, d: char)
    requires l.cells != [] && PrintableCells(l.cells, d) && IsDelimiter(d)
    ensures var printed := PrintCells(l.cells, d) + PrintBreak(l.brk);
      printed != "" && (printed[0] == '\n' <==> Vanishes(l))
  {
    FirstOfCells(l.cells, d);
    hide PrintCells;
  }

  /** Where the parser stands before `lines`: past the LF of a line that vanishes. */
  function Start(lines: seq<Line>, afterCR: bool, i: nat): nat {
    if afterCR && lines != [] && Vanishes(lines[0]) then i + 1 else i
  }

  /** No lone CR at the end of `lines`, or before them if there are none, is followed by an
      LF. */
  ghost predicate EndsClear(text: string, lines: seq<Line>, afterCR: bool, end: nat) {
    (if lines == [] then afterCR else lines[|lines| - 1].brk == CR) ==> !LFAt(text, end)
  }

  /** After a line's break the parser stands where the next line starts. */
  lemma {:induction false} NextStart(text: string, d: char, b: Break, rest: seq<Line>, i: nat)
    requires Printable(rest, d) && IsDelimiter(d)
    requires Stands(PrintBreak(b), text, i) && Stands(Print(rest, d), text, i + |PrintBreak(b)|)
    requires b == CR && rest == [] ==> !LFAt(text, i + |PrintBreak(b)| + |Print(rest, d)|)
    ensures PastBreak(b, text, i) == Start(rest, b == CR, i + |PrintBreak(b)|)
  {
    hide *;
    PastBreakIs(b, text, i);
    StartIs(rest, b == CR, i + |PrintBreak(b)|);
    if b == CR && rest != [] {
      var printed, tail := PrintCells(rest[0].cells, d) + PrintBreak(rest[0].brk), Print(rest[1..], d);
      PrintedLine(rest, d);
      StandsParts(printed, tail, text, i + 1);
      FirstOfLine(rest[0], d);
      StandsInside(printed, text, i + 1);
      StandsChar(printed, text, i + 1, 0);
      LFAtIs(text, i + 1);
    } else if rest == [] {
      PrintedNothing(d, b == CR, i);
    }
  }

  lemma {:induction false} PastBreakIs(b: Break, text: string, i: nat)
    ensures PastBreak(b, text, i) == if b == CR && LFAt(text, i + 1) then i + 2 else i + |PrintBreak(b)|
    ensures b == CR ==> |PrintBreak(b)| == 1
  {
  }

  lemma {:induction false} StartIs(lines: seq<Line>, afterCR: bool, i: nat)
    ensures Start(lines, afterCR, i) == if afterCR && lines != [] && Vanishes(lines[0]) then i + 1 else i
  {
  }

  lemma {:induction false} LFAtIs(text: string, i: nat)
    ensures LFAt(text, i) <==> i < |text| && text[i] == '\n'
  {
  }

  /** What reading one line yields: its row, unless it vanishes. */
  function Yield(l: Line, afterCR: bool): seq<Row> {
    if afterCR && Vanishes(l) then [] else [Values(l.cells)]
  }

  /** One line read, the parser stands where the next one starts. */
  lemma {:induction false} ReadNext(text: string, d: char, i: nat, lines: seq<Line>, afterCR: bool)
    requires lines != [] && Printable(lines, d) && IsDelimiter(d)
    requires Stands(Print(lines, d), text, i) && EndsClear(text, lines, afterCR, i + |Print(lines, d)|)
    ensures var l, rest := lines[0], lines[1..];
      var next := i + |PrintCells(l.cells, d)| + |PrintBreak(l.brk)|;
      && Stands(Print(rest, d), text, next) && next + |Print(rest, d)| == i + |Print(lines, d)|
      && RowsFrom(text, d, Start(lines, afterCR, i), [], "", false)
         == Yield(l, afterCR) + RowsFrom(text, d, Start(rest, l.brk == CR, next), [], "", false)
  {
    hide *;
    var l, rest := lines[0], lines[1..];
    var cells, brk, tail := PrintCells(l.cells, d), PrintBreak(l.brk), Print(rest, d);
    PrintedLine(lines, d);
    ClearAtEnd(text, lines, afterCR, i + |Print(lines, d)|);
    StandsParts(cells + brk, tail, text, i);
    if afterCR && Vanishes(l) {
      VanishingStart(lines, i, d);
      NothingAdded(RowsFrom(text, d, i + 1, [], "", false));
    } else {
      StandsParts(cells, brk, text, i);
      ReadLine(text, d, i, l);
      NextStart(text, d, l.brk, rest, i + |cells|);
      PlainStart(lines, afterCR, i);
    }
  }

  lemma {:induction false} PrintedLine(lines: seq<Line>, d: char)
    requires lines != [] && Printable(lines, d)
    ensures var l, rest := lines[0], lines[1..];
      && Print(lines, d) == (PrintCells(l.cells, d) + PrintBreak(l.brk)) + Print(rest, d)
      && l.cells != [] && PrintableCells(l.cells, d) && Printable(rest, d)
  {
    hide PrintCells, PrintableCells;
  }

  lemma {:induction false} PrintedNothing(d: char, afterCR: bool, i: nat)
    ensures Print([], d) == "" && TableOf(Kept([], afterCR)) == [] && Start([], afterCR, i) == i
  {
  }

  lemma {:induction false} NothingAdded(rows: seq<Row>)
    ensures [] + rows == rows
  {
  }

  lemma {:induction false} ReadLines(text: string, d: char, i: nat, lines: seq<Line>, afterCR: bool)
    requires Printable(lines, d) && IsDelimiter(d)
    requires Stands(Print(lines, d), text, i) && EndsClear(text, lines, afterCR, i + |Print(lines, d)|)
    ensures RowsFrom(text, d, Start(lines, afterCR, i), [], "", false)
         == TableOf(Kept(lines, afterCR)) + RowsFrom(text, d, i + |Print(lines, d)|, [], "", false)
    decreases |lines|
  {
    hide *;
    if lines == [] {
      PrintedNothing(d, afterCR, i);
      NothingAdded(RowsFrom(text, d, i, [], "", false));
    } else {
      var l, rest, end := lines[0], lines[1..], i + |Print(lines, d)|;
      var next := i + |PrintCells(l.cells, d)| + |PrintBreak(l.brk)|;
      ReadNext(text, d, i, lines, afterCR);
      ClearAtEnd(text, lines, afterCR, end);
      KeptStep(lines, afterCR);
      PrintedLine(lines, d);
      ReadLines(text, d, next, rest, l.brk == CR);
      Associates(Yield(l, afterCR), TableOf(Kept(rest, l.brk == CR)), RowsFrom(text, d, end, [], "", false));
    }
  }

  lemma {:induction false} Associates(a: seq<Row>, b: seq<Row>, c: seq<Row>)
    ensures a + (b + c) == (a + b) + c
  {
  }

  lemma {:induction false} KeptStep(lines: seq<Line>, afterCR: bool)
    requires lines != []
    ensures TableOf(Kept(lines, afterCR))
         == Yield(lines[0], afterCR) + TableOf(Kept(lines[1..], lines[0].brk == CR))
  {
    var l, kept := lines[0], Kept(lines[1..], lines[0].brk == CR);
    TableJoin(if afterCR && Vanishes(l) then [] else [l], kept);
  }

  /** A vanishing line is its LF, which was read already. */
  lemma {:induction false} VanishingStart(lines: seq<Line>, i: nat, d: char)
    requires lines != [] && Vanishes(lines[0])
    ensures Yield(lines[0], true) == []
    ensures Start(lines, true, i) == i + 1 && Start(lines[1..], lines[0].brk == CR, i + 1) == i + 1
    ensures |PrintCells(lines[0].cells, d)| == 0 && |PrintBreak(lines[0].brk)| == 1
  {
  }

  lemma {:induction false} PlainStart(lines: seq<Line>, afterCR: bool, i: nat)
    requires lines != [] && !(afterCR && Vanishes(lines[0]))
    ensures Start(lines, afterCR, i) == i && Yield(lines[0], afterCR) == [Values(lines[0].cells)]
  {
  }

  lemma {:induction false} TableOfOne(l: Line)
    ensures TableOf([l]) == [Values(l.cells)]
  {
  }

  lemma {:induction false} ClearAtEnd(text: string, lines: seq<Line>, afterCR: bool, end: nat)
    requires lines != [] && EndsClear(text, lines, afterCR, end)
    ensures EndsClear(text, lines[1..], lines[0].brk == CR, end)
    ensures lines[0].brk == CR && lines[1..] == [] ==> !LFAt(text, end)
  {
  }

  /** Reading back what was printed gives every line that does not vanish, in any mix of
      styles and breaks and of any size. */
  lemma {:induction false} ReadPrinted(lines: seq<Line>, d: char)
    requires Printable(lines, d) && IsDelimiter(d)
    ensures Rows(Print(lines, d), d) == TableOf(Kept(lines, false))
  {
    var text := Print(lines, d);
    WholeStands(text);
    ReadLines(text, d, 0, lines, false);
    assert TableOf(Kept(lines, false)) + [] == TableOf(Kept(lines, false));
  }

  /** Printing and reading back gives the table exactly when no lone CR is followed by a line
      that prints as a lone LF. */
  lemma {:induction false} RoundTripIff(lines: seq<Line>, d: char)
    requires Printable(lines, d) && IsDelimiter(d)
    ensures Rows(Print(lines, d), d) == TableOf(lines) <==> NothingVanishes(lines)
  {
    ReadPrinted(lines, d);
    KeptAll(lines, false);
    assert |TableOf(Kept(lines, false))| == |Kept(lines, false)| && |TableOf(lines)| == |lines|;
  }

  /** A printed table within the caps comes back through the preview parser whole. */
  lemma {:induction false} PreviewRoundTrip(lines: seq<Line>, d: char, t: Table)
    requires Printable(lines, d) && IsDelimiter(d) && NothingVanishes(lines)
    requires 1 <= |lines| <= 500 && forall l :: 0 <= l < |lines| ==> |lines[l].cells| <= 50
    requires IsPreview(t, Rows(Print(lines, d), d))
    ensures [t.header] + t.rows == TableOf(lines) && !t.truncated
  {
    RoundTripIff(lines, d);
    var rows := TableOf(lines);
    assert CutAll(rows) == rows;
  }

  ghost predicate LastIsEmpty(lines: seq<Line>)
    requires lines != []
  {
    Values(lines[|lines| - 1].cells) == [""]
  }

  /** What is read without the last line break: the lines before it as ever, and the last row
      unless it is one empty field. */
  lemma {:induction false} ReadOpen(lines: seq<Line>, d: char)
    requires Printable(lines, d) && IsDelimiter(d) && lines != []
    ensures var n := |lines| - 1;
      Rows(PrintOpen(lines, d), d)
      == TableOf(Kept(lines[..n], false)) + (if LastIsEmpty(lines) then [] else [Values(lines[n].cells)])
  {
    hide *;
    var n := |lines| - 1;
    var text := PrintOpen(lines, d);
    var front, cells := lines[..n], lines[n].cells;
    var head, tail := Print(front, d), PrintCells(cells, d);
    OpenParts(lines, d);
    WholeStands(text);
    StandsParts(head, tail, text, 0);
    FirstOfCells(cells, d);
    NoLFAfter(text, front, head, tail);
    ReadLines(text, d, 0, front, false);
    StartsAtZero(text, d, front);
    ReadCells(text, d, |head|, [], cells);
    Reads(text, d, |head|, [], cells);
    LastRow(text, d, cells);
    LastIsEmptyIs(lines);
  }

  lemma {:induction false} OpenParts(lines: seq<Line>, d: char)
    requires lines != [] && Printable(lines, d)
    ensures var n := |lines| - 1;
      && PrintOpen(lines, d) == Print(lines[..n], d) + PrintCells(lines[n].cells, d)
      && Printable(lines[..n], d) && lines[n].cells != [] && PrintableCells(lines[n].cells, d)
  {
    hide Print, PrintCells, PrintableCells;
  }

  lemma {:induction false} LastIsEmptyIs(lines: seq<Line>)
    requires lines != []
    ensures LastIsEmpty(lines) <==> Values(lines[|lines| - 1].cells) == [""]
  {
  }

  lemma {:induction false} StartsAtZero(text: string, d: char, lines: seq<Line>)
    ensures Rows(text, d) == RowsFrom(text, d, Start(lines, false, 0), [], "", false)
  {
    hide RowsFrom;
  }

  lemma {:induction false} WholeStands(text: string)
    ensures Stands(text, text, 0)
  {
  }

  /** Nothing is left open where the last row starts or, if it prints as nothing, at the end
      of the text. */
  lemma {:induction false} NoLFAfter(text: string, front: seq<Line>, head: string, tail: string)
    requires text == head + tail && (tail != "" ==> tail[0] != '\n')
    ensures EndsClear(text, front, false, 0 + |head|)
    ensures !QuoteAt(text, |head| + |tail|) && |text| == |head| + |tail|
  {
  }

  /** Without the last line break the table survives exactly when its last row is not one
      empty field and nothing before it vanishes. */
  lemma {:induction false} OpenRoundTrip(lines: seq<Line>, d: char)
    requires Printable(lines, d) && IsDelimiter(d) && lines != []
    ensures Rows(PrintOpen(lines, d), d) == TableOf(lines)
       <==> !LastIsEmpty(lines) && NothingVanishes(lines[..|lines| - 1])
  {
    hide *;
    var n := |lines| - 1;
    var front, row := lines[..n], Values(lines[n].cells);
    var kept := Kept(front, false);
    ReadOpen(lines, d);
    KeptAll(front, false);
    LastSplits(lines);
    TableSize(kept);
    TableSize(front);
    if Rows(PrintOpen(lines, d), d) == TableOf(lines) {
      assert |TableOf(lines)| == n + 1;
    }
  }

  lemma {:induction false} LastSplits(lines: seq<Line>)
    requires lines != []
    ensures var n := |lines| - 1;
      TableOf(lines) == TableOf(lines[..n]) + [Values(lines[n].cells)]
  {
    var n := |lines| - 1;
    assert lines == lines[..n] + [lines[n]];
    TableJoin(lines[..n], [lines[n]]);
    TableOfOne(lines[n]);
  }

  lemma {:induction false} TableSize(lines: seq<Line>)
    ensures |TableOf(lines)| == |lines|
  {
  }

  /** A table of two rows whose last is an empty field; without the last line break it is
      printed as `a`, a line break, and two quotes. */
  function EmptyLastRow(): seq<Line> {
    [Line([Bare("a")], LF), Line([Quoted("", "")], LF)]
  }

  lemma {:induction false} EmptyLastRowIsLost()
    ensures var lines := EmptyLastRow();
      && Printable(lines, ',') && TableOf(lines) == [["a"], [""]]
      && Rows(PrintOpen(lines, ','), ',') == [["a"]]
  {
    var lines := EmptyLastRow();
    hide Rows, PrintOpen;
    assert Values(lines[0].cells) == ["a"] && Values(lines[1].cells) == [""];
    assert Kept(lines[..1], false) == [lines[0]];
    ReadOpen(lines, ',');
  }

  /** At the end of the text the row in progress is kept unless it is one empty field. */
  lemma {:induction false} LastRow(text: string, d: char, cells: seq<Cell>)
    requires cells != []
    ensures RowsFrom(text, d, |text|, Before([], cells), Last(cells), false)
         == if Values(cells) == [""] then [] else [Values(cells)]
  {
    BeforeAndLast(cells);
    assert Values(cells) == [""] <==> Last(cells) == "" && Before([], cells) == [];
  }

  // ---------- a quote that is never closed ----------

  /** The fields before the one in progress, each with its delimiter. */
  function Lead(cells: seq<Cell>, d: char): string {
    if cells == [] then "" else PrintCells(cells, d) + [d]
  }

  lemma {:induction false} ReadLead(text: string, d: char, i: nat, cells: seq<Cell>)
    requires PrintableCells(cells, d) && IsDelimiter(d) && Stands(Lead(cells, d), text, i)
    ensures RowsFrom(text, d, i, [], "", false) == RowsFrom(text, d, i + |Lead(cells, d)|, Values(cells), "", false)
  {
    hide *;
    LeadIs(cells, d);
    if cells != [] {
      ReadFullLead(text, d, i, cells);
    }
    ValuesEmpty(cells);
  }

  lemma {:induction false} LeadIs(cells: seq<Cell>, d: char)
    ensures cells == [] ==> Lead(cells, d) == ""
    ensures cells != [] ==>
      Lead(cells, d) == PrintCells(cells, d) + [d] && |Lead(cells, d)| == |PrintCells(cells, d)| + 1
  {
    hide PrintCells;
  }

  lemma {:induction false} ReadFullLead(text: string, d: char, i: nat, cells: seq<Cell>)
    requires cells != [] && PrintableCells(cells, d) && IsDelimiter(d)
    requires Stands(PrintCells(cells, d) + [d], text, i)
    ensures RowsFrom(text, d, i, [], "", false)
         == RowsFrom(text, d, i + |PrintCells(cells, d)| + 1, Values(cells), "", false)
  {
    hide *;
    var printed := PrintCells(cells, d);
    StandsParts(printed, [d], text, i);
    StandsChar([d], text, i + |printed|, 0);
    DelimiterIsNoQuote(d);
    NoQuote(text, i + |printed|);
    ReadCells(text, d, i, [], cells);
    Reads(text, d, i, [], cells);
    StandsInside([d], text, i + |printed|);
    ReadDelimiter(text, d, i + |printed|, Before([], cells), Last(cells));
    BeforeAndLast(cells);
  }

  lemma {:induction false} DelimiterIsNoQuote(d: char)
    requires IsDelimiter(d)
    ensures d != '"'
  {
  }

  lemma {:induction false} StandsInside(piece: string, text: string, i: nat)
    requires Stands(piece, text, i)
    ensures i + |piece| <= |text|
  {
  }

  lemma {:induction false} Reads(text: string, d: char, i: nat, row: Row, cells: seq<Cell>)
    requires cells != [] && ReadsCells(text, d, i, row, cells)
    ensures RowsFrom(text, d, i, row, "", false)
         == RowsFrom(text, d, i + |PrintCells(cells, d)|, Before(row, cells), Last(cells), false)
  {
    hide RowsFrom, PrintCells, Before, Last;
  }

  /** Inside quotes the rest of the text is one field: delimiters, breaks and doubled quotes
      stand for themselves, and the field counts although its quote is never closed. */
  lemma {:induction false} UnclosedQuote(cells: seq<Cell>, v: string, d: char)
    requires PrintableCells(cells, d) && IsDelimiter(d)
    ensures Rows(Lead(cells, d) + (['"'] + Doubled(v)), d)
         == if cells == [] && v == "" then [] else [Values(cells) + [v]]
  {
    hide *;
    var head, body := Lead(cells, d), Doubled(v);
    var text := head + (['"'] + body);
    WholeStands(text);
    StandsAround(head, '"', body, text, 0);
    StandsParts(head, ['"'] + body, text, 0);
    OpensQuote(text, |head|);
    StartsAtZero(text, d, []);
    NothingFirst(0);
    ReadLead(text, d, 0, cells);
    QuoteOpens(text, d, |head|, Values(cells));
    ReadQuotedBody(text, d, |head| + 1, Values(cells), "", v);
    NothingBefore(v);
    AtEnd(text, d, Values(cells), v);
    ValuesEmpty(cells);
  }

  lemma {:induction false} OpensQuote(text: string, i: nat)
    requires i < |text| && text[i] == '"'
    ensures QuoteAt(text, i)
  {
  }

  lemma {:induction false} NothingFirst(i: nat)
    ensures Start([], false, i) == i
  {
  }

  lemma {:induction false} ValuesEmpty(cells: seq<Cell>)
    ensures Values(cells) == [] <==> cells == []
  {
  }

  lemma {:induction false} NothingBefore(v: string)
    ensures "" + v == v
  {
  }

  lemma {:induction false} AtEnd(text: string, d: char, row: Row, field: string)
    ensures RowsFrom(text, d, |text|, row, field, true)
         == if field == "" && row == [] then [] else [row + [field]]
  {
  }

  // ---------- stability of a capped preview ----------

  lemma {:induction false} PendingRowAppears(text: string, d: char, i: nat, row: Row, field: string, inQuotes: bool)
    requires field != "" || row != []
    ensures |RowsFrom(text, d, i, row, field, inQuotes)| >= 1
    decreases |text| - i
  {
    if i < |text| {
      if inQuotes {
        if text[i] != '"' {
          PendingRowAppears(text, d, i + 1, row, field + [text[i]], true);
        } else if QuoteAt(text, i + 1) {
          PendingRowAppears(text, d, i + 2, row, field + ['"'], true);
        } else {
          PendingRowAppears(text, d, i + 1, row, field, false);
        }
      } else if text[i] == '"' && field == "" {
        PendingRowAppears(text, d, i + 1, row, field, true);
      } else if text[i] == d {
        PendingRowAppears(text, d, i + 1, row + [field], "", false);
      } else if !Breaks(text[i]) {
        PendingRowAppears(text, d, i + 1, row, field + [text[i]], false);
      }
    }
  }

  /** More text can only change the last row that was read, or add rows after it. */
  ghost predicate Extends(more: seq<Row>, rows: seq<Row>) {
    rows == [] || (|more| >= |rows| && more[..|rows| - 1] == rows[..|rows| - 1])
  }

  lemma {:induction false} MoreTextExtends(
      p: string, s: string, d: char, i: nat, row: Row, field: string, inQuotes: bool)
    requires i <= |p|
    ensures Extends(RowsFrom(p + s, d, i, row, field, inQuotes), RowsFrom(p, d, i, row, field, inQuotes))
    decreases |p| - i
  {
    var text := p + s;
    if i == |p| {
      if field != "" || row != [] {
        PendingRowAppears(text, d, i, row, field, inQuotes);
      }
    } else if inQuotes {
      if p[i] != '"' {
        MoreTextExtends(p, s, d, i + 1, row, field + [p[i]], true);
      } else if QuoteAt(p, i + 1) {
        MoreTextExtends(p, s, d, i + 2, row, field + ['"'], true);
      } else if QuoteAt(text, i + 1) {
        PendingRowAppears(text, d, i + 2, row, field + ['"'], true);
      } else {
        MoreTextExtends(p, s, d, i + 1, row, field, false);
      }
    } else if p[i] == '"' && field == "" {
      MoreTextExtends(p, s, d, i + 1, row, field, true);
    } else if p[i] == d {
      MoreTextExtends(p, s, d, i + 1, row + [field], "", false);
    } else if Breaks(p[i]) {
      if i + 1 < |p| {
        MoreTextExtends(p, s, d, AfterBreak(p, i), [], "", false);
      }
    } else {
      MoreTextExtends(p, s, d, i + 1, row, field + [p[i]], false);
    }
  }

  /** Once a prefix has more rows than the cap, no continuation changes the preview. */
  lemma {:induction false} CappedPreviewIsStable(p: string, s: string, d: char, t: Table)
    requires |Rows(p, d)| > 500 && IsPreview(t, Rows(p, d))
    ensures IsPreview(t, Rows(p + s, d))
  {
    var rows, more := Rows(p, d), Rows(p + s, d);
    MoreTextExtends(p, s, d, 0, [], "", false);
    assert rows[..|rows| - 1][..500] == rows[..500];
    assert more[..|rows| - 1][..500] == more[..500];
  }

  /** The preview of a text is unique. */
  lemma {:induction false} PreviewIsUnique(t: Table, u: Table, rows: seq<Row>)
    requires IsPreview(t, rows) && IsPreview(u, rows)
    ensures t == u
  {
    if rows != [] {
      assert ([t.header] + t.rows)[1..] == t.rows && ([u.header] + u.rows)[1..] == u.rows;
      assert ([t.header] + t.rows)[0] == ([u.header] + u.rows)[0];
    }
  }
}
