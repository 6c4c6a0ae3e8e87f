/** The CSV writer (frontend/src/lib/export.ts) and the CSV reader (frontend/src/lib/csv.ts),
    and the proof that the reader undoes the writer - and every other rendering that RFC 4180
    section 2 allows. */
module Csv {
  import opened Sequences

  /** The byte-order mark, as the one code point a decoded text starts with. */
  const BOM: char := '\U{FEFF}'

  // ---- the reader -----------------------------------------------------------------

  /** The white space and line terminators that JavaScript's String.prototype.trim removes. */
  predicate IsWhitespace(c: char) {
    || '\t' <= c <= '\r' || c == ' ' || c == '\U{A0}' || c == '\U{1680}'
    || '\U{2000}' <= c <= '\U{200A}'
    || c == '\U{2028}' || c == '\U{2029}' || c == '\U{202F}' || c == '\U{205F}' || c == '\U{3000}' || c == '\U{FEFF}'
  }

  function TrimStart(s: string): string {
    if s != "" && IsWhitespace(s[0]) then TrimStart(s[1..]) else s
  }

  function TrimEnd(s: string): string {
    if s != "" && IsWhitespace(s[|s| - 1]) then TrimEnd(s[..|s| - 1]) else s
  }

  function Trim(s: string): string {
    TrimEnd(TrimStart(s))
  }

  predicate AllWhitespace(s: string) {
    forall c | c in s :: IsWhitespace(c)
  }

  /** The WhiteSpace and LineTerminator characters of sections 12.2 and 12.3 of ECMA-262, one by
      one: tab, line feed, vertical tab, form feed, carriage return, the Unicode space separators,
      the line and paragraph separators, and the mark. */
  lemma WhitespaceIs(c: char)
    ensures IsWhitespace(c) <==>
            c as int in {0x9, 0xA, 0xB, 0xC, 0xD, 0x20, 0xA0, 0x1680, 0x2000, 0x2001, 0x2002, 0x2003, 0x2004, 0x2005,
                         0x2006, 0x2007, 0x2008, 0x2009, 0x200A, 0x2028, 0x2029, 0x202F, 0x205F, 0x3000, 0xFEFF}
  {
  }

  /** Trimming removes exactly the white space at both ends. */
  lemma {:induction false} TrimStripsBothEnds(s: string) returns (before: string, after: string)
    ensures s == before + Trim(s) + after
    ensures AllWhitespace(before) && AllWhitespace(after)
    ensures Trim(s) != "" ==> !IsWhitespace(Trim(s)[0]) && !IsWhitespace(Trim(s)[|Trim(s)| - 1])
  {
    before := TrimStartStrips(s);
    after := TrimEndStrips(TrimStart(s));
  }

  lemma {:induction false} TrimStartStrips(s: string) returns (before: string)
    ensures s == before + TrimStart(s) && AllWhitespace(before)
    ensures TrimStart(s) != "" ==> !IsWhitespace(TrimStart(s)[0])
  {
    if s != "" && IsWhitespace(s[0]) {
      var more := TrimStartStrips(s[1..]);
      before := [s[0]] + more;
    } else {
      before := "";
    }
  }

  lemma {:induction false} TrimEndStrips(s: string) returns (after: string)
    ensures s == TrimEnd(s) + after && AllWhitespace(after)
    ensures TrimEnd(s) != "" ==> TrimEnd(s)[0] == s[0] && !IsWhitespace(TrimEnd(s)[|TrimEnd(s)| - 1])
  {
    if s != "" && IsWhitespace(s[|s| - 1]) {
      var rest, last := s[..|s| - 1], [s[|s| - 1]];
      var more := TrimEndStrips(rest);
      after := more + last;
      assert TrimEnd(s) == TrimEnd(rest);
      assert s == rest + last;
      Assoc(TrimEnd(rest), more, last);
    } else {
      after := "";
    }
  }

  predicate HasText(row: seq<string>) {
    exists cell | cell in row :: |Trim(cell)| > 0
  }

  /** The rows with at least one cell that is not blank. */
  function NonBlank(rows: seq<seq<string>>): seq<seq<string>> {
    Filter(HasText, rows)
  }

  /** Some cell of the row holds a character that is not white space. */
  predicate ShowsText(row: seq<string>) {
    exists i, j :: 0 <= i < |row| && 0 <= j < |row[i]| && !IsWhitespace(row[i][j])
  }

  lemma {:induction false} TrimIsEmptyIff(s: string)
    ensures Trim(s) == "" <==> AllWhitespace(s)
  {
    var before, after := TrimStripsBothEnds(s);
    if Trim(s) == "" {
      assert s == before + after;
    } else {
      assert s[|before|] == Trim(s)[0];
    }
  }

  /** The filter keeps a row exactly when one of its characters is not white space: one empty cell,
      or all but one, do not make a row blank. */
  lemma HasTextIff(row: seq<string>)
    ensures HasText(row) <==> ShowsText(row)
  {
    forall cell | cell in row
      ensures Trim(cell) == "" <==> AllWhitespace(cell)
    {
      TrimIsEmptyIff(cell);
    }
    if cell :| cell in row && |Trim(cell)| > 0 {
      var i :| 0 <= i < |row| && row[i] == cell;
      var c :| c in cell && !IsWhitespace(c);
      var j :| 0 <= j < |cell| && cell[j] == c;
      assert !IsWhitespace(row[i][j]);
    }
    if i, j :| 0 <= i < |row| && 0 <= j < |row[i]| && !IsWhitespace(row[i][j]) {
      assert row[i] in row && row[i][j] in row[i];
    }
  }

  lemma {:induction false} NonBlankShowsText(rows: seq<seq<string>>)
    ensures NonBlank(rows) == Filter(ShowsText, rows)
  {
    if rows != [] {
      HasTextIff(rows[0]);
      NonBlankShowsText(rows[1..]);
    }
  }

  function StripBom(text: string): string {
    if text != "" && text[0] == BOM then text[1..] else text
  }

  /** The local variables of parseCsv. */
  datatype Scanner = Scanner(rows: seq<seq<string>>, row: seq<string>, field: string, inQuotes: bool)
  {
    function EndCell(): Scanner { this.(row := row + [field], field := "") }

    function EndRow(): Scanner { Scanner(rows + [row + [field]], [], "", inQuotes) }

    function Finish(): seq<seq<string>> {
      if field != "" || row != [] then rows + [row + [field]] else rows
    }
  }

  const START := Scanner([], [], "", false)

  predicate StartsWith(text: string, c: char) {
    text != "" && text[0] == c
  }

  /** The next two characters are read as one: a doubled quote, or CR LF. */
  predicate TakesTwo(text: string, inQuotes: bool)
    requires text != ""
  {
    StartsWith(text[1..], if inQuotes then '"' else '\n') && text[0] == (if inQuotes then '"' else '\r')
  }

  /** The local variables after the character at the front of the text. */
  function Step(text: string, st: Scanner): Scanner
    requires text != ""
  {
    var c := text[0];
    if st.inQuotes then
      if c == '"' && !TakesTwo(text, true) then st.(inQuotes := false) else st.(field := st.field + [c])
    else if c == '"' then st.(inQuotes := true)
    else if c == ',' then st.EndCell()
    else if c == '\n' || c == '\r' then st.EndRow()
    else st.(field := st.field + [c])
  }

  /** What scanning the rest of a text makes of the local variables. */
  function Scan(text: string, st: Scanner): Scanner
    decreases |text|
  {
    if text == "" then st
    else Scan(text[if TakesTwo(text, st.inQuotes) then 2 else 1..], Step(text, st))
  }

  function ParsedCsv(text: string): seq<seq<string>> {
    NonBlank(Scan(StripBom(text), START).Finish())
  }

  /** One turn of the scan at an index. */
  lemma ScanAt(source: string, index: nat, st: Scanner)
    requires index < |source|
    ensures var text := source[index..];
            && text[0] == source[index]
            && (TakesTwo(text, st.inQuotes) <==>
                  && index + 1 < |source| && source[index] == (if st.inQuotes then '"' else '\r')
                  && source[index + 1] == (if st.inQuotes then '"' else '\n'))
            && Scan(text, st)
               == Scan(source[if TakesTwo(text, st.inQuotes) then index + 2 else index + 1..], Step(text, st))
  {
    assert source[index..][1..] == source[index + 1..];
    assert index + 1 < |source| ==> source[index..][2..] == source[index + 2..];
  }

  /** parseCsv: one pass with an index, a current row, a current field and a quote flag. */
  method ParseCsv(text: string) returns (result: seq<seq<string>>)
    ensures result == ParsedCsv(text)
  {
    var rows: seq<seq<string>> := [];
    var row: seq<string> := [];
    var field := "";
    var inQuotes := false;
    var source := StripBom(text);

    var index := 0;
    while index < |source|
      invariant 0 <= index <= |source|
      invariant Scan(source, START) == Scan(source[index..], Scanner(rows, row, field, inQuotes))
    {
      ghost var text, st, at := source[index..], Scanner(rows, row, field, inQuotes), index;
      ScanAt(source, index, st);
      var c := source[index];
      if inQuotes {
        if c == '"' {
          if index + 1 < |source| && source[index + 1] == '"' {
            field := field + "\"";
            index := index + 1;
          } else {
            inQuotes := false;
          }
        } else {
          field := field + [c];
        }
      } else if c == '"' {
        inQuotes := true;
      } else if c == ',' {
        row := row + [field];
        field := "";
      } else if c == '\n' || c == '\r' {
        if c == '\r' && index + 1 < |source| && source[index + 1] == '\n' {
          index := index + 1;
        }
        row := row + [field];
        rows := rows + [row];
        row := [];
        field := "";
      } else {
        field := field + [c];
      }
      index := index + 1;
      assert Scanner(rows, row, field, inQuotes) == Step(text, st);
      assert index == if TakesTwo(text, st.inQuotes) then at + 2 else at + 1;
    }
    assert source[index..] == "";

    if |field| > 0 || |row| > 0 {
      row := row + [field];
      rows := rows + [row];
    }
    result := NonBlank(rows);
  }

  // ---- the writer -----------------------------------------------------------------

  datatype ExportColumn<!T> = ExportColumn(header: string, value: T -> string)

  predicate NeedsQuotes(cell: string) {
    '"' in cell || ',' in cell || '\n' in cell || '\r' in cell
  }

  function DoubleQuotes(cell: string): string {
    if cell == "" then ""
    else (if cell[0] == '"' then "\"\"" else [cell[0]]) + DoubleQuotes(cell[1..])
  }

  function Quoted(cell: string): string {
    "\"" + DoubleQuotes(cell) + "\""
  }

  function EscapeCsvCell(cell: string): string {
    if NeedsQuotes(cell) then Quoted(cell) else cell
  }

  function Join(parts: seq<string>, separator: string): string {
    if parts == [] then ""
    else if |parts| == 1 then parts[0]
    else parts[0] + separator + Join(parts[1..], separator)
  }

  function Headers<T>(columns: seq<ExportColumn<T>>): seq<string> {
    Map((column: ExportColumn<T>) => column.header, columns)
  }

  function Cells<T>(row: T, columns: seq<ExportColumn<T>>): seq<string> {
    Map((column: ExportColumn<T>) => column.value(row), columns)
  }

  function CsvLine(cells: seq<string>): string {
    Join(Map(EscapeCsvCell, cells), ",")
  }

  function ToCsv<T>(rows: seq<T>, columns: seq<ExportColumn<T>>): string {
    CsvLine(Headers(columns)) + "\r\n" + Join(Map((row: T) => CsvLine(Cells(row, columns)), rows), "\r\n")
  }

  /** The content of the file that exportCsv saves. */
  function ExportCsv<T>(rows: seq<T>, columns: seq<ExportColumn<T>>): string {
    [BOM] + ToCsv(rows, columns)
  }

  // ---- every rendering RFC 4180 section 2 allows ------------------------------------

  datatype LineBreak = Lf | Cr | CrLf
  {
    function Text(): string {
      match this
      case Lf => "\n"
      case Cr => "\r"
      case CrLf => "\r\n"
    }
  }

  /** A cell and whether its writer chose to quote it although it need not be. */
  datatype Cell = Cell(text: string, quoted: bool)
  {
    function Rendered(): string {
      if quoted then Quoted(text) else EscapeCsvCell(text)
    }
  }

  datatype Line = Line(cells: seq<Cell>, lineBreak: LineBreak)

  function Texts(cells: seq<Cell>): (texts: seq<string>)
    ensures |texts| == |cells| && forall i :: 0 <= i < |cells| ==> texts[i] == cells[i].text
  {
    seq(|cells|, i requires 0 <= i < |cells| => cells[i].text)
  }

  function RenderCells(cells: seq<Cell>): string {
    if cells == [] then ""
    else if |cells| == 1 then cells[0].Rendered()
    else cells[0].Rendered() + "," + RenderCells(cells[1..])
  }

  /** Lines with their breaks, then a last record whose line break is left out. */
  function Render(lines: seq<Line>, last: seq<Cell>): string {
    if lines == [] then RenderCells(last)
    else RenderCells(lines[0].cells) + lines[0].lineBreak.Text() + Render(lines[1..], last)
  }

  function RowsOf(lines: seq<Line>, last: seq<Cell>): seq<seq<string>> {
    if lines == [] then [Texts(last)] else [Texts(lines[0].cells)] + RowsOf(lines[1..], last)
  }

  // ---- scanning a rendering ------------------------------------------------------------

  /** A character that stands for itself outside quotes. */
  predicate Ordinary(c: char) {
    c != '"' && c != ',' && c != '\n' && c != '\r'
  }

  lemma ScanOrdinary(c: char, rest: string, st: Scanner)
    requires !st.inQuotes && Ordinary(c)
    ensures Scan([c] + rest, st) == Scan(rest, st.(field := st.field + [c]))
  {
    assert ([c] + rest)[1..] == rest;
  }

  lemma ScanOpeningQuote(rest: string, st: Scanner)
    requires !st.inQuotes
    ensures Scan("\"" + rest, st) == Scan(rest, st.(inQuotes := true))
  {
    assert ("\"" + rest)[1..] == rest;
  }

  lemma ScanComma(rest: string, st: Scanner)
    requires !st.inQuotes
    ensures Scan("," + rest, st) == Scan(rest, st.EndCell())
  {
    assert ("," + rest)[1..] == rest;
  }

  /** Inside quotes, a character or a doubled quote is one character of the cell. */
  lemma ScanQuoted(c: char, rest: string, st: Scanner)
    requires st.inQuotes
    ensures Scan((if c == '"' then "\"\"" else [c]) + rest, st) == Scan(rest, st.(field := st.field + [c]))
  {
    if c == '"' {
      assert ("\"\"" + rest)[2..] == rest;
    } else {
      assert ([c] + rest)[1..] == rest;
    }
  }

  lemma ScanClosingQuote(rest: string, st: Scanner)
    requires st.inQuotes && !StartsWith(rest, '"')
    ensures Scan("\"" + rest, st) == Scan(rest, st.(inQuotes := false))
  {
    assert ("\"" + rest)[1..] == rest;
  }

  lemma ScanLf(rest: string, st: Scanner)
    requires !st.inQuotes
    ensures Scan("\n" + rest, st) == Scan(rest, st.EndRow())
  {
    assert ("\n" + rest)[1..] == rest;
  }

  lemma ScanCr(rest: string, st: Scanner)
    requires !st.inQuotes && !StartsWith(rest, '\n')
    ensures Scan("\r" + rest, st) == Scan(rest, st.EndRow())
  {
    assert ("\r" + rest)[1..] == rest;
  }

  lemma ScanCrLf(rest: string, st: Scanner)
    requires !st.inQuotes
    ensures Scan("\r\n" + rest, st) == Scan(rest, st.EndRow())
  {
    assert ("\r\n" + rest)[1..] == "\n" + rest;
    assert ("\r\n" + rest)[2..] == rest;
  }

  /** After a record, the break ends the row; CR LF counts as one break. */
  lemma ScanBreak(lineBreak: LineBreak, rest: string, st: Scanner)
    requires !st.inQuotes
    ensures Scan(lineBreak.Text() + rest, st)
         == Scan(if lineBreak == Cr && StartsWith(rest, '\n') then rest[1..] else rest, st.EndRow())
  {
    match lineBreak
    case Lf => ScanLf(rest, st);
    case CrLf => ScanCrLf(rest, st);
    case Cr =>
      if StartsWith(rest, '\n') {
        assert "\r" + rest == "\r\n" + rest[1..];
        ScanCrLf(rest[1..], st);
      } else {
        ScanCr(rest, st);
      }
  }

  /** A doubled body, its closing quote and something that is not a quote. */
  lemma {:induction false} ScanQuotedBody(cell: string, rest: string, st: Scanner)
    requires st.inQuotes && !StartsWith(rest, '"')
    ensures Scan(DoubleQuotes(cell) + ("\"" + rest), st)
         == Scan(rest, st.(field := st.field + cell, inQuotes := false))
  {
    var closing := "\"" + rest;
    if cell == "" {
      assert DoubleQuotes(cell) + closing == closing;
      ScanClosingQuote(rest, st);
      assert st.field + cell == st.field;
    } else {
      var next := st.(field := st.field + [cell[0]]);
      var first := if cell[0] == '"' then "\"\"" else [cell[0]];
      Assoc(first, DoubleQuotes(cell[1..]), closing);
      ScanQuoted(cell[0], DoubleQuotes(cell[1..]) + closing, st);
      ScanQuotedBody(cell[1..], rest, next);
      Assoc(st.field, [cell[0]], cell[1..]);
      assert [cell[0]] + cell[1..] == cell;
    }
  }

  lemma {:induction false} ScanPlain(cell: string, rest: string, st: Scanner)
    requires !st.inQuotes && !NeedsQuotes(cell)
    ensures Scan(cell + rest, st) == Scan(rest, st.(field := st.field + cell))
  {
    if cell == "" {
      assert cell + rest == rest && st.field + cell == st.field;
    } else {
      var next := st.(field := st.field + [cell[0]]);
      assert cell[0] in cell && Ordinary(cell[0]);
      assert cell + rest == [cell[0]] + (cell[1..] + rest);
      ScanOrdinary(cell[0], cell[1..] + rest, st);
      ScanPlain(cell[1..], rest, next);
      assert next.field + cell[1..] == st.field + cell;
    }
  }

  lemma ScanCell(cell: Cell, rest: string, st: Scanner)
    requires !st.inQuotes && st.field == "" && !StartsWith(rest, '"')
    ensures Scan(cell.Rendered() + rest, st) == Scan(rest, st.(field := cell.text))
  {
    assert "" + cell.text == cell.text;
    if cell.quoted || NeedsQuotes(cell.text) {
      var body := DoubleQuotes(cell.text) + ("\"" + rest);
      assert cell.Rendered() + rest == "\"" + body;
      ScanOpeningQuote(body, st);
      ScanQuotedBody(cell.text, rest, st.(inQuotes := true));
    } else {
      ScanPlain(cell.text, rest, st);
    }
  }

  lemma RenderCellsFirst(cells: seq<Cell>, rest: string)
    requires |cells| > 1
    ensures RenderCells(cells) + rest == cells[0].Rendered() + ("," + (RenderCells(cells[1..]) + rest))
  {
    var first, more := cells[0].Rendered(), RenderCells(cells[1..]);
    assert RenderCells(cells) == first + "," + more;
    Assoc(first + ",", more, rest);
    Assoc(first, ",", more + rest);
  }

  /** The local variables once the cells of a record are read, the last one still open. */
  function WithCells(st: Scanner, cells: seq<Cell>): Scanner
    requires cells != []
  {
    st.(row := st.row + Texts(cells[..|cells| - 1]), field := cells[|cells| - 1].text)
  }

  lemma WithCellsFirst(st: Scanner, cells: seq<Cell>)
    requires |cells| > 1
    ensures WithCells(st.(row := st.row + [cells[0].text], field := ""), cells[1..]) == WithCells(st, cells)
  {
    var n, rest := |cells| - 1, cells[1..];
    assert [cells[0].text] + Texts(rest[..n - 1]) == Texts(cells[..n]);
    Assoc(st.row, [cells[0].text], Texts(rest[..n - 1]));
    assert rest[n - 1] == cells[n];
  }

  lemma ScanFirstCell(cells: seq<Cell>, rest: string, st: Scanner)
    requires |cells| > 1 && !st.inQuotes && st.field == ""
    ensures Scan(RenderCells(cells) + rest, st)
         == Scan(RenderCells(cells[1..]) + rest, st.(row := st.row + [cells[0].text], field := ""))
  {
    var more := RenderCells(cells[1..]) + rest;
    RenderCellsFirst(cells, rest);
    ScanCell(cells[0], "," + more, st);
    ScanComma(more, st.(field := cells[0].text));
  }

  lemma {:induction false} ScanCells(cells: seq<Cell>, rest: string, st: Scanner)
    requires cells != [] && !st.inQuotes && st.field == "" && !StartsWith(rest, '"')
    ensures Scan(RenderCells(cells) + rest, st) == Scan(rest, WithCells(st, cells))
    decreases |cells|
  {
    if |cells| == 1 {
      ScanCell(cells[0], rest, st);
      assert st.row + Texts(cells[..0]) == st.row;
    } else {
      ScanFirstCell(cells, rest, st);
      ScanCells(cells[1..], rest, st.(row := st.row + [cells[0].text], field := ""));
      WithCellsFirst(st, cells);
    }
  }

  /** A record never starts with a line break, unless it is the empty text. */
  lemma RecordStart(cells: seq<Cell>, rest: string)
    requires StartsWith(RenderCells(cells) + rest, '\n')
    ensures RenderCells(cells) == "" && (cells == [] || (|cells| == 1 && cells[0].text == ""))
  {
    if cells != [] {
      CellStart(cells[0]);
    }
  }

  lemma CellStart(cell: Cell)
    ensures !StartsWith(cell.Rendered(), '\n')
    ensures cell.Rendered() == "" ==> cell.text == ""
  {
  }

  /** A row filter that drops the two rows an empty line can be read as. */
  predicate DropsEmptyLines(keep: seq<string> -> bool) {
    !keep([]) && !keep([""])
  }

  /** A record at the start of a line is read back, up to rows the filter drops. */
  lemma ScanRecord(keep: seq<string> -> bool, cells: seq<Cell>, rest: string, st: Scanner)
    returns (row: seq<string>, field: string)
    requires DropsEmptyLines(keep)
    requires !st.inQuotes && st.field == "" && st.row == [] && !StartsWith(rest, '"')
    ensures Scan(RenderCells(cells) + rest, st) == Scan(rest, st.(row := row, field := field))
    ensures row + [field] == Texts(cells) || (!keep(row + [field]) && !keep(Texts(cells)))
    ensures row == [] && field == "" ==> !keep(Texts(cells))
  {
    if cells == [] {
      assert RenderCells(cells) + rest == rest;
      row, field := [], "";
      assert st == st.(row := row, field := field);
      assert [] + [""] == [""];
    } else {
      var n := |cells| - 1;
      ScanCells(cells, rest, st);
      row, field := Texts(cells[..n]), cells[n].text;
      assert [] + row == row;
      assert row + [field] == Texts(cells);
      assert row == [] && field == "" ==> Texts(cells) == [""];
    }
  }

  predicate AtLineStart(st: Scanner) {
    !st.inQuotes && st.field == "" && st.row == []
  }

  /** What is left after a line break: a CR swallows an LF that follows it. */
  function AfterBreak(lineBreak: LineBreak, rest: string): string {
    if lineBreak == Cr && StartsWith(rest, '\n') then rest[1..] else rest
  }

  lemma ScanLine(keep: seq<string> -> bool, line: Line, rest: string, st: Scanner) returns (next: Scanner)
    requires DropsEmptyLines(keep) && AtLineStart(st)
    ensures Scan(RenderCells(line.cells) + line.lineBreak.Text() + rest, st)
         == Scan(AfterBreak(line.lineBreak, rest), next)
    ensures AtLineStart(next)
    ensures Filter(keep, next.rows) == Filter(keep, st.rows) + Filter(keep, [Texts(line.cells)])
  {
    var broken := line.lineBreak.Text() + rest;
    assert RenderCells(line.cells) + line.lineBreak.Text() + rest == RenderCells(line.cells) + broken;
    var row, field := ScanRecord(keep, line.cells, broken, st);
    var ended := st.(row := row, field := field);
    ScanBreak(line.lineBreak, rest, ended);
    next := ended.EndRow();
    FilterLast(keep, st.rows, row + [field]);
  }

  lemma ScanLastRecord(keep: seq<string> -> bool, last: seq<Cell>, st: Scanner)
    requires DropsEmptyLines(keep) && AtLineStart(st)
    ensures Filter(keep, Scan(RenderCells(last), st).Finish())
         == Filter(keep, st.rows) + Filter(keep, [Texts(last)])
  {
    var row, field := ScanRecord(keep, last, "", st);
    assert RenderCells(last) + "" == RenderCells(last);
    FilterLast(keep, st.rows, row + [field]);
  }

  /** Scanning any rendering finds exactly its rows, up to dropped ones. */
  lemma {:induction false} ScanRendering(keep: seq<string> -> bool, lines: seq<Line>, last: seq<Cell>, st: Scanner)
    requires DropsEmptyLines(keep) && AtLineStart(st)
    ensures Filter(keep, Scan(Render(lines, last), st).Finish())
         == Filter(keep, st.rows) + Filter(keep, RowsOf(lines, last))
    decreases |lines|
  {
    if lines == [] {
      ScanLastRecord(keep, last, st);
    } else {
      var rest := Render(lines[1..], last);
      var next := ScanLine(keep, lines[0], rest, st);
      FilterConcat(keep, [Texts(lines[0].cells)], RowsOf(lines[1..], last));
      Assoc(Filter(keep, st.rows), Filter(keep, [Texts(lines[0].cells)]), Filter(keep, RowsOf(lines[1..], last)));
      if lines[0].lineBreak == Cr && StartsWith(rest, '\n') {
        ScanMergedBreak(keep, lines[1..], last, next);
      } else {
        ScanRendering(keep, lines[1..], last, next);
      }
    }
  }

  /** A CR followed by an empty record and its LF reads as one break; the record that
      disappears is one the filter drops. */
  lemma {:induction false} ScanMergedBreak(keep: seq<string> -> bool, lines: seq<Line>, last: seq<Cell>, st: Scanner)
    requires DropsEmptyLines(keep) && AtLineStart(st)
    requires StartsWith(Render(lines, last), '\n')
    ensures Filter(keep, Scan(Render(lines, last)[1..], st).Finish())
         == Filter(keep, st.rows) + Filter(keep, RowsOf(lines, last))
    decreases |lines|
  {
    var rest := LineFeedFirst(lines, last);
    ScanRendering(keep, lines[1..], last, st);
    FilterConcat(keep, [Texts(lines[0].cells)], RowsOf(lines[1..], last));
  }

  lemma RecordIsNoBreak(cells: seq<Cell>)
    ensures !StartsWith(RenderCells(cells), '\n')
  {
    assert RenderCells(cells) + "" == RenderCells(cells);
    if StartsWith(RenderCells(cells) + "", '\n') {
      RecordStart(cells, "");
    }
  }

  lemma OnlyLineFeedStartsSo(lineBreak: LineBreak, rest: string)
    requires StartsWith(lineBreak.Text() + rest, '\n')
    ensures (lineBreak.Text() + rest)[1..] == rest
  {
    assert lineBreak.Text() == "\n";
  }

  /** A rendering that starts with LF starts with an empty record. */
  lemma LineFeedFirst(lines: seq<Line>, last: seq<Cell>) returns (rest: string)
    requires StartsWith(Render(lines, last), '\n')
    ensures lines != [] && rest == Render(lines[1..], last) == Render(lines, last)[1..]
    ensures Texts(lines[0].cells) == [] || Texts(lines[0].cells) == [""]
  {
    RecordIsNoBreak(last);
    assert lines != [];
    rest := Render(lines[1..], last);
    var broken := lines[0].lineBreak.Text() + rest;
    assert Render(lines, last) == RenderCells(lines[0].cells) + broken;
    RecordStart(lines[0].cells, broken);
    assert Render(lines, last) == broken;
    OnlyLineFeedStartsSo(lines[0].lineBreak, rest);
  }

  lemma HasTextDropsEmptyLines()
    ensures DropsEmptyLines(HasText)
  {
    assert forall cell | cell in [""] :: cell == "";
  }

  /** RFC 4180 section 2: whichever cells a writer quotes beyond those that need it, whichever
      line break ends each line, and whether or not a mark comes first, reading a rendering
      back gives its rows, in order, without those that are nothing but white space. */
  lemma ParseReadsEveryRendering(lines: seq<Line>, last: seq<Cell>)
    ensures ParsedCsv([BOM] + Render(lines, last)) == Filter(ShowsText, RowsOf(lines, last))
    ensures !StartsWith(Render(lines, last), BOM) ==>
              ParsedCsv(Render(lines, last)) == Filter(ShowsText, RowsOf(lines, last))
  {
    assert ([BOM] + Render(lines, last))[1..] == Render(lines, last);
    HasTextDropsEmptyLines();
    ScanRendering(HasText, lines, last, START);
    NonBlankShowsText(RowsOf(lines, last));
  }

  /** A row with one character that is not white space, in one of its cells, is always read back. */
  lemma RowWithTextIsRead(lines: seq<Line>, last: seq<Cell>, k: nat, i: nat, j: nat)
    requires k < |RowsOf(lines, last)| && i < |RowsOf(lines, last)[k]| && j < |RowsOf(lines, last)[k][i]|
    requires !IsWhitespace(RowsOf(lines, last)[k][i][j])
    ensures RowsOf(lines, last)[k] in ParsedCsv([BOM] + Render(lines, last))
  {
    ParseReadsEveryRendering(lines, last);
    FilterKeepsAll(ShowsText, RowsOf(lines, last));
  }

  // ---- the round trip -------------------------------------------------------------------

  /** The writer quotes only where it must. */
  function Plain(cells: seq<string>): (plain: seq<Cell>)
    ensures |plain| == |cells| && Texts(plain) == cells
  {
    Map((cell: string) => Cell(cell, false), cells)
  }

  lemma {:induction false} CsvLineIsRendering(cells: seq<string>)
    ensures CsvLine(cells) == RenderCells(Plain(cells))
    decreases |cells|
  {
    if |cells| > 1 {
      CsvLineIsRendering(cells[1..]);
      assert Map(EscapeCsvCell, cells)[1..] == Map(EscapeCsvCell, cells[1..]);
      assert Plain(cells)[1..] == Plain(cells[1..]);
    }
  }

  function Terminated(records: seq<seq<string>>): seq<Line> {
    Map((record: seq<string>) => Line(Plain(record), CrLf), records)
  }

  lemma {:induction false} JoinIsRendering(records: seq<seq<string>>)
    requires records != []
    ensures var n := |records| - 1;
            && Join(Map(CsvLine, records), "\r\n") == Render(Terminated(records[..n]), Plain(records[n]))
            && RowsOf(Terminated(records[..n]), Plain(records[n])) == records
    decreases |records|
  {
    var n := |records| - 1;
    CsvLineIsRendering(records[0]);
    if n > 0 {
      JoinIsRendering(records[1..]);
      assert Map(CsvLine, records)[1..] == Map(CsvLine, records[1..]);
      assert Terminated(records[..n])[1..] == Terminated(records[1..][..n - 1]);
      assert [records[0]] + records[1..] == records;
    }
  }

  /** All records of an export: the headers, then a record for each row with a cell for each column. */
  function Table<T>(rows: seq<T>, columns: seq<ExportColumn<T>>): (records: seq<seq<string>>)
    ensures |records| == |rows| + 1 && forall i :: 0 <= i < |records| ==> |records[i]| == |columns|
    ensures forall j :: 0 <= j < |columns| ==> records[0][j] == columns[j].header
    ensures forall i, j :: 0 <= i < |rows| && 0 <= j < |columns| ==> records[i + 1][j] == columns[j].value(rows[i])
    ensures records[0] == Headers(columns) && forall i :: 0 <= i < |rows| ==> records[i + 1] == Cells(rows[i], columns)
  {
    [Headers(columns)] + Map((row: T) => Cells(row, columns), rows)
  }

  lemma ToCsvIsJoin<T>(rows: seq<T>, columns: seq<ExportColumn<T>>)
    ensures var lines := Map(CsvLine, Table(rows, columns));
            ToCsv(rows, columns) == if rows == [] then lines[0] + "\r\n" else Join(lines, "\r\n")
  {
    var lines := Map(CsvLine, Table(rows, columns));
    assert lines[1..] == Map((row: T) => CsvLine(Cells(row, columns)), rows);
    if rows == [] {
      assert CsvLine(Headers(columns)) + "\r\n" + Join(lines[1..], "\r\n") == lines[0] + "\r\n";
    }
  }

  /** The reader undoes the writer: parsing an exported file gives the header and the rows, without
      those that are nothing but white space, whatever quotes, commas, line breaks and marks the
      cells hold. */
  lemma ParseUndoesExport<T>(rows: seq<T>, columns: seq<ExportColumn<T>>)
    ensures ParsedCsv(ExportCsv(rows, columns)) == Filter(ShowsText, Table(rows, columns))
  {
    var records := Table(rows, columns);
    ToCsvIsJoin(rows, columns);
    if rows == [] {
      assert records == [records[0]];
      HeaderOnly(records[0]);
    } else {
      JoinIsRendering(records);
      ParseReadsEveryRendering(Terminated(records[..|rows|]), Plain(records[|rows|]));
    }
  }

  lemma HeaderOnly(header: seq<string>)
    ensures ParsedCsv([BOM] + (CsvLine(header) + "\r\n")) == Filter(ShowsText, [header])
  {
    CsvLineIsRendering(header);
    var lines := [Line(Plain(header), CrLf)];
    assert lines[1..] == [];
    assert Render(lines, []) == CsvLine(header) + "\r\n";
    assert RowsOf(lines, []) == [header] + [[]];
    ParseReadsEveryRendering(lines, []);
    FilterLast(ShowsText, [header], []);
  }

  // ---- records ---------------------------------------------------------------------------

  function CellOrEmpty(cells: seq<string>, index: nat): string {
    if index < |cells| then cells[index] else ""
  }

  /** Object.fromEntries over the header: a later column overwrites an earlier one. */
  function RecordOf(header: seq<string>, cells: seq<string>): map<string, string> {
    Entries(header, cells, |header|)
  }

  function Entries(header: seq<string>, cells: seq<string>, count: nat): map<string, string>
    requires count <= |header|
  {
    if count == 0 then map[]
    else Entries(header, cells, count - 1)[Trim(header[count - 1]) := Trim(CellOrEmpty(cells, count - 1))]
  }

  function CsvToRecords(text: string): seq<map<string, string>> {
    var parsed := ParsedCsv(text);
    if parsed == [] then []
    else Map((cells: seq<string>) => RecordOf(parsed[0], cells), parsed[1..])
  }

  predicate LastOfItsName(header: seq<string>, i: nat, count: nat)
    requires i < count <= |header|
  {
    forall j :: i < j < count ==> Trim(header[j]) != Trim(header[i])
  }

  predicate DistinctNames(header: seq<string>) {
    forall i, j :: 0 <= i < j < |header| ==> Trim(header[i]) != Trim(header[j])
  }

  lemma {:induction false} EntryOfLast(header: seq<string>, cells: seq<string>, count: nat, i: nat)
    requires i < count <= |header| && LastOfItsName(header, i, count)
    ensures Trim(header[i]) in Entries(header, cells, count)
    ensures Entries(header, cells, count)[Trim(header[i])] == Trim(CellOrEmpty(cells, i))
  {
    if i < count - 1 {
      EntryOfLast(header, cells, count - 1, i);
    }
  }

  lemma {:induction false} KeyIsHeader(header: seq<string>, cells: seq<string>, count: nat, key: string)
    returns (i: nat)
    requires count <= |header| && key in Entries(header, cells, count)
    ensures i < count && key == Trim(header[i])
  {
    i := count - 1;
    if key != Trim(header[i]) {
      i := KeyIsHeader(header, cells, count - 1, key);
    }
  }

  /** A record holds, under each trimmed header, the trimmed cell of the LAST column of that
      name - and no other key. */
  lemma EntriesLookup(header: seq<string>, cells: seq<string>, count: nat)
    requires count <= |header|
    ensures forall i :: 0 <= i < count && LastOfItsName(header, i, count) ==>
              && Trim(header[i]) in Entries(header, cells, count)
              && Entries(header, cells, count)[Trim(header[i])] == Trim(CellOrEmpty(cells, i))
    ensures forall key | key in Entries(header, cells, count) ::
              exists i :: 0 <= i < count && key == Trim(header[i])
  {
    forall i | 0 <= i < count && LastOfItsName(header, i, count)
      ensures Trim(header[i]) in Entries(header, cells, count)
      ensures Entries(header, cells, count)[Trim(header[i])] == Trim(CellOrEmpty(cells, i))
    {
      EntryOfLast(header, cells, count, i);
    }
    forall key | key in Entries(header, cells, count)
      ensures exists i :: 0 <= i < count && key == Trim(header[i])
    {
      var i := KeyIsHeader(header, cells, count, key);
    }
  }

  predicate ReadsBack(header: seq<string>, cells: seq<string>) {
    forall i :: 0 <= i < |header| ==>
      && Trim(header[i]) in RecordOf(header, cells)
      && RecordOf(header, cells)[Trim(header[i])] == Trim(CellOrEmpty(cells, i))
  }

  lemma DistinctNamesReadBack(header: seq<string>, cells: seq<string>)
    requires DistinctNames(header)
    ensures ReadsBack(header, cells)
  {
    EntriesLookup(header, cells, |header|);
    assert forall i :: 0 <= i < |header| ==> LastOfItsName(header, i, |header|);
  }

  /** Two columns of one name: a row with different cells in them loses one. */
  lemma RepeatedNameLosesACell(header: seq<string>, i: nat, j: nat) returns (cells: seq<string>)
    requires i < j < |header| && Trim(header[i]) == Trim(header[j])
    ensures |cells| == |header| && !ReadsBack(header, cells)
  {
    cells := seq(|header|, k => if k == i then "a" else "b");
    assert Trim("a") == "a" && Trim("b") == "b";
    assert cells[i] == "a" && cells[j] == "b";
  }

  /** Every column of every row can be read under its own header exactly when the trimmed
      headers are distinct. */
  lemma ColumnsReadBackIff(header: seq<string>)
    ensures (forall cells: seq<string> | |cells| == |header| :: ReadsBack(header, cells)) <==> DistinctNames(header)
  {
    if DistinctNames(header) {
      forall cells: seq<string> | |cells| == |header|
        ensures ReadsBack(header, cells)
      {
        DistinctNamesReadBack(header, cells);
      }
    } else {
      var i, j :| 0 <= i < j < |header| && Trim(header[i]) == Trim(header[j]);
      var cells := RepeatedNameLosesACell(header, i, j);
    }
  }

  /** The rows of a table that survive the reader, as cells. */
  function KeptRows<T>(rows: seq<T>, columns: seq<ExportColumn<T>>): seq<seq<string>> {
    Filter(ShowsText, Table(rows, columns)[1..])
  }

  function Records(header: seq<string>, rows: seq<seq<string>>): seq<map<string, string>> {
    Map((cells: seq<string>) => RecordOf(header, cells), rows)
  }

  /** Exported rows come back as records: one per row that is not blank, in order, each
      keyed by the trimmed headers - provided the header row is not blank itself. */
  lemma RecordsUndoExport<T>(rows: seq<T>, columns: seq<ExportColumn<T>>)
    requires ShowsText(Headers(columns))
    ensures CsvToRecords(ExportCsv(rows, columns)) == Records(Headers(columns), KeptRows(rows, columns))
  {
    ParseUndoesExport(rows, columns);
    var table := Table(rows, columns);
    assert Filter(ShowsText, table) == [table[0]] + Filter(ShowsText, table[1..]);
    assert ParsedCsv(ExportCsv(rows, columns))[1..] == KeptRows(rows, columns);
  }

  /** A blank header row is dropped like any other, so the first row that is left is taken for
      the header: it gives no record, and its cells name the columns of the rest. */
  lemma BlankHeaderIsLost<T>(rows: seq<T>, columns: seq<ExportColumn<T>>)
    requires !ShowsText(Headers(columns))
    ensures var kept := KeptRows(rows, columns);
            && ParsedCsv(ExportCsv(rows, columns)) == kept
            && CsvToRecords(ExportCsv(rows, columns)) == if kept == [] then [] else Records(kept[0], kept[1..])
  {
    ParseUndoesExport(rows, columns);
  }

  /** The records are the exported rows exactly when the header row has text or there is no row
      to read: with a blank header, one record is always missing. */
  lemma RecordsUndoExportIff<T>(rows: seq<T>, columns: seq<ExportColumn<T>>)
    ensures var kept := KeptRows(rows, columns);
            CsvToRecords(ExportCsv(rows, columns)) == Records(Headers(columns), kept)
            <==> ShowsText(Headers(columns)) || kept == []
  {
    var kept := KeptRows(rows, columns);
    if ShowsText(Headers(columns)) {
      RecordsUndoExport(rows, columns);
    } else {
      BlankHeaderIsLost(rows, columns);
      assert kept != [] ==> |CsvToRecords(ExportCsv(rows, columns))| == |kept| - 1;
    }
  }
}
