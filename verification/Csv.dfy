/** The analytics export as CSV and the character-loop reader that the end-to-end checks read it with. */
module Csv {
  import opened Results
  import opened Text

  // ---------- Reading one line ----------

  /** The cells of the rest of a line, given the cell being read and whether it is inside quotes. */
  function Cells(line: string, cur: string, inQuotes: bool): (cells: seq<string>)
    ensures |cells| > 0
    decreases |line|
  {
    if line == "" then [cur]
    else if inQuotes then
      if line[0] != '"' then Cells(line[1..], cur + [line[0]], true)
      else if |line| > 1 && line[1] == '"' then Cells(line[2..], cur + "\"", true)
      else Cells(line[1..], cur, false)
    else if line[0] == '"' then Cells(line[1..], cur, true)
    else if line[0] == ',' then [cur] + Cells(line[1..], "", false)
    else Cells(line[1..], cur + [line[0]], false)
  }

  method ParseLine(line: string) returns (cells: seq<string>)
    ensures cells == Cells(line, "", false)
  {
    cells := [];
    var cur, inQuotes := "", false;
    var i := 0;
    while i < |line|
      invariant i <= |line|
      invariant cells + Cells(line[i..], cur, inQuotes) == Cells(line, "", false)
    {
      var ch := line[i];
      ghost var rest := line[i..];
      assert rest[0] == ch && rest[1..] == line[i + 1..] && (|rest| > 1 ==> rest[1] == line[i + 1] && rest[2..] == line[i + 2..]);
      if inQuotes {
        if ch == '"' {
          if i + 1 < |line| && line[i + 1] == '"' {
            cur := cur + "\"";
            i := i + 1;
          } else {
            inQuotes := false;
          }
        } else {
          cur := cur + [ch];
        }
      } else if ch == '"' {
        inQuotes := true;
      } else if ch == ',' {
        assert (cells + [cur]) + Cells(rest[1..], "", false) == cells + ([cur] + Cells(rest[1..], "", false));
        cells := cells + [cur];
        cur := "";
      } else {
        cur := cur + [ch];
      }
      i := i + 1;
    }
    cells := cells + [cur];
  }

  function DoubleQuotes(s: string): string {
    if s == "" then "" else (if s[0] == '"' then "\"\"" else [s[0]]) + DoubleQuotes(s[1..])
  }

  function Quoted(field: string): string {
    "\"" + DoubleQuotes(field) + "\""
  }

  predicate NeedsQuotes(s: string) {
    exists c :: c in s && c in {'"', ',', '\r', '\n'}
  }

  /** RFC 4180, section 2: any field may stand in quotes, and plainly when no quote or comma is in it. */
  predicate Renders(raw: string, field: string) {
    raw == Quoted(field) || (raw == field && '"' !in field && ',' !in field)
  }

  lemma {:induction false} QuotedIsRead(field: string, rest: string, cur: string)
    requires rest == "" || rest[0] != '"'
    ensures Cells(DoubleQuotes(field) + "\"" + rest, cur, true) == Cells(rest, cur + field, false)
    decreases field
  {
    var line := DoubleQuotes(field) + "\"" + rest;
    if field == "" {
      assert line[1..] == rest && cur + field == cur;
    } else {
      var tail := DoubleQuotes(field[1..]) + "\"" + rest;
      QuotedIsRead(field[1..], rest, cur + [field[0]]);
      assert cur + field == (cur + [field[0]]) + field[1..];
      if field[0] == '"' {
        assert line == "\"\"" + tail;
      } else {
        assert line == [field[0]] + tail;
      }
    }
  }

  lemma {:induction false} PlainIsRead(field: string, rest: string, cur: string)
    requires '"' !in field && ',' !in field
    ensures Cells(field + rest, cur, false) == Cells(rest, cur + field, false)
    decreases field
  {
    if field == "" {
      assert field + rest == rest && cur + field == cur;
    } else {
      PlainIsRead(field[1..], rest, cur + [field[0]]);
      assert (field + rest)[1..] == field[1..] + rest;
      assert cur + field == (cur + [field[0]]) + field[1..];
    }
  }

  lemma FieldIsRead(raw: string, field: string, rest: string)
    requires Renders(raw, field) && (rest == "" || rest[0] == ',')
    ensures Cells(raw + rest, "", false) == Cells(rest, field, false)
  {
    assert "" + field == field;
    if raw == Quoted(field) {
      var line := raw + rest;
      assert line[1..] == DoubleQuotes(field) + "\"" + rest;
      QuotedIsRead(field, rest, "");
    } else {
      PlainIsRead(field, rest, "");
    }
  }

  /** The reader inverts every rendering of every non-empty list of fields, whatever is quoted. */
  lemma {:induction false} ReadInvertsRender(raws: seq<string>, fields: seq<string>)
    requires |raws| == |fields| > 0 && forall i :: 0 <= i < |raws| ==> Renders(raws[i], fields[i])
    ensures Cells(Join(raws, ','), "", false) == fields
    decreases |raws|
  {
    if |raws| == 1 {
      FieldIsRead(raws[0], fields[0], "");
      assert raws[0] + "" == raws[0];
      assert fields == [fields[0]];
    } else {
      var rest := "," + Join(raws[1..], ',');
      FieldIsRead(raws[0], fields[0], rest);
      assert Join(raws, ',') == raws[0] + rest;
      assert rest[1..] == Join(raws[1..], ',');
      ReadInvertsRender(raws[1..], fields[1..]);
      assert fields == [fields[0]] + fields[1..];
    }
  }

  lemma {:induction false} OpenQuotesRead(field: string, cur: string)
    ensures Cells(DoubleQuotes(field), cur, true) == [cur + field]
    decreases field
  {
    var line := DoubleQuotes(field);
    if field != "" {
      OpenQuotesRead(field[1..], cur + [field[0]]);
      assert cur + field == (cur + [field[0]]) + field[1..];
      assert line[if field[0] == '"' then 2 else 1..] == DoubleQuotes(field[1..]);
    } else {
      assert cur + field == cur;
    }
  }

  /** A quoted field that its line does not close is read to the end of the line. */
  lemma UnclosedIsRead(field: string)
    ensures Cells("\"" + DoubleQuotes(field), "", false) == [field]
  {
    OpenQuotesRead(field, "");
    assert ("\"" + DoubleQuotes(field))[1..] == DoubleQuotes(field) && "" + field == field;
  }

  // ---------- Reading a document ----------

  datatype Document = Document(headers: seq<string>, rows: seq<map<string, string>>)

  function DropTrailingCr(s: string): string {
    if s != "" && s[|s| - 1] == '\r' then s[..|s| - 1] else s
  }

  /** The pieces between line breaks, given those between line feeds: a break takes one CR before it. */
  function Unbroken(pieces: seq<string>): seq<string> {
    if |pieces| <= 1 then pieces else [DropTrailingCr(pieces[0])] + Unbroken(pieces[1..])
  }

  function NonBlank(lines: seq<string>): seq<string> {
    if lines == [] then [] else (if lines[0] == "" then [] else [lines[0]]) + NonBlank(lines[1..])
  }

  function LinesOf(text: string): seq<string> {
    var body := if text != "" && text[0] == '\U{FEFF}' then text[1..] else text;
    NonBlank(Unbroken(Split(body, '\n')))
  }

  /** Lines with a carriage return and a line feed between them. */
  function CrLf(lines: seq<string>): string {
    if lines == [] then "" else if |lines| == 1 then lines[0] else (lines[0] + "\r") + "\n" + CrLf(lines[1..])
  }

  lemma {:induction false} CrLfUnbroken(lines: seq<string>)
    requires lines != [] && forall i :: 0 <= i < |lines| ==> '\n' !in lines[i]
    ensures Unbroken(Split(CrLf(lines), '\n')) == lines
    decreases |lines|
  {
    if |lines| == 1 {
      SplitWithoutSeparator(lines[0], '\n');
    } else {
      CrLfUnbroken(lines[1..]);
      SplitAtFirst(lines[0] + "\r", CrLf(lines[1..]), '\n');
      var pieces := Split(CrLf(lines), '\n');
      assert pieces[1..] == Split(CrLf(lines[1..]), '\n');
      assert DropTrailingCr(lines[0] + "\r") == lines[0];
    }
  }

  lemma {:induction false} LfUnbroken(lines: seq<string>)
    requires lines != [] && forall i :: 0 <= i < |lines| ==> '\n' !in lines[i]
    requires forall i :: 0 <= i < |lines| - 1 ==> lines[i] == "" || lines[i][|lines[i]| - 1] != '\r'
    ensures Unbroken(Split(Join(lines, '\n'), '\n')) == lines
    decreases |lines|
  {
    SplitJoin(lines, '\n');
    if |lines| > 1 {
      LfUnbroken(lines[1..]);
      SplitJoin(lines[1..], '\n');
    }
  }

  /**
   * Both line endings give the same document: with CR LF the lines are kept as they are, with LF as well where no
   * line but the last ends with a carriage return; blank ones are dropped, and so is a byte order mark in front.
   */
  lemma LineEndings(lines: seq<string>, text: string)
    requires lines != [] && forall i :: 0 <= i < |lines| ==> '\n' !in lines[i]
    ensures LinesOf("\U{FEFF}" + CrLf(lines)) == NonBlank(lines)
    ensures (forall i :: 0 <= i < |lines| - 1 ==> lines[i] == "" || lines[i][|lines[i]| - 1] != '\r') ==>
              LinesOf("\U{FEFF}" + Join(lines, '\n')) == NonBlank(lines)
    ensures text != "" && text[0] != '\U{FEFF}' ==> LinesOf("\U{FEFF}" + text) == LinesOf(text)
  {
    CrLfUnbroken(lines);
    if forall i :: 0 <= i < |lines| - 1 ==> lines[i] == "" || lines[i][|lines[i]| - 1] != '\r' { LfUnbroken(lines); }
    assert ("\U{FEFF}" + CrLf(lines))[1..] == CrLf(lines);
    assert ("\U{FEFF}" + Join(lines, '\n'))[1..] == Join(lines, '\n');
    assert ("\U{FEFF}" + text)[1..] == text;
  }

  /** Later columns of one name win; missing cells are empty. */
  function RowOf(headers: seq<string>, cells: seq<string>, upTo: nat): map<string, string>
    requires upTo <= |headers|
  {
    if upTo == 0 then map[]
    else RowOf(headers, cells, upTo - 1)[headers[upTo - 1] := if upTo - 1 < |cells| then cells[upTo - 1] else ""]
  }

  function RowsOf(headers: seq<string>, lines: seq<string>): (rows: seq<map<string, string>>)
    ensures |rows| == |lines|
    ensures forall i :: 0 <= i < |rows| ==> rows[i] == RowOf(headers, Cells(lines[i], "", false), |headers|)
  {
    seq(|lines|, i requires 0 <= i < |lines| => RowOf(headers, Cells(lines[i], "", false), |headers|))
  }

  function ParseCsv(text: string): Document {
    var lines := LinesOf(text);
    if lines == [] then Document([], [])
    else
      var headers := Cells(lines[0], "", false);
      Document(headers, RowsOf(headers, lines[1..]))
  }

  method FillRow(headers: seq<string>, cells: seq<string>) returns (row: map<string, string>)
    ensures row == RowOf(headers, cells, |headers|)
  {
    row := map[];
    for idx := 0 to |headers|
      invariant row == RowOf(headers, cells, idx)
    {
      row := row[headers[idx] := if idx < |cells| then cells[idx] else ""];
    }
  }

  method ReadDocument(text: string) returns (d: Document)
    ensures d == ParseCsv(text)
  {
    var lines := LinesOf(text);
    if lines == [] {
      return Document([], []);
    }
    var headers := ParseLine(lines[0]);
    var rows := [];
    for i := 1 to |lines|
      invariant rows == RowsOf(headers, lines[1..])[..i - 1]
    {
      var cells := ParseLine(lines[i]);
      var row := FillRow(headers, cells);
      assert row == RowsOf(headers, lines[1..])[i - 1];
      rows := rows + [row];
    }
    d := Document(headers, rows);
  }

  // ---------- Writing a document ----------

  datatype Kind = TextColumn | NumberColumn
  datatype Column = Column(key: string, heading: string, kind: Kind)

  /** A value of a result row; a finite number comes with its printed form. */
  datatype Value = Missing | Str(text: string) | Finite(printed: string)

  type Row = map<string, Value>

  /** A formula lead-in: blanks and control characters, then one of = + - @. */
  predicate IsFormula(s: string) {
    s != "" && (s[0] in "=+-@" || ((IsSpace(s[0]) || s[0] <= '\U{001F}') && IsFormula(s[1..])))
  }

  function Neutralize(s: string): string {
    if IsFormula(s) then "'" + s else s
  }

  function QuoteCsv(s: string): string {
    if NeedsQuotes(s) then Quoted(s) else s
  }

  predicate Numerals(parts: seq<string>) {
    forall i :: 0 <= i < |parts| ==> parts[i] != "" && Number(parts[i]).Some?
  }

  /** Digits, optionally a point and more digits. */
  predicate IsUnsigned(s: string) {
    |Split(s, '.')| <= 2 && Numerals(Split(s, '.'))
  }

  predicate IsPlainNumber(s: string) {
    IsUnsigned(s) || (s != "" && s[0] == '-' && IsUnsigned(s[1..]))
  }

  function Lookup(row: Row, key: string): Value {
    if key in row then row[key] else Missing
  }

  function ValueText(v: Value): string {
    match v
    case Missing => ""
    case Str(text) => text
    case Finite(printed) => printed
  }

  /** The text a reader should find in a column. */
  function CellText(v: Value, kind: Kind): string {
    if kind == NumberColumn && (v.Finite? || IsPlainNumber(ValueText(v))) then ValueText(v)
    else Neutralize(ValueText(v))
  }

  function PrintCell(v: Value, kind: Kind): string {
    if v.Missing? || v == Str("") then ""
    else if kind == NumberColumn then
      if v.Finite? then v.printed
      else if IsPlainNumber(ValueText(v)) then ValueText(v)
      else QuoteCsv(Neutralize(ValueText(v)))
    else QuoteCsv(Neutralize(ValueText(v)))
  }

  function Labels(columns: seq<Column>): (r: seq<string>)
    ensures |r| == |columns| && forall i :: 0 <= i < |r| ==> r[i] == columns[i].heading
  {
    seq(|columns|, i requires 0 <= i < |columns| => columns[i].heading)
  }

  function PrintedCells(row: Row, columns: seq<Column>): (r: seq<string>)
    ensures |r| == |columns|
    ensures forall i :: 0 <= i < |r| ==> r[i] == PrintCell(Lookup(row, columns[i].key), columns[i].kind)
  {
    seq(|columns|, i requires 0 <= i < |columns| => PrintCell(Lookup(row, columns[i].key), columns[i].kind))
  }

  function CellTexts(row: Row, columns: seq<Column>): (r: seq<string>)
    ensures |r| == |columns|
    ensures forall i :: 0 <= i < |r| ==> r[i] == CellText(Lookup(row, columns[i].key), columns[i].kind)
  {
    seq(|columns|, i requires 0 <= i < |columns| => CellText(Lookup(row, columns[i].key), columns[i].kind))
  }

  function PrintRow(row: Row, columns: seq<Column>): string {
    Join(PrintedCells(row, columns), ',')
  }

  function PrintRows(rows: seq<Row>, columns: seq<Column>): (lines: seq<string>)
    ensures |lines| == |rows| && forall i :: 0 <= i < |rows| ==> lines[i] == PrintRow(rows[i], columns)
  {
    seq(|rows|, i requires 0 <= i < |rows| => PrintRow(rows[i], columns))
  }

  function ToCsv(rows: seq<Row>, columns: seq<Column>): string {
    Join(AllLines(rows, columns), '\n')
  }

  // ---------- What a reader gets back ----------

  predicate NumberChars(s: string) {
    s != "" && forall c :: c in s ==> c in "0123456789+-.eE"
  }

  /** Numbers print as numbers do. */
  predicate RowOk(row: Row) {
    forall key :: key in row && row[key].Finite? ==> NumberChars(row[key].printed)
  }

  predicate PlainLabel(heading: string) {
    !NeedsQuotes(heading) && heading != "" && heading[0] != '\U{FEFF}'
  }

  predicate ColumnsOk(columns: seq<Column>) {
    && |columns| >= 2 && (forall i :: 0 <= i < |columns| ==> PlainLabel(columns[i].heading))
    && forall i, j :: 0 <= i < j < |columns| ==> columns[i].heading != columns[j].heading
  }

  /** No text of the row holds a line feed in a shown column. */
  predicate OneLine(row: Row, columns: seq<Column>) {
    forall i :: 0 <= i < |columns| ==> '\n' !in ValueText(Lookup(row, columns[i].key))
  }

  lemma UnsignedIsPlain(s: string)
    requires IsUnsigned(s)
    ensures s != "" && forall c :: c in s ==> IsDigit(c) || c == '.'
  {
    var parts := Split(s, '.');
    JoinSplit(s, '.');
    assert parts[0] != "";
    forall c | c in s ensures IsDigit(c) || c == '.' {
      if c != '.' {
        JoinContains(parts, '.', c);
        var i :| 0 <= i < |parts| && c in parts[i];
        NumbersHaveDigits(parts[i]);
      }
    }
  }

  lemma PlainNumberIsPlain(s: string)
    requires IsPlainNumber(s)
    ensures !NeedsQuotes(s) && s != ""
  {
    if IsUnsigned(s) {
      UnsignedIsPlain(s);
    } else {
      UnsignedIsPlain(s[1..]);
      assert s == "-" + s[1..];
    }
  }

  lemma QuoteCsvRenders(t: string)
    ensures Renders(QuoteCsv(t), t)
    ensures !NeedsQuotes(QuoteCsv(t)) || QuoteCsv(t) == Quoted(t)
    ensures '\n' in QuoteCsv(t) <==> '\n' in t
  {
    QuotedContents(t);
    if '\n' in t || '"' in t || ',' in t { assert NeedsQuotes(t); }
  }

  /** What is printed renders what should be read, and is plain or quoted as a whole. */
  lemma CellRenders(v: Value, kind: Kind)
    requires v.Finite? ==> NumberChars(v.printed)
    ensures Renders(PrintCell(v, kind), CellText(v, kind))
    ensures !NeedsQuotes(PrintCell(v, kind)) || PrintCell(v, kind) == Quoted(CellText(v, kind))
    ensures '\n' in PrintCell(v, kind) <==> '\n' in ValueText(v)
  {
    NeutralizeKeepsBreaks(ValueText(v));
    if v.Missing? || v == Str("") {
      EmptyRenders(v, kind);
    } else if kind == NumberColumn && (v.Finite? || IsPlainNumber(ValueText(v))) {
      if v.Str? { PlainNumberIsPlain(v.text); }
      PlainRenders(ValueText(v));
    } else {
      QuoteCsvRenders(Neutralize(ValueText(v)));
    }
  }

  lemma EmptyRenders(v: Value, kind: Kind)
    requires v.Missing? || v == Str("")
    ensures PrintCell(v, kind) == "" == CellText(v, kind) && Renders("", "") && !NeedsQuotes("")
  {
    QuoteCsvRenders("");
    assert !IsPlainNumber("") by { assert Split("", '.')[0] == ""; }
  }

  lemma PlainRenders(s: string)
    requires !NeedsQuotes(s)
    ensures Renders(s, s) && '\n' !in s
  {
    assert '"' !in s && ',' !in s;
  }

  lemma NeutralizeKeepsBreaks(s: string)
    ensures '\n' in Neutralize(s) <==> '\n' in s
  {
  }

  lemma {:induction false} DoubleQuotesContents(s: string)
    ensures forall c :: c in DoubleQuotes(s) <==> c in s
  {
    if s != "" { DoubleQuotesContents(s[1..]); }
  }

  lemma QuotedContents(s: string)
    ensures forall c :: c in Quoted(s) <==> c == '"' || c in s
  {
    DoubleQuotesContents(s);
  }

  lemma RowRenders(row: Row, columns: seq<Column>)
    requires RowOk(row) && |columns| > 0
    ensures Cells(PrintRow(row, columns), "", false) == CellTexts(row, columns)
  {
    forall i | 0 <= i < |columns| ensures Renders(PrintedCells(row, columns)[i], CellTexts(row, columns)[i]) {
      CellRenders(Lookup(row, columns[i].key), columns[i].kind);
    }
    ReadInvertsRender(PrintedCells(row, columns), CellTexts(row, columns));
  }

  lemma HeaderRenders(columns: seq<Column>)
    requires ColumnsOk(columns)
    ensures Cells(Join(Labels(columns), ','), "", false) == Labels(columns)
  {
    forall i | 0 <= i < |columns| ensures Renders(Labels(columns)[i], Labels(columns)[i]) {
      assert PlainLabel(columns[i].heading);
    }
    ReadInvertsRender(Labels(columns), Labels(columns));
  }

  /** With distinct labels the row read back maps each label to its own column's text. */
  lemma {:induction false} RowOfMaps(headers: seq<string>, cells: seq<string>, upTo: nat)
    requires upTo <= |headers| == |cells| && forall i, j :: 0 <= i < j < |headers| ==> headers[i] != headers[j]
    ensures forall i :: 0 <= i < upTo ==> headers[i] in RowOf(headers, cells, upTo) && RowOf(headers, cells, upTo)[headers[i]] == cells[i]
    ensures forall h :: h in RowOf(headers, cells, upTo) ==> h in headers[..upTo]
  {
    if upTo > 0 {
      RowOfMaps(headers, cells, upTo - 1);
      assert headers[..upTo] == headers[..upTo - 1] + [headers[upTo - 1]];
    }
  }

  // ---------- Lines stay lines ----------

  /** A line that survives: something other than a carriage return is in it. */
  predicate Solid(s: string) {
    exists c :: c in s && c != '\r'
  }

  function SolidCount(pieces: seq<string>): nat {
    if pieces == [] then 0 else (if Solid(pieces[0]) then 1 else 0) + SolidCount(pieces[1..])
  }

  lemma {:induction false} SolidCountAppend(a: seq<string>, b: seq<string>)
    ensures SolidCount(a + b) == SolidCount(a) + SolidCount(b)
  {
    if a == [] {
      assert a + b == b;
    } else {
      SolidCountAppend(a[1..], b);
      assert (a + b)[1..] == a[1..] + b;
    }
  }

  lemma {:induction false} SolidSurvive(pieces: seq<string>)
    ensures |NonBlank(Unbroken(pieces))| >= SolidCount(pieces)
  {
    if |pieces| == 1 {
      assert pieces[1..] == [];
    } else if |pieces| > 1 {
      SolidSurvive(pieces[1..]);
      var u := Unbroken(pieces);
      assert u[1..] == Unbroken(pieces[1..]);
      if Solid(pieces[0]) {
        var c :| c in pieces[0] && c != '\r';
        assert c in DropTrailingCr(pieces[0]);
      }
    }
  }

  lemma {:induction false} SplitAppend(a: string, b: string, sep: char)
    ensures Split(a + [sep] + b, sep) == Split(a, sep) + Split(b, sep)
  {
    if a == "" {
      assert a + [sep] + b == [sep] + b;
      SplitCons(sep, b, sep);
    } else {
      SplitAppend(a[1..], b, sep);
      SplitCons(a[0], a[1..], sep);
      SplitCons(a[0], a[1..] + [sep] + b, sep);
      assert [a[0]] + a[1..] == a && [a[0]] + (a[1..] + [sep] + b) == a + [sep] + b;
      WithFrontAppend(a[0], Split(a[1..], sep), Split(b, sep), sep);
    }
  }

  /** The pieces of a string with one more character in front. */
  function WithFront(c: char, rest: seq<string>, sep: char): seq<string>
    requires rest != []
  {
    if c == sep then [""] + rest else [[c] + rest[0]] + rest[1..]
  }

  lemma WithFrontAppend(c: char, x: seq<string>, y: seq<string>, sep: char)
    requires x != []
    ensures WithFront(c, x + y, sep) == WithFront(c, x, sep) + y
  {
    assert (x + y)[1..] == x[1..] + y;
  }

  lemma SplitCons(c: char, s: string, sep: char)
    ensures Split([c] + s, sep) == WithFront(c, Split(s, sep), sep)
  {
    assert ([c] + s)[1..] == s;
  }

  /** Pieces at both ends of a line are solid, so a line with a line feed in it counts twice. */
  predicate SolidEnds(line: string) {
    Solid(Split(line, '\n')[0]) && Solid(Split(line, '\n')[|Split(line, '\n')| - 1])
  }

  lemma {:induction false} SplitCount(line: string)
    ensures |Split(line, '\n')| > 1 <==> '\n' in line
  {
    if line != "" { SplitCount(line[1..]); }
  }

  lemma SolidEndsCount(pieces: seq<string>)
    requires pieces != [] && Solid(pieces[0]) && Solid(pieces[|pieces| - 1])
    ensures SolidCount(pieces) >= if |pieces| > 1 then 2 else 1
  {
    var n := |pieces| - 1;
    assert pieces == pieces[..n] + [pieces[n]];
    SolidCountAppend(pieces[..n], [pieces[n]]);
    assert SolidCount([pieces[n]]) == 1;
  }

  lemma LineCounts(line: string)
    requires SolidEnds(line)
    ensures SolidCount(Split(line, '\n')) >= if '\n' in line then 2 else 1
  {
    SplitCount(line);
    SolidEndsCount(Split(line, '\n'));
  }

  lemma {:induction false} DocumentCounts(lines: seq<string>)
    requires lines != [] && forall i :: 0 <= i < |lines| ==> SolidEnds(lines[i])
    ensures SolidCount(Split(Join(lines, '\n'), '\n')) >= |lines|
    ensures (exists i :: 0 <= i < |lines| && '\n' in lines[i]) ==> SolidCount(Split(Join(lines, '\n'), '\n')) > |lines|
  {
    LineCounts(lines[0]);
    if |lines| > 1 {
      DocumentCounts(lines[1..]);
      SplitAppend(lines[0], Join(lines[1..], '\n'), '\n');
      SolidCountAppend(Split(lines[0], '\n'), Split(Join(lines[1..], '\n'), '\n'));
    }
  }

  /** A rendered cell: quoted as a whole, or with nothing in it that needs quotes. */
  predicate CellShape(raw: string) {
    !NeedsQuotes(raw) || (|raw| >= 2 && raw[0] == '"' && raw[|raw| - 1] == '"')
  }

  lemma {:induction false} FirstPieceStarts(a: string, b: string)
    requires '\n' !in a
    ensures a <= Split(a + b, '\n')[0]
  {
    if a != "" {
      FirstPieceStarts(a[1..], b);
      assert (a + b)[1..] == a[1..] + b;
    }
  }

  lemma {:induction false} LastPieceEnds(a: string, b: string)
    requires '\n' !in b
    ensures var pieces := Split(a + b, '\n'); forall c :: c in b ==> c in pieces[|pieces| - 1]
  {
    if a == "" {
      assert a + b == b;
      SplitWithoutSeparator(b, '\n');
    } else {
      LastPieceEnds(a[1..], b);
      assert (a + b)[1..] == a[1..] + b;
    }
  }

  /** The comma before its last cell, or that cell's closing quote, stands in the last piece of a line. */
  lemma {:induction false} LineTail(raws: seq<string>) returns (a: string, b: string)
    requires |raws| >= 2 && forall i :: 0 <= i < |raws| ==> CellShape(raws[i])
    ensures Join(raws, ',') == a + b && '\n' !in b && Solid(b)
  {
    if |raws| == 2 {
      var last := raws[1];
      assert Join(raws, ',') == raws[0] + "," + last by { assert raws[1..] == [last]; }
      if NeedsQuotes(last) {
        a, b := raws[0] + "," + last[..|last| - 1], "\"";
        assert b[0] in b;
      } else {
        a, b := raws[0], "," + last;
        assert b[0] in b;
      }
      assert a + b == raws[0] + "," + last;
    } else {
      var a', b' := LineTail(raws[1..]);
      a, b := raws[0] + "," + a', b';
      assert a + b == raws[0] + "," + (a' + b');
    }
  }

  lemma {:induction false} LineHead(raws: seq<string>) returns (a: string, b: string)
    requires |raws| >= 2 && forall i :: 0 <= i < |raws| ==> CellShape(raws[i])
    ensures Join(raws, ',') == a + b && '\n' !in a && Solid(a)
  {
    var tail := Join(raws[1..], ',');
    if NeedsQuotes(raws[0]) {
      a, b := "\"", raws[0][1..] + "," + tail;
      assert raws[0] == a + raws[0][1..];
    } else {
      a, b := raws[0] + ",", tail;
      assert '\n' !in raws[0];
    }
    assert a[|a| - 1] in a;
  }

  lemma SolidPart(part: string, s: string)
    requires Solid(part) && forall c :: c in part ==> c in s
    ensures Solid(s)
  {
  }

  lemma SolidHead(a: string, b: string)
    requires '\n' !in a && Solid(a)
    ensures Solid(Split(a + b, '\n')[0])
  {
    var piece := Split(a + b, '\n')[0];
    FirstPieceStarts(a, b);
    assert forall i :: 0 <= i < |a| ==> a[i] == piece[i];
    SolidPart(a, piece);
  }

  lemma SolidTail(a: string, b: string)
    requires '\n' !in b && Solid(b)
    ensures Solid(Split(a + b, '\n')[|Split(a + b, '\n')| - 1])
  {
    LastPieceEnds(a, b);
    SolidPart(b, Split(a + b, '\n')[|Split(a + b, '\n')| - 1]);
  }

  lemma SolidBothEnds(line: string, a: string, b: string, c: string, d: string)
    requires line == a + b == c + d && '\n' !in a && Solid(a) && '\n' !in d && Solid(d)
    ensures SolidEnds(line)
  {
    SolidHead(a, b);
    SolidTail(c, d);
  }

  lemma RowHasSolidEnds(raws: seq<string>)
    requires |raws| >= 2 && forall i :: 0 <= i < |raws| ==> CellShape(raws[i])
    ensures SolidEnds(Join(raws, ','))
  {
    var a, b := LineHead(raws);
    var c, d := LineTail(raws);
    SolidBothEnds(Join(raws, ','), a, b, c, d);
  }

  lemma PrintedShapes(row: Row, columns: seq<Column>)
    requires RowOk(row)
    ensures forall i :: 0 <= i < |columns| ==> CellShape(PrintedCells(row, columns)[i])
    ensures (exists i :: 0 <= i < |columns| && '\n' in PrintedCells(row, columns)[i]) <==> !OneLine(row, columns)
  {
    forall i | 0 <= i < |columns|
      ensures CellShape(PrintedCells(row, columns)[i])
      ensures '\n' in PrintedCells(row, columns)[i] <==> '\n' in ValueText(Lookup(row, columns[i].key))
    {
      CellRenders(Lookup(row, columns[i].key), columns[i].kind);
    }
  }

  lemma {:induction false} JoinContains(parts: seq<string>, sep: char, c: char)
    requires c != sep
    ensures c in Join(parts, sep) <==> exists i :: 0 <= i < |parts| && c in parts[i]
  {
    if |parts| > 1 {
      JoinContains(parts[1..], sep, c);
      if c in Join(parts[1..], sep) {
        var i :| 0 <= i < |parts| - 1 && c in parts[1..][i];
        assert c in parts[i + 1];
      }
      if exists i :: 0 <= i < |parts| && c in parts[i] {
        var i :| 0 <= i < |parts| && c in parts[i];
        if i > 0 { assert c in parts[1..][i - 1]; }
      }
    }
  }

  lemma {:induction false} KeptAsTheyAre(lines: seq<string>)
    requires forall i :: 0 <= i < |lines| ==> lines[i] != "" && lines[i][|lines[i]| - 1] != '\r'
    ensures NonBlank(Unbroken(lines)) == lines
  {
    if |lines| == 1 {
      assert lines[1..] == [];
    } else if |lines| > 1 {
      KeptAsTheyAre(lines[1..]);
      assert Unbroken(lines)[1..] == Unbroken(lines[1..]);
      assert lines == [lines[0]] + lines[1..];
    }
  }

  lemma {:induction false} LineEnd(raws: seq<string>)
    requires |raws| >= 2 && forall i :: 0 <= i < |raws| ==> CellShape(raws[i])
    ensures var line := Join(raws, ','); line != "" && line[|line| - 1] != '\r'
  {
    if |raws| == 2 {
      var last := raws[1];
      assert raws[1..] == [last];
      assert last != "" ==> last[|last| - 1] in last;
    } else {
      LineEnd(raws[1..]);
    }
  }

  /** A line that counts, and that a reader keeps as it is. */
  predicate Keeps(line: string) {
    SolidEnds(line) && line != "" && line[|line| - 1] != '\r'
  }

  function AllLines(rows: seq<Row>, columns: seq<Column>): (lines: seq<string>)
    ensures |lines| == |rows| + 1 && lines[0] == Join(Labels(columns), ',')
    ensures forall i :: 0 <= i < |rows| ==> lines[i + 1] == PrintRow(rows[i], columns)
  {
    [Join(Labels(columns), ',')] + PrintRows(rows, columns)
  }

  lemma HeaderFacts(columns: seq<Column>)
    requires ColumnsOk(columns)
    ensures Keeps(Join(Labels(columns), ',')) && '\n' !in Join(Labels(columns), ',')
  {
    forall i | 0 <= i < |columns| ensures CellShape(Labels(columns)[i]) && '\n' !in Labels(columns)[i] {
      assert PlainLabel(columns[i].heading);
    }
    RowHasSolidEnds(Labels(columns));
    LineEnd(Labels(columns));
    JoinContains(Labels(columns), ',', '\n');
  }

  lemma RowFacts(row: Row, columns: seq<Column>)
    requires |columns| >= 2 && RowOk(row)
    ensures Keeps(PrintRow(row, columns)) && ('\n' in PrintRow(row, columns) <==> !OneLine(row, columns))
  {
    PrintedShapes(row, columns);
    RowHasSolidEnds(PrintedCells(row, columns));
    LineEnd(PrintedCells(row, columns));
    JoinContains(PrintedCells(row, columns), ',', '\n');
  }

  lemma LineFacts(rows: seq<Row>, columns: seq<Column>, k: nat)
    requires ColumnsOk(columns) && k <= |rows| && forall i :: 0 <= i < |rows| ==> RowOk(rows[i])
    ensures Keeps(AllLines(rows, columns)[k])
    ensures '\n' in AllLines(rows, columns)[k] <==> k > 0 && !OneLine(rows[k - 1], columns)
  {
    if k == 0 {
      HeaderFacts(columns);
    } else {
      RowFacts(rows[k - 1], columns);
      assert AllLines(rows, columns)[k - 1 + 1] == PrintRow(rows[k - 1], columns);
    }
  }

  /** The document a reader should get: the labels, and each row's texts under them. */
  function Expected(rows: seq<Row>, columns: seq<Column>): Document {
    Document(Labels(columns),
             seq(|rows|, i requires 0 <= i < |rows| => RowOf(Labels(columns), CellTexts(rows[i], columns), |columns|)))
  }

  lemma NoMark(rows: seq<Row>, columns: seq<Column>)
    requires ColumnsOk(columns)
    ensures ToCsv(rows, columns) != "" && ToCsv(rows, columns)[0] != '\U{FEFF}'
  {
    assert PlainLabel(columns[0].heading);
    var header := Join(Labels(columns), ',');
    assert header[0] == columns[0].heading[0];
    assert AllLines(rows, columns)[0] == header;
  }

  lemma BrokenLinesMultiply(lines: seq<string>)
    requires lines != [] && (forall k :: 0 <= k < |lines| ==> Keeps(lines[k])) && exists k :: 0 <= k < |lines| && '\n' in lines[k]
    ensures |NonBlank(Unbroken(Split(Join(lines, '\n'), '\n')))| > |lines|
  {
    DocumentCounts(lines);
    SolidSurvive(Split(Join(lines, '\n'), '\n'));
  }

  lemma WholeLinesStay(lines: seq<string>)
    requires lines != [] && (forall k :: 0 <= k < |lines| ==> Keeps(lines[k])) && forall k :: 0 <= k < |lines| ==> '\n' !in lines[k]
    ensures NonBlank(Unbroken(Split(Join(lines, '\n'), '\n'))) == lines
  {
    SplitJoin(lines, '\n');
    KeptAsTheyAre(lines);
  }

  lemma LinesOfExport(rows: seq<Row>, columns: seq<Column>)
    requires ColumnsOk(columns)
    ensures LinesOf(ToCsv(rows, columns)) == NonBlank(Unbroken(Split(Join(AllLines(rows, columns), '\n'), '\n')))
  {
    NoMark(rows, columns);
  }

  lemma AllLinesKeep(rows: seq<Row>, columns: seq<Column>)
    requires ColumnsOk(columns) && forall i :: 0 <= i < |rows| ==> RowOk(rows[i])
    ensures var lines := AllLines(rows, columns);
            && (forall k :: 0 <= k < |lines| ==> Keeps(lines[k]))
            && forall k :: 0 <= k < |lines| ==> ('\n' in lines[k] <==> k > 0 && !OneLine(rows[k - 1], columns))
  {
    var lines := AllLines(rows, columns);
    forall k: nat | k < |lines|
      ensures Keeps(lines[k]) && ('\n' in lines[k] <==> k > 0 && !OneLine(rows[k - 1], columns))
    {
      LineFacts(rows, columns, k);
    }
  }

  lemma BrokenExport(rows: seq<Row>, columns: seq<Column>, i: nat)
    requires ColumnsOk(columns) && (forall i :: 0 <= i < |rows| ==> RowOk(rows[i]))
    requires i < |rows| && !OneLine(rows[i], columns)
    ensures |LinesOf(ToCsv(rows, columns))| > |rows| + 1
  {
    var lines := AllLines(rows, columns);
    AllLinesKeep(rows, columns);
    assert '\n' in lines[i + 1];
    BrokenLinesMultiply(lines);
    LinesOfExport(rows, columns);
  }

  lemma WholeExport(rows: seq<Row>, columns: seq<Column>)
    requires ColumnsOk(columns) && (forall i :: 0 <= i < |rows| ==> RowOk(rows[i]))
    requires forall i :: 0 <= i < |rows| ==> OneLine(rows[i], columns)
    ensures LinesOf(ToCsv(rows, columns)) == AllLines(rows, columns)
  {
    AllLinesKeep(rows, columns);
    WholeLinesStay(AllLines(rows, columns));
    LinesOfExport(rows, columns);
  }

  lemma DifferentCount(text: string, d: Document)
    requires |LinesOf(text)| > |d.rows| + 1
    ensures ParseCsv(text) != d
  {
  }

  lemma LinesReadBack(rows: seq<Row>, columns: seq<Column>)
    requires ColumnsOk(columns) && (forall i :: 0 <= i < |rows| ==> RowOk(rows[i]))
    requires LinesOf(ToCsv(rows, columns)) == AllLines(rows, columns)
    ensures ParseCsv(ToCsv(rows, columns)) == Expected(rows, columns)
  {
    HeaderRenders(columns);
    var d := ParseCsv(ToCsv(rows, columns));
    assert AllLines(rows, columns)[1..] == PrintRows(rows, columns);
    forall i | 0 <= i < |rows| ensures d.rows[i] == Expected(rows, columns).rows[i] {
      RowRenders(rows[i], columns);
    }
    assert d.rows == Expected(rows, columns).rows;
  }

  /**
   * An export reads back as what was exported exactly when no shown text holds a line feed: the reader cuts
   * the text into lines before it looks at quotes.
   */
  lemma ExportReadsBack(rows: seq<Row>, columns: seq<Column>)
    requires ColumnsOk(columns) && forall i :: 0 <= i < |rows| ==> RowOk(rows[i])
    ensures ParseCsv(ToCsv(rows, columns)) == Expected(rows, columns) <==> forall i :: 0 <= i < |rows| ==> OneLine(rows[i], columns)
  {
    if i: nat :| i < |rows| && !OneLine(rows[i], columns) {
      BrokenExport(rows, columns, i);
      DifferentCount(ToCsv(rows, columns), Expected(rows, columns));
    } else {
      WholeExport(rows, columns);
      LinesReadBack(rows, columns);
    }
  }

  /** Column by column: under each label stands the text of its own value. */
  lemma ExportedCells(rows: seq<Row>, columns: seq<Column>, i: nat, k: nat)
    requires ColumnsOk(columns) && i < |rows| && k < |columns|
    ensures columns[k].heading in Expected(rows, columns).rows[i]
    ensures Expected(rows, columns).rows[i][columns[k].heading] == CellText(Lookup(rows[i], columns[k].key), columns[k].kind)
  {
    RowOfMaps(Labels(columns), CellTexts(rows[i], columns), |columns|);
    assert Labels(columns)[k] == columns[k].heading;
  }

  /** No text column reads as a formula, and a text is changed only where it would have. */
  lemma TextIsInert(v: Value)
    ensures !IsFormula(CellText(v, TextColumn))
    ensures CellText(v, TextColumn) == ValueText(v) <==> !IsFormula(ValueText(v))
    ensures CellText(v, TextColumn) in {ValueText(v), "'" + ValueText(v)}
  {
    assert |"'" + ValueText(v)| != |ValueText(v)|;
  }

  /** The columns of the export, in order; those about money are the ones of `MONEY`. */
  const EXPORTED: seq<Column> := [
    Column("carId", "car_id", TextColumn), Column("carName", "car_name", TextColumn),
    Column("registrationNumber", "registration_number", TextColumn), Column("revenue", "revenue", NumberColumn),
    Column("bookingsCount", "bookings_count", NumberColumn), Column("utilizationRate", "utilization_rate", NumberColumn),
    Column("maintenanceDays", "maintenance_days", NumberColumn), Column("repairCost", "repair_cost", NumberColumn),
    Column("serviceCost", "service_cost", NumberColumn), Column("profitability", "profitability", NumberColumn)]

  const MONEY: set<string> := {"revenue", "repairCost", "serviceCost", "profitability"}

  function Visible(columns: seq<Column>, canMoney: bool): seq<Column> {
    if columns == [] then []
    else (if canMoney || columns[0].key !in MONEY then [columns[0]] else []) + Visible(columns[1..], canMoney)
  }

  predicate Lower(s: string) {
    s != "" && forall i :: 0 <= i < |s| ==> s[i] == '_' || 'a' <= s[i] <= 'z'
  }

  lemma LowerIsPlain(s: string)
    requires Lower(s)
    ensures PlainLabel(s)
  {
  }

  /** Leaving columns out keeps what the round trip asks of them, as long as two remain. */
  lemma {:induction false} VisibleKeeps(columns: seq<Column>, canMoney: bool)
    requires forall i, j :: 0 <= i < j < |columns| ==> columns[i].heading != columns[j].heading
    ensures var v := Visible(columns, canMoney);
            && (forall c :: c in v ==> c in columns)
            && forall i, j :: 0 <= i < j < |v| ==> v[i].heading != v[j].heading
  {
    if columns != [] {
      VisibleKeeps(columns[1..], canMoney);
      var rest := Visible(columns[1..], canMoney);
      forall j | 0 <= j < |rest| ensures rest[j].heading != columns[0].heading {
        assert rest[j] in columns[1..];
      }
    }
  }

  lemma TwoRemain(columns: seq<Column>, canMoney: bool)
    requires |columns| >= 2 && columns[0].key !in MONEY && columns[1].key !in MONEY
    ensures |Visible(columns, canMoney)| >= 2
  {
    assert |Visible(columns[1..], canMoney)| >= 1;
  }

  lemma VisibleStayOk(columns: seq<Column>, canMoney: bool)
    requires ColumnsOk(columns) && columns[0].key !in MONEY && columns[1].key !in MONEY
    ensures ColumnsOk(Visible(columns, canMoney))
  {
    var v := Visible(columns, canMoney);
    VisibleKeeps(columns, canMoney);
    TwoRemain(columns, canMoney);
    forall i | 0 <= i < |v| ensures PlainLabel(v[i].heading) {
      assert v[i] in columns;
    }
  }

  lemma ExportedLabels()
    ensures forall i :: 0 <= i < |EXPORTED| ==> PlainLabel(EXPORTED[i].heading)
  {
    forall i | 0 <= i < |EXPORTED| ensures PlainLabel(EXPORTED[i].heading) {
      LowerIsPlain(EXPORTED[i].heading);
    }
  }

  lemma ExportedDistinct()
    ensures forall i, j :: 0 <= i < j < |EXPORTED| ==> EXPORTED[i].heading != EXPORTED[j].heading
  {
    assert EXPORTED[5].heading[0] == 'u' && EXPORTED[6].heading[0] == 'm';
  }

  lemma PlainColumnsLead()
    ensures |EXPORTED| >= 2 && EXPORTED[0].key !in MONEY && EXPORTED[1].key !in MONEY
  {
    assert EXPORTED[0].key[0] == 'c' && EXPORTED[1].key[0] == 'c';
  }

  /** The columns of an export meet what the round trip asks of them, whoever asks for it. */
  lemma ExportColumnsOk(canMoney: bool)
    ensures ColumnsOk(Visible(EXPORTED, canMoney))
  {
    ExportedLabels();
    ExportedDistinct();
    PlainColumnsLead();
    VisibleStayOk(EXPORTED, canMoney);
  }

  /** Money shows to those who may see revenue, and to nobody else; all the rest shows to everybody. */
  lemma {:induction false} MoneyIsHidden(columns: seq<Column>, canMoney: bool, c: Column)
    ensures c in Visible(columns, canMoney) <==>
              c in columns && (canMoney || c.key !in {"revenue", "repairCost", "serviceCost", "profitability"})
  {
    if columns != [] {
      MoneyIsHidden(columns[1..], canMoney, c);
      assert c in columns <==> c == columns[0] || c in columns[1..];
    }
  }

  /** With the right to see money, the export shows its ten columns in their order. */
  lemma {:induction false} AllShowWithMoney(columns: seq<Column>)
    ensures Visible(columns, true) == columns
  {
    if columns != [] {
      AllShowWithMoney(columns[1..]);
      assert columns == [columns[0]] + columns[1..];
    }
  }

  /** A number stays a number: its own printed form, or a text that is one already. */
  lemma NumbersStay(v: Value)
    ensures v.Finite? ==> CellText(v, NumberColumn) == v.printed
    ensures v.Str? && IsPlainNumber(v.text) ==> CellText(v, NumberColumn) == v.text
    ensures !v.Finite? && !IsPlainNumber(ValueText(v)) ==> CellText(v, NumberColumn) == CellText(v, TextColumn)
  {
  }

  predicate AllDigits(s: string) {
    s != "" && forall i :: 0 <= i < |s| ==> IsDigit(s[i])
  }

  /** At k stands a point, with digits before it and after it. */
  predicate PointAt(s: string, k: int) {
    0 <= k < |s| && s[k] == '.' && AllDigits(s[..k]) && AllDigits(s[k + 1..])
  }

  lemma NumeralsAre(part: string)
    ensures part != "" && Number(part).Some? <==> AllDigits(part)
  {
    if AllDigits(part) { DigitsAreNumbers(part); }
    if Number(part).Some? { NumbersHaveDigits(part); }
  }

  lemma OnePart(s: string)
    ensures |Split(s, '.')| == 1 && Numerals(Split(s, '.')) <==> AllDigits(s)
  {
    var parts := Split(s, '.');
    JoinSplit(s, '.');
    NumeralsAre(s);
    if |parts| == 1 { assert parts[0] == s; }
    if AllDigits(s) { SplitWithoutSeparator(s, '.'); }
  }

  lemma TwoParts(s: string)
    ensures |Split(s, '.')| == 2 && Numerals(Split(s, '.')) <==> exists k :: PointAt(s, k)
  {
    var parts := Split(s, '.');
    JoinSplit(s, '.');
    if |parts| == 2 && Numerals(parts) {
      NumeralsAre(parts[0]);
      NumeralsAre(parts[1]);
      assert s == parts[0] + "." + parts[1];
      assert s[..|parts[0]|] == parts[0] && s[|parts[0]| + 1..] == parts[1];
      assert PointAt(s, |parts[0]|);
    }
    if k :| PointAt(s, k) {
      var a, b := s[..k], s[k + 1..];
      assert s == a + ['.'] + b;
      SplitAtFirst(a, b, '.');
      SplitWithoutSeparator(b, '.');
      NumeralsAre(a);
      NumeralsAre(b);
      assert Split(s, '.') == [a, b];
    }
  }

  lemma UnsignedAre(s: string)
    ensures IsUnsigned(s) <==> AllDigits(s) || exists k :: PointAt(s, k)
  {
    OnePart(s);
    TwoParts(s);
  }

  /** The numbers that a text column of numbers lets through: digits, perhaps a point and digits, perhaps a minus before them. */
  lemma PlainNumbersAre(s: string)
    ensures IsPlainNumber(s) <==>
              || AllDigits(s) || (exists k :: PointAt(s, k))
              || (s != "" && s[0] == '-' && (AllDigits(s[1..]) || exists k :: PointAt(s[1..], k)))
  {
    UnsignedAre(s);
    if s != "" { UnsignedAre(s[1..]); }
  }

  /** At k stands one of the four signs, and before it blanks and control characters alone. */
  predicate SignAt(s: string, k: int) {
    && 0 <= k < |s| && (s[k] == '=' || s[k] == '+' || s[k] == '-' || s[k] == '@')
    && forall i :: 0 <= i < k ==> IsSpace(s[i]) || s[i] <= '\U{001F}'
  }

  lemma SignInRest(s: string, k: int)
    requires s != "" && k != 0
    ensures SignAt(s, k) <==> (IsSpace(s[0]) || s[0] <= '\U{001F}') && SignAt(s[1..], k - 1)
  {
    if SignAt(s[1..], k - 1) && (IsSpace(s[0]) || s[0] <= '\U{001F}') {
      assert forall i :: 1 <= i < k ==> s[i] == s[1..][i - 1];
      assert s[k] == s[1..][k - 1];
    }
  }

  /** A formula begins, after blanks and control characters alone, with one of the four signs. */
  lemma {:induction false} FormulasBegin(s: string)
    ensures IsFormula(s) <==> exists k :: SignAt(s, k)
  {
    if s != "" {
      FormulasBegin(s[1..]);
      if s[0] in "=+-@" {
        assert SignAt(s, 0);
      } else if k :| SignAt(s[1..], k) {
        SignInRest(s, k + 1);
      }
      if k :| SignAt(s, k) && k != 0 {
        SignInRest(s, k);
        assert SignAt(s[1..], k - 1);
      }
    }
  }
}
