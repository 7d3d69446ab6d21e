/**
 * The CSV results export (app/api/export/csv/route.ts): a header line and
 * one line of nine cells per answer sheet, a cell wrapped in double quotes
 * only when it is a string holding a comma, and lines joined with a bare
 * line feed.
 *
 * The format is a partial take on section 2 of RFC 4180: quotes inside a
 * cell are not doubled (rule 7) and records end in LF instead of CRLF
 * (rule 1). `ParseRecord` is a reader for the quoted fields of rule 6
 * without doubled-quote escapes; the lemmas show it reads every exported
 * line back, except when a cell holds a double quote.
 */
module CsvExport {
  import opened Wrappers
  import opened Text
  import opened ExportCommon

  /** A cell before rendering: a string, a number, or null (rendered empty by `join`). */
  datatype Cell = Str(s: string) | Num(n: int) | Null

  const Headers: seq<string> :=
    ["student_id", "name", "roll_number", "class", "exam_name", "score", "max_score", "status", "date"]

  function OptCell(v: Option<string>): Cell {
    match v
    case None => Null
    case Some(s) => Str(s)
  }

  /**
   * The nine cells of a sheet. The `student_id` column holds the roll
   * number; a missing roll number or name becomes "N/A" or "Unknown", a
   * missing class the exam's class, and a missing or zero score 0.
   */
  function RowCells(exam: Exam, sheet: Sheet): (r: seq<Cell>)
    ensures |r| == |Headers|
    // student_id, name, roll_number
    ensures r[0] == r[2] == Str(OrText(RollNumberOf(sheet), "N/A"))
    ensures r[1] == Str(OrText(NameOf(sheet), "Unknown"))
    // class: the student's own when non-empty, the exam's otherwise
    ensures ClassOf(sheet).Some? && ClassOf(sheet).value != "" ==> r[3] == Str(ClassOf(sheet).value)
    ensures ClassOf(sheet).None? || ClassOf(sheet).value == "" ==> r[3] == OptCell(exam.className)
    // exam_name, score, max_score, status, date
    ensures r[4] == Str(exam.name)
    ensures sheet.totalScore.Some? ==> r[5] == Num(sheet.totalScore.value)
    ensures sheet.totalScore.None? ==> r[5] == Num(0)
    ensures exam.totalMarks.Some? ==> r[6] == Num(exam.totalMarks.value)
    ensures exam.totalMarks.None? ==> r[6] == Null
    ensures r[7] == OptCell(sheet.status) && r[8] == Str(sheet.date)
  {
    var roll := OrText(RollNumberOf(sheet), "N/A");
    var cls := if ClassOf(sheet).Some? && ClassOf(sheet).value != "" then Str(ClassOf(sheet).value)
               else OptCell(exam.className);
    [Str(roll), Str(OrText(NameOf(sheet), "Unknown")), Str(roll), cls, Str(exam.name),
     Num(if sheet.totalScore.Some? then sheet.totalScore.value else 0),
     if exam.totalMarks.Some? then Num(exam.totalMarks.value) else Null,
     OptCell(sheet.status), Str(sheet.date)]
  }

  /** The text a cell stands for. */
  function CellText(c: Cell): string {
    match c
    case Str(s) => s
    case Num(n) => IntToString(n)
    case Null => ""
  }

  /** A string cell holding a comma is wrapped in quotes; every other cell is its text. */
  function RenderCell(c: Cell): (r: string)
    ensures c.Str? && ',' in c.s ==> r == "\"" + c.s + "\""
    ensures !(c.Str? && ',' in c.s) ==> r == CellText(c)
  {
    if c.Str? && ',' in c.s then "\"" + c.s + "\"" else CellText(c)
  }

  function RenderCells(cs: seq<Cell>): (r: seq<string>)
    ensures |r| == |cs| && forall k :: 0 <= k < |cs| ==> r[k] == RenderCell(cs[k])
  {
    seq(|cs|, k requires 0 <= k < |cs| => RenderCell(cs[k]))
  }

  function RenderRow(cs: seq<Cell>): string {
    Join(RenderCells(cs), ",")
  }

  function Texts(cs: seq<Cell>): (r: seq<string>)
    ensures |r| == |cs| && forall k :: 0 <= k < |cs| ==> r[k] == CellText(cs[k])
  {
    seq(|cs|, k requires 0 <= k < |cs| => CellText(cs[k]))
  }

  function HeaderLine(): string {
    Join(Headers, ",")
  }

  function Lines(exam: Exam, sheets: seq<Sheet>): (r: seq<string>)
    ensures |r| == 1 + |sheets|
    ensures r[0] == HeaderLine()
    ensures r[1..] == SheetLines(exam, sheets)
  {
    [HeaderLine()] + SheetLines(exam, sheets)
  }

  /** One rendered line per sheet, in order. */
  function SheetLines(exam: Exam, sheets: seq<Sheet>): (r: seq<string>)
    ensures |r| == |sheets|
    ensures forall k :: 0 <= k < |sheets| ==> r[k] == RenderRow(RowCells(exam, sheets[k]))
  {
    seq(|sheets|, k requires 0 <= k < |sheets| => RenderRow(RowCells(exam, sheets[k])))
  }

  /** The body of the download: the lines joined by "\n", without a trailing newline. */
  function CsvText(exam: Exam, sheets: Option<seq<Sheet>>): string {
    Join(Lines(exam, sheets.GetOr([])), "\n")
  }

  function FileName(exam: Exam): string {
    ResultsFileName(exam.name, "csv")
  }

  datatype Response =
    | Refused(code: int)                      // 400, 401 or 404
    | Download(body: string, fileName: string)

  /** The route: the request checks, then the file. */
  function Export(examId: Option<string>, signedIn: bool, exam: Option<Exam>,
                  sheets: Option<seq<Sheet>>): (r: Response)
    ensures r.Refused? <==> !CheckRequest(examId, signedIn, exam).Proceed?
    ensures r.Download? ==> exam.Some? && r.body == CsvText(exam.value, sheets)
                            && r.fileName == FileName(exam.value)
  {
    var g := CheckRequest(examId, signedIn, exam);
    if g.Proceed? then Download(CsvText(g.exam, sheets), FileName(g.exam))
    else Refused(StatusCode(g))
  }

  // ---------------------------------------------------------------------
  // reading the export back
  // ---------------------------------------------------------------------

  /**
   * One record of section 2 of RFC 4180 without doubled quotes: a field is
   * either quoted (any text but `"` between two quotes) or plain (no quote
   * and no comma). `None` when the line breaks those rules.
   */
  function ParseRecord(line: string): Option<seq<string>>
    decreases |line|
  {
    if |line| > 0 && line[0] == '"' then
      if '"' in line[1..] then
        var j := 1 + IndexOf(line[1..], '"');
        var rest := line[j + 1..];
        if |rest| == 0 then Some([line[1..j]])
        else if rest[0] == ',' then Prepend(line[1..j], ParseRecord(rest[1..]))
        else None
      else None
    else if ',' in line then
      var k := IndexOf(line, ',');
      if '"' in line[..k] then None
      else Prepend(line[..k], ParseRecord(line[k + 1..]))
    else if '"' in line then None
    else Some([line])
  }

  function Prepend(field: string, r: Option<seq<string>>): Option<seq<string>> {
    match r
    case None => None
    case Some(fs) => Some([field] + fs)
  }

  /** All lines as records; `None` if any is malformed. */
  function ParseRecords(lines: seq<string>): Option<seq<seq<string>>> {
    if |lines| == 0 then Some([])
    else match (ParseRecord(lines[0]), ParseRecords(lines[1..]))
      case (Some(r), Some(rs)) => Some([r] + rs)
      case _ => None
  }

  function ParseCsv(text: string): Option<seq<seq<string>>> {
    ParseRecords(Split(text, '\n'))
  }

  /** No string cell holds a double quote. */
  predicate QuoteFree(cs: seq<Cell>) {
    forall k :: 0 <= k < |cs| ==> cs[k].Str? ==> '"' !in cs[k].s
  }

  /** No string cell holds a line feed. */
  predicate LineFree(cs: seq<Cell>) {
    forall k :: 0 <= k < |cs| ==> cs[k].Str? ==> '\n' !in cs[k].s
  }

  lemma IntTextPlain(n: int)
    ensures ',' !in IntToString(n) && '"' !in IntToString(n) && '\n' !in IntToString(n)
  {
    var t := IntToString(n);
    if n < 0 {
      assert t == "-" + NatToString(-n);
      assert forall i :: 1 <= i < |t| ==> IsDigit(t[i]) by {
        forall i | 1 <= i < |t| ensures IsDigit(t[i]) {
          assert t[i] == NatToString(-n)[i - 1];
        }
      }
    }
  }

  lemma JoinAvoids(parts: seq<string>, sep: string, c: char)
    requires c !in sep
    requires forall k :: 0 <= k < |parts| ==> c !in parts[k]
    ensures c !in Join(parts, sep)
    decreases |parts|
  {
    if |parts| > 1 {
      JoinAvoids(parts[1..], sep, c);
    }
  }

  /** The first quote of `s + "\"" + rest` is the one after `s` when `s` has none. */
  lemma IndexOfQuote(s: string, rest: string)
    requires '"' !in s
    ensures '"' in s + "\"" + rest && IndexOf(s + "\"" + rest, '"') == |s|
  {
    IndexOfAfter(s, rest, '"');
  }

  lemma ParseQuotedEnd(s: string)
    requires '"' !in s
    ensures ParseRecord("\"" + s + "\"") == Some([s])
  {
    var line := "\"" + s + "\"";
    assert line[1..] == s + "\"" + [];
    IndexOfQuote(s, []);
    assert line[1..1 + |s|] == s;
    assert line[2 + |s|..] == [];
  }

  lemma ParseQuotedMore(s: string, rest: string)
    requires '"' !in s
    ensures ParseRecord("\"" + s + "\"" + "," + rest) == Prepend(s, ParseRecord(rest))
  {
    var line := "\"" + s + "\"" + "," + rest;
    assert line[1..] == s + "\"" + ("," + rest);
    IndexOfQuote(s, "," + rest);
    assert line[1..1 + |s|] == s;
    assert line[2 + |s|..] == "," + rest;
    assert line[2 + |s|..][1..] == rest;
  }

  lemma ParsePlainEnd(t: string)
    requires ',' !in t && '"' !in t
    ensures ParseRecord(t) == Some([t])
  {
    if |t| > 0 { assert t[0] != '"'; }
  }

  lemma ParsePlainMore(t: string, rest: string)
    requires ',' !in t && '"' !in t
    ensures ParseRecord(t + "," + rest) == Prepend(t, ParseRecord(rest))
  {
    var line := t + "," + rest;
    IndexOfAfter(t, rest, ',');
    assert line[..|t|] == t;
    assert line[|t| + 1..] == rest;
    if |t| > 0 { assert line[0] == t[0] && t[0] != '"'; } else { assert line[0] == ','; }
  }

  /** The text of a cell that is not quoted has neither commas nor quotes. */
  lemma PlainCell(c: Cell)
    requires c.Str? ==> '"' !in c.s
    requires !(c.Str? && ',' in c.s)
    ensures RenderCell(c) == CellText(c) && ',' !in CellText(c) && '"' !in CellText(c)
  {
    if c.Num? { IntTextPlain(c.n); }
  }

  /** A line of quote-free cells reads back as the cells' texts. */
  lemma {:induction false} ParseRenderRow(cs: seq<Cell>)
    requires |cs| >= 1 && QuoteFree(cs)
    ensures ParseRecord(RenderRow(cs)) == Some(Texts(cs))
    decreases |cs|
  {
    if |cs| == 1 {
      ParseCellEnd(cs[0]);
      assert RenderCells(cs) == [RenderCell(cs[0])];
      assert Texts(cs) == [CellText(cs[0])];
    } else {
      assert QuoteFree(cs[1..]) by {
        forall k | 0 <= k < |cs| - 1 ensures cs[1..][k].Str? ==> '"' !in cs[1..][k].s {
          assert cs[1..][k] == cs[k + 1];
        }
      }
      ParseRenderRow(cs[1..]);
      RowCons(cs);
      ParseCellThen(cs[0], RenderRow(cs[1..]));
    }
  }

  /** A row of two or more cells is its first cell, a comma and the rest. */
  lemma RowCons(cs: seq<Cell>)
    requires |cs| >= 2
    ensures RenderRow(cs) == RenderCell(cs[0]) + "," + RenderRow(cs[1..])
    ensures Texts(cs) == [CellText(cs[0])] + Texts(cs[1..])
  {
    RenderCellsCons(cs);
    JoinCons(RenderCell(cs[0]), RenderCells(cs[1..]), ",");
    TextsCons(cs);
  }

  lemma RenderCellsCons(cs: seq<Cell>)
    requires |cs| >= 1
    ensures RenderCells(cs) == [RenderCell(cs[0])] + RenderCells(cs[1..])
  {
    var r := RenderCells(cs);
    var r1 := RenderCells(cs[1..]);
    forall k | 0 <= k < |r1| ensures r[1..][k] == r1[k] {
      assert cs[1..][k] == cs[k + 1];
    }
    assert r[1..] == r1;
    assert r == [r[0]] + r[1..];
  }

  lemma TextsCons(cs: seq<Cell>)
    requires |cs| >= 1
    ensures Texts(cs) == [CellText(cs[0])] + Texts(cs[1..])
  {
    var x := Texts(cs);
    var x1 := Texts(cs[1..]);
    forall k | 0 <= k < |x1| ensures x[1..][k] == x1[k] {
      assert cs[1..][k] == cs[k + 1];
    }
    assert x[1..] == x1;
    assert x == [x[0]] + x[1..];
  }

  /** A quote-free cell alone reads back as its text. */
  lemma ParseCellEnd(c: Cell)
    requires c.Str? ==> '"' !in c.s
    ensures ParseRecord(RenderCell(c)) == Some([CellText(c)])
  {
    if c.Str? && ',' in c.s { ParseQuotedEnd(c.s); } else { PlainCell(c); ParsePlainEnd(CellText(c)); }
  }

  /** A quote-free cell followed by a comma is read as its text, then the rest. */
  lemma ParseCellThen(c: Cell, rest: string)
    requires c.Str? ==> '"' !in c.s
    ensures ParseRecord(RenderCell(c) + "," + rest) == Prepend(CellText(c), ParseRecord(rest))
  {
    if c.Str? && ',' in c.s { ParseQuotedMore(c.s, rest); } else { PlainCell(c); ParsePlainMore(CellText(c), rest); }
  }

  /** A rendered row has a line feed only where a cell does. */
  lemma RowLineFree(cs: seq<Cell>)
    requires LineFree(cs)
    ensures '\n' !in RenderRow(cs)
  {
    var parts := RenderCells(cs);
    forall k | 0 <= k < |parts| ensures '\n' !in parts[k] {
      if cs[k].Num? { IntTextPlain(cs[k].n); }
    }
    JoinAvoids(parts, ",", '\n');
  }

  function HeaderCells(): seq<Cell> {
    seq(|Headers|, k requires 0 <= k < |Headers| => Str(Headers[k]))
  }

  /** No header name holds a comma, a quote or a line feed. */
  lemma HeaderPlain()
    ensures forall k :: 0 <= k < |Headers| ==> PlainName(Headers[k])
    ensures Texts(HeaderCells()) == Headers
    ensures |HeaderCells()| >= 1 && QuoteFree(HeaderCells()) && LineFree(HeaderCells())
  {
    forall k | 0 <= k < |Headers| ensures PlainName(Headers[k]) {
      NameIsPlain(Headers[k]);
    }
  }

  predicate NameChar(c: char) {
    'a' <= c <= 'z' || c == '_'
  }

  predicate PlainName(s: string) {
    ',' !in s && '"' !in s && '\n' !in s
  }

  lemma NameIsPlain(s: string)
    requires forall i :: 0 <= i < |s| ==> NameChar(s[i])
    ensures PlainName(s)
  {
  }

  lemma HeaderIsRow()
    ensures HeaderLine() == RenderRow(HeaderCells())
  {
    HeaderPlain();
    assert RenderCells(HeaderCells()) == Headers;
  }

  /** The cell rows of all sheets, in order. */
  function Rows(exam: Exam, sheets: seq<Sheet>): (r: seq<seq<Cell>>)
    ensures |r| == |sheets|
    ensures forall k :: 0 <= k < |sheets| ==> r[k] == RowCells(exam, sheets[k])
  {
    seq(|sheets|, k requires 0 <= k < |sheets| => RowCells(exam, sheets[k]))
  }

  function TextRows(rows: seq<seq<Cell>>): (r: seq<seq<string>>)
    ensures |r| == |rows| && forall k :: 0 <= k < |rows| ==> r[k] == Texts(rows[k])
  {
    seq(|rows|, k requires 0 <= k < |rows| => Texts(rows[k]))
  }

  /** Every row has a cell and no string cell holds a quote or a line feed. */
  predicate PlainRows(rows: seq<seq<Cell>>) {
    forall k :: 0 <= k < |rows| ==> |rows[k]| >= 1 && QuoteFree(rows[k]) && LineFree(rows[k])
  }

  lemma {:induction false} ParseLines(rows: seq<seq<Cell>>, lines: seq<string>)
    requires PlainRows(rows)
    requires |lines| == |rows|
    requires forall k :: 0 <= k < |rows| ==> lines[k] == RenderRow(rows[k])
    ensures ParseRecords(lines) == Some(TextRows(rows))
    decreases |rows|
  {
    if |rows| > 0 {
      var rest := rows[1..];
      forall k | 0 <= k < |rest|
        ensures |rest[k]| >= 1 && QuoteFree(rest[k]) && LineFree(rest[k])
        ensures lines[1..][k] == RenderRow(rest[k])
      {
        assert rest[k] == rows[k + 1];
      }
      ParseRenderRow(rows[0]);
      ParseLines(rest, lines[1..]);
      TextRowsCons(rows);
    }
  }

  lemma TextRowsCons(rows: seq<seq<Cell>>)
    requires |rows| >= 1
    ensures TextRows(rows) == [Texts(rows[0])] + TextRows(rows[1..])
  {
    var r := TextRows(rows);
    var r1 := TextRows(rows[1..]);
    forall k | 0 <= k < |r1| ensures r[1..][k] == r1[k] {
      assert rows[1..][k] == rows[k + 1];
    }
    assert r[1..] == r1;
    assert r == [r[0]] + r[1..];
  }

  /** The header line has no line feed and reads back as the header names. */
  lemma HeaderParses()
    ensures '\n' !in HeaderLine()
    ensures ParseRecord(HeaderLine()) == Some(Headers)
  {
    HeaderIsRow();
    HeaderPlain();
    RowLineFree(HeaderCells());
    ParseRenderRow(HeaderCells());
  }

  lemma {:induction false} RowsLineFree(rows: seq<seq<Cell>>, lines: seq<string>)
    requires PlainRows(rows)
    requires |lines| == |rows|
    requires forall k :: 0 <= k < |rows| ==> lines[k] == RenderRow(rows[k])
    ensures forall k :: 0 <= k < |lines| ==> '\n' !in lines[k]
  {
    forall k | 0 <= k < |lines| ensures '\n' !in lines[k] {
      RowLineFree(rows[k]);
    }
  }

  /** The header line and the rows' lines, joined and split again, then read. */
  lemma {:induction false} ReadsBack(rows: seq<seq<Cell>>, lines: seq<string>)
    requires PlainRows(rows)
    requires |lines| == |rows| + 1
    requires '\n' !in lines[0] && ParseRecord(lines[0]) == Some(Headers)
    requires forall k :: 0 <= k < |rows| ==> lines[k + 1] == RenderRow(rows[k])
    ensures Split(Join(lines, "\n"), '\n') == lines
    ensures ParseRecords(lines) == Some([Headers] + TextRows(rows))
  {
    RowsLineFree(rows, lines[1..]);
    assert forall k :: 0 <= k < |lines| ==> '\n' !in lines[k] by {
      forall k | 0 <= k < |lines| ensures '\n' !in lines[k] {
        if k > 0 { assert lines[k] == lines[1..][k - 1]; }
      }
    }
    SplitJoin(lines, '\n');
    ParseLines(rows, lines[1..]);
  }

  /** Every sheet's row is free of quotes and line feeds. */
  predicate PlainSheets(exam: Exam, sheets: seq<Sheet>) {
    PlainRows(Rows(exam, sheets))
  }

  /**
   * The export reads back as the header followed by one record of nine
   * texts per sheet, when no cell holds a quote or a line feed; so the
   * body has exactly one line more than there are sheets.
   */
  lemma CsvReadsBack(exam: Exam, sheets: seq<Sheet>)
    requires PlainSheets(exam, sheets)
    ensures Split(CsvText(exam, Some(sheets)), '\n') == Lines(exam, sheets)
    ensures ParseCsv(CsvText(exam, Some(sheets))) == Some([Headers] + TextRows(Rows(exam, sheets)))
  {
    var lines := Lines(exam, sheets);
    var rows := Rows(exam, sheets);
    assert CsvText(exam, Some(sheets)) == Join(lines, "\n");
    forall k | 0 <= k < |rows| ensures lines[k + 1] == RenderRow(rows[k]) {
      assert lines[k + 1] == lines[1..][k];
    }
    HeaderParses();
    ReadsBack(rows, lines);
  }

  /** The `student_id` column repeats the roll number, and missing fields take their defaults. */
  lemma RowDefaults(exam: Exam, sheet: Sheet)
    ensures var r := RowCells(exam, sheet);
            r[0] == r[2]
            && (RollNumberOf(sheet).None? ==> r[0] == Str("N/A"))
            && (NameOf(sheet).None? ==> r[1] == Str("Unknown"))
            && (ClassOf(sheet).None? ==> r[3] == OptCell(exam.className))
            && (sheet.totalScore.None? ==> r[5] == Num(0))
            && r[4] == Str(exam.name)
  {
  }

  /** A cell holding both a quote and a comma breaks the line: it cannot be read back. */
  lemma QuoteBreaksRecord()
    ensures RenderRow([Str("a\",b")]) == "\"a\",b\""
    ensures ParseRecord(RenderRow([Str("a\",b")])) == None
  {
    RenderQuoteComma();
    ParseQuoteComma();
  }

  lemma RenderQuoteComma()
    ensures RenderRow([Str("a\",b")]) == "\"a\",b\""
  {
    assert "a\",b"[2] == ',';
    assert RenderCell(Str("a\",b")) == "\"a\",b\"";
    assert RenderCells([Str("a\",b")]) == ["\"a\",b\""];
  }

  /** The field closes at the quote inside the cell, and the text after the comma has a stray quote. */
  lemma ParseQuoteComma()
    ensures ParseRecord("\"a\",b\"") == None
  {
    var line := "\"a\",b\"";
    assert line[1..] == "a\",b\"";
    assert IndexOf(line[1..], '"') == 1;
    assert line[3..] == ",b\"";
    var last := "b\"";
    assert line[3..][1..] == last;
    assert ',' !in last && '"' in last;
    assert ParseRecord(last) == None;
  }

  // ---------------------------------------------------------------------
  // section 2 of RFC 4180
  // ---------------------------------------------------------------------

  /** Each double quote written twice, as rule 7 asks inside a quoted field. */
  function DoubleQuotes(s: string): (r: string)
    ensures '"' !in s ==> r == s
  {
    if |s| == 0 then ""
    else (if s[0] == '"' then "\"\"" else [s[0]]) + DoubleQuotes(s[1..])
  }

  /** A field as rule 6 and rule 7 write it: quoted when it holds a comma, quote or line break. */
  function Rfc4180Field(s: string): string {
    if ',' in s || '"' in s || '\n' in s || '\r' in s then "\"" + DoubleQuotes(s) + "\"" else s
  }

  /** Without quotes and line breaks a string cell is written as the standard writes it. */
  lemma AgreesWithRfc4180(s: string)
    requires '"' !in s && '\n' !in s && '\r' !in s
    ensures RenderCell(Str(s)) == Rfc4180Field(s)
  {
  }

  /** A quote in a cell without a comma is written bare, where the standard quotes and doubles it. */
  lemma BareQuoteDiffers()
    ensures RenderCell(Str("a\"b")) == "a\"b"
    ensures Rfc4180Field("a\"b") == "\"a\"\"b\""
  {
    assert ',' !in "a\"b";
    assert DoubleQuotes("a\"b") == "a\"\"b" by {
      assert DoubleQuotes("b") == "b";
      assert DoubleQuotes("\"b") == "\"\"" + "b";
    }
  }
}
