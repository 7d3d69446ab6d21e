/**
 * The Excel results export (app/api/export/excel/route.ts): one results
 * row per answer sheet and a summary sheet with the row count and the
 * rounded average score. Only the data handed to the workbook writer is
 * modelled.
 */
module ExcelExport {
  import opened Wrappers
  import opened Numbers
  import opened Text
  import opened ExportCommon
  import CsvExport

  /** A row of the Results sheet. */
  datatype ResultRow = ResultRow(serial: int, rollNumber: string, studentName: string,
                                 className: Option<string>, score: int, maxMarks: Option<int>,
                                 percentage: string, status: Option<string>, date: string)

  /**
   * The Percentage column: "0%" for a missing or zero score; otherwise the
   * rounded share of the exam's marks. Dividing by missing or zero marks
   * gives an infinite share in JavaScript, printed as such.
   */
  function PercentageText(score: Option<int>, totalMarks: Option<int>): (t: string)
    ensures score.None? || score.value == 0 ==> t == "0%"
    ensures score.Some? && score.value != 0 && totalMarks.Some? && totalMarks.value != 0 ==>
              t == IntToString(RoundedShare(score.value, totalMarks.value)) + "%"
  {
    if score.None? || score.value == 0 then "0%"
    else if totalMarks.Some? && totalMarks.value != 0 then
      IntToString(RoundedShare(score.value, totalMarks.value)) + "%"
    else if score.value > 0 then "Infinity%"
    else "-Infinity%"
  }

  /** `Math.round(score / marks * 100)`. */
  function RoundedShare(score: int, marks: int): (p: int)
    requires marks != 0
    ensures p as real - 0.5 <= score as real / marks as real * 100.0 < p as real + 0.5
  {
    Round(score as real / marks as real * 100.0)
  }

  /** The row of the sheet at position `index`: `S.No` counts from 1. */
  function RowOf(exam: Exam, sheet: Sheet, index: nat): (r: ResultRow)
    ensures r.serial == index + 1
    ensures r.score == (if sheet.totalScore.Some? then sheet.totalScore.value else 0)
    ensures r.percentage == PercentageText(sheet.totalScore, exam.totalMarks)
  {
    ResultRow(index + 1, OrText(RollNumberOf(sheet), "N/A"), OrText(NameOf(sheet), "Unknown"),
              if ClassOf(sheet).Some? && ClassOf(sheet).value != "" then ClassOf(sheet) else exam.className,
              if sheet.totalScore.Some? then sheet.totalScore.value else 0,
              exam.totalMarks, PercentageText(sheet.totalScore, exam.totalMarks),
              sheet.status, sheet.date)
  }

  /** One row per sheet, in order; no rows when the sheet list is missing. */
  function Rows(exam: Exam, sheets: Option<seq<Sheet>>): (r: seq<ResultRow>)
    ensures |r| == |sheets.GetOr([])|
    ensures forall k :: 0 <= k < |r| ==> r[k] == RowOf(exam, sheets.value[k], k)
  {
    var ss := sheets.GetOr([]);
    seq(|ss|, k requires 0 <= k < |ss| => RowOf(exam, ss[k], k))
  }

  function Scores(rows: seq<ResultRow>): (r: seq<int>)
    ensures |r| == |rows| && forall k :: 0 <= k < |rows| ==> r[k] == rows[k].score
  {
    seq(|rows|, k requires 0 <= k < |rows| => rows[k].score)
  }

  /** The summary's figures. */
  datatype Summary = Summary(examName: string, subject: Option<string>, className: Option<string>,
                             totalMarks: Option<int>, totalStudents: nat, averageScore: int)

  /** The rounded mean of the rows' scores, 0 without rows. */
  function AverageScore(rows: seq<ResultRow>): (a: int)
    ensures |rows| == 0 ==> a == 0
    ensures |rows| > 0 ==>
              a as real - 0.5 <= IntSum(Scores(rows)) as real / |rows| as real < a as real + 0.5
  {
    if |rows| > 0 then Round(IntSum(Scores(rows)) as real / |rows| as real) else 0
  }

  function SummaryOf(exam: Exam, rows: seq<ResultRow>): (s: Summary)
    ensures s.totalStudents == |rows| && s.averageScore == AverageScore(rows)
    ensures s.examName == exam.name && s.totalMarks == exam.totalMarks
  {
    Summary(exam.name, exam.subject, exam.className, exam.totalMarks, |rows|, AverageScore(rows))
  }

  datatype Response =
    | Refused(code: int)
    | Workbook(summary: Summary, results: seq<ResultRow>, fileName: string)

  /** The route: the request checks, then the two sheets of the workbook. */
  function Export(examId: Option<string>, signedIn: bool, exam: Option<Exam>,
                  sheets: Option<seq<Sheet>>): (r: Response)
    ensures r.Refused? <==> !CheckRequest(examId, signedIn, exam).Proceed?
    ensures r.Refused? ==> r.code == StatusCode(CheckRequest(examId, signedIn, exam))
    ensures r.Workbook? ==> exam.Some? && r.results == Rows(exam.value, sheets)
                            && r.summary == SummaryOf(exam.value, r.results)
                            && r.fileName == ResultsFileName(exam.value.name, "xlsx")
  {
    var g := CheckRequest(examId, signedIn, exam);
    if g.Proceed? then
      var rows := Rows(g.exam, sheets);
      Workbook(SummaryOf(g.exam, rows), rows, ResultsFileName(g.exam.name, "xlsx"))
    else Refused(StatusCode(g))
  }

  lemma {:induction false} IntSumBounds(xs: seq<int>, lo: int, hi: int)
    requires forall k :: 0 <= k < |xs| ==> lo <= xs[k] <= hi
    ensures |xs| * lo <= IntSum(xs) <= |xs| * hi
  {
    if |xs| > 0 {
      var init := xs[..|xs| - 1];
      var n := |init|;
      assert forall k :: 0 <= k < n ==> init[k] == xs[k];
      IntSumBounds(init, lo, hi);
      assert IntSum(xs) == IntSum(init) + xs[n];
      assert |xs| * lo == n * lo + lo && |xs| * hi == n * hi + hi;
    }
  }

  /** Scores within the exam's marks give a summary average within them too. */
  lemma AverageWithinMarks(rows: seq<ResultRow>, marks: int)
    requires forall k :: 0 <= k < |rows| ==> 0 <= rows[k].score <= marks
    ensures 0 <= AverageScore(rows) <= if |rows| == 0 then 0 else marks
  {
    if |rows| > 0 {
      var n := |rows| as real;
      var t := IntSum(Scores(rows));
      IntSumBounds(Scores(rows), 0, marks);
      QuotientBounds(t as real, n, 0.0, marks as real);
      RoundBetween(t as real / n, 0, marks);
    }
  }

  /** A positive score within positive marks prints a percentage between 0 and 100 that reads back. */
  lemma PercentageReadsBack(score: int, marks: int)
    requires 0 < score <= marks
    ensures 0 <= RoundedShare(score, marks) <= 100
    ensures PercentageText(Some(score), Some(marks)) == IntToString(RoundedShare(score, marks)) + "%"
    ensures ParseInt(IntToString(RoundedShare(score, marks))) == Some(RoundedShare(score, marks))
  {
    var q := score as real / marks as real;
    assert q * marks as real == score as real;
    assert 0.0 < q <= 1.0;
    RoundBetween(q * 100.0, 0, 100);
    ParseIntToString(RoundedShare(score, marks));
  }

  /** The workbook's row and the CSV line of a sheet carry the same roll number, name and score. */
  lemma AgreesWithCsv(exam: Exam, sheet: Sheet, index: nat)
    ensures var cells := CsvExport.RowCells(exam, sheet);
            var row := RowOf(exam, sheet, index);
            cells[0] == CsvExport.Str(row.rollNumber) && cells[1] == CsvExport.Str(row.studentName)
            && cells[5] == CsvExport.Num(row.score)
  {
  }
}
