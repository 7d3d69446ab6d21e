/**
 * What the CSV and Excel result exports (app/api/export/csv/route.ts and
 * app/api/export/excel/route.ts) share: the request checks, the exam and
 * answer-sheet records they read, and the download file name.
 */
module ExportCommon {
  import opened Wrappers

  /** The exam row the exports select. */
  datatype Exam = Exam(name: string, subject: Option<string>, className: Option<string>,
                       totalMarks: Option<int>)

  /** The student joined to an answer sheet. */
  datatype Student = Student(name: Option<string>, rollNumber: Option<string>, className: Option<string>)

  /**
   * An answer sheet with its joined student; `date` is the creation time
   * already rendered as the export prints it.
   */
  datatype Sheet = Sheet(totalScore: Option<int>, status: Option<string>, date: string,
                         student: Option<Student>)

  /** The outcome of the checks made before anything is exported. */
  datatype Gate =
    | MissingExamId               // 400 "exam_id required"
    | NotAuthenticated            // 401
    | ExamNotFound                // 404
    | Proceed(exam: Exam)

  /** The checks in the order the routes make them: exam id, then user, then exam. */
  function CheckRequest(examId: Option<string>, signedIn: bool, exam: Option<Exam>): (g: Gate)
    ensures g == MissingExamId <==> examId.None? || examId.value == ""
    ensures g == NotAuthenticated <==> examId.Some? && examId.value != "" && !signedIn
    ensures g == ExamNotFound <==> examId.Some? && examId.value != "" && signedIn && exam.None?
    ensures g.Proceed? ==> exam == Some(g.exam)
  {
    if examId.None? || examId.value == "" then MissingExamId
    else if !signedIn then NotAuthenticated
    else match exam
      case None => ExamNotFound
      case Some(e) => Proceed(e)
  }

  /** The status code each refusal is sent with. */
  function StatusCode(g: Gate): (code: int)
    requires !g.Proceed?
    ensures code in {400, 401, 404}
  {
    match g
    case MissingExamId => 400
    case NotAuthenticated => 401
    case ExamNotFound => 404
  }

  /** A sheet's student field, or nothing when the student is missing. */
  function RollNumberOf(s: Sheet): Option<string> {
    if s.student.Some? then s.student.value.rollNumber else None
  }

  function NameOf(s: Sheet): Option<string> {
    if s.student.Some? then s.student.value.name else None
  }

  function ClassOf(s: Sheet): Option<string> {
    if s.student.Some? then s.student.value.className else None
  }

  predicate IsAsciiAlnum(c: char) {
    ('a' <= c <= 'z') || ('A' <= c <= 'Z') || ('0' <= c <= '9')
  }

  /** Every character outside `[A-Za-z0-9]` replaced by `_`. */
  function Sanitize(s: string): (r: string)
    ensures |r| == |s|
    ensures forall k :: 0 <= k < |s| ==> (IsAsciiAlnum(s[k]) ==> r[k] == s[k]) && (!IsAsciiAlnum(s[k]) ==> r[k] == '_')
  {
    seq(|s|, k requires 0 <= k < |s| => if IsAsciiAlnum(s[k]) then s[k] else '_')
  }

  /** A sanitised name holds only letters, digits and underscores. */
  lemma SanitizedAlphabet(s: string)
    ensures forall k :: 0 <= k < |Sanitize(s)| ==> IsAsciiAlnum(Sanitize(s)[k]) || Sanitize(s)[k] == '_'
  {
  }

  /** Sanitising twice changes nothing more. */
  lemma SanitizeIdempotent(s: string)
    ensures Sanitize(Sanitize(s)) == Sanitize(s)
  {
  }

  /** A name made only of letters and digits is kept as it is. */
  lemma SanitizeKeepsAlnum(s: string)
    requires forall k :: 0 <= k < |s| ==> IsAsciiAlnum(s[k])
    ensures Sanitize(s) == s
  {
  }

  /** `{name}_results.{ext}` with the exam name sanitised. */
  function ResultsFileName(examName: string, ext: string): string {
    Sanitize(examName) + "_results." + ext
  }
}
