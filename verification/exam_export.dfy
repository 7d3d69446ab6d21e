/**
 * The exam export dialog (app/dashboard/exams/export-dialog.tsx): the
 * plain-text export, the order of the questions, where the PDF export puts
 * each question, the download file names and the dialog's flags. The
 * documents themselves are written by libraries that are not modelled;
 * the model stops at the data handed to them.
 */
module ExamExport {
  import opened Wrappers
  import opened Text

  /** An entry of the exam's marking scheme. */
  datatype Question = Question(num: int, text: string, maxMarks: int)

  /**
   * The exam as the dialog reads it; a missing field prints as "null",
   * as a template literal prints it. `date` is already formatted.
   */
  datatype Exam = Exam(name: string, subject: Option<string>, className: Option<string>,
                       date: string, totalMarks: Option<int>, scheme: Option<seq<Question>>)

  // ---------------------------------------------------------------------
  // the question order: a stable sort on the question number
  // ---------------------------------------------------------------------

  ghost predicate SortedByNum(s: seq<Question>) {
    forall i, j :: 0 <= i < j < |s| ==> s[i].num <= s[j].num
  }

  /** Inserts `q` after every question whose number is not greater. */
  function Insert(s: seq<Question>, q: Question): (r: seq<Question>)
    ensures |r| == |s| + 1
  {
    if |s| == 0 then [q]
    else if s[0].num > q.num then [q] + s
    else [s[0]] + Insert(s[1..], q)
  }

  /** Inserting adds exactly `q`. */
  lemma {:induction false} InsertPermutes(s: seq<Question>, q: Question)
    ensures multiset(Insert(s, q)) == multiset(s) + multiset{q}
    decreases |s|
  {
    if |s| > 0 && s[0].num <= q.num {
      InsertPermutes(s[1..], q);
      assert s == [s[0]] + s[1..];
    }
  }

  /** A bound met by `q` and every element is met by every element after inserting. */
  lemma {:induction false} InsertLowerBound(s: seq<Question>, q: Question, m: int)
    requires q.num >= m && forall k :: 0 <= k < |s| ==> s[k].num >= m
    ensures forall k :: 0 <= k < |s| + 1 ==> Insert(s, q)[k].num >= m
    decreases |s|
  {
    if |s| > 0 && s[0].num <= q.num {
      InsertLowerBound(s[1..], q, m);
      var t := Insert(s[1..], q);
      assert Insert(s, q) == [s[0]] + t;
    }
  }

  /** Inserting into a sorted list keeps it sorted. */
  lemma {:induction false} InsertSorted(s: seq<Question>, q: Question)
    requires SortedByNum(s)
    ensures SortedByNum(Insert(s, q))
    decreases |s|
  {
    if |s| > 0 && s[0].num <= q.num {
      var t := Insert(s[1..], q);
      InsertSorted(s[1..], q);
      InsertLowerBound(s[1..], q, s[0].num);
      var r := [s[0]] + t;
      assert Insert(s, q) == r;
      forall i, j | 0 <= i < j < |r| ensures r[i].num <= r[j].num {
        if i > 0 { assert r[i] == t[i - 1] && r[j] == t[j - 1]; }
        else { assert r[j] == t[j - 1]; }
      }
    }
  }

  /**
   * `sort((a, b) => a.question_num - b.question_num)`: ascending question
   * number; the sort is stable, so equal numbers keep their order.
   */
  function SortByNum(qs: seq<Question>): (r: seq<Question>)
    ensures |r| == |qs|
    ensures SortedByNum(r)
  {
    if |qs| == 0 then []
    else
      InsertSorted(SortByNum(qs[..|qs| - 1]), qs[|qs| - 1]);
      Insert(SortByNum(qs[..|qs| - 1]), qs[|qs| - 1])
  }

  /** The sort rearranges the questions: none is lost or added. */
  lemma {:induction false} SortPermutes(qs: seq<Question>)
    ensures multiset(SortByNum(qs)) == multiset(qs)
    decreases |qs|
  {
    if |qs| > 0 {
      SortPermutes(qs[..|qs| - 1]);
      PermuteStep(qs, SortByNum(qs[..|qs| - 1]));
    }
  }

  lemma PermuteStep(qs: seq<Question>, sorted: seq<Question>)
    requires |qs| > 0 && multiset(sorted) == multiset(qs[..|qs| - 1])
    ensures multiset(Insert(sorted, qs[|qs| - 1])) == multiset(qs)
  {
    var init, last := qs[..|qs| - 1], qs[|qs| - 1];
    InsertPermutes(sorted, last);
    assert qs == init + [last];
  }

  /** The questions numbered `n`, in their order. */
  function WithNum(s: seq<Question>, n: int): seq<Question> {
    if |s| == 0 then []
    else (if s[0].num == n then [s[0]] else []) + WithNum(s[1..], n)
  }

  lemma WithNumCons(x: Question, xs: seq<Question>, n: int)
    ensures WithNum([x] + xs, n) == (if x.num == n then [x] else []) + WithNum(xs, n)
  {
    assert ([x] + xs)[1..] == xs;
  }

  lemma {:induction false} WithNumAppend(a: seq<Question>, b: seq<Question>, n: int)
    ensures WithNum(a + b, n) == WithNum(a, n) + WithNum(b, n)
    decreases |a|
  {
    if |a| == 0 {
      assert a + b == b;
    } else {
      assert a + b == [a[0]] + (a[1..] + b);
      WithNumCons(a[0], a[1..] + b, n);
      WithNumAppend(a[1..], b, n);
      assert a == [a[0]] + a[1..];
      WithNumCons(a[0], a[1..], n);
    }
  }

  lemma {:induction false} WithNumNone(s: seq<Question>, n: int)
    requires forall k :: 0 <= k < |s| ==> s[k].num != n
    ensures WithNum(s, n) == []
    decreases |s|
  {
    if |s| > 0 {
      WithNumNone(s[1..], n);
    }
  }

  lemma {:induction false} InsertWithNum(s: seq<Question>, q: Question, n: int)
    requires SortedByNum(s)
    ensures WithNum(Insert(s, q), n) == WithNum(s, n) + (if q.num == n then [q] else [])
    decreases |s|
  {
    var extra: seq<Question> := if q.num == n then [q] else [];
    if |s| == 0 {
      WithNumCons(q, [], n);
    } else if s[0].num > q.num {
      assert Insert(s, q) == [q] + s;
      WithNumCons(q, s, n);
      if q.num == n {
        WithNumNone(s, n);
      }
    } else {
      var t := Insert(s[1..], q);
      assert Insert(s, q) == [s[0]] + t;
      WithNumCons(s[0], t, n);
      InsertWithNum(s[1..], q, n);
      assert s == [s[0]] + s[1..];
      WithNumCons(s[0], s[1..], n);
      var head: seq<Question> := if s[0].num == n then [s[0]] else [];
      assert head + (WithNum(s[1..], n) + extra) == (head + WithNum(s[1..], n)) + extra;
    }
  }

  /** The sort is stable: the questions with any one number keep their relative order. */
  lemma {:induction false} SortIsStable(qs: seq<Question>, n: int)
    ensures WithNum(SortByNum(qs), n) == WithNum(qs, n)
    decreases |qs|
  {
    if |qs| > 0 {
      var init := qs[..|qs| - 1];
      var last := qs[|qs| - 1];
      SortIsStable(init, n);
      InsertWithNum(SortByNum(init), last, n);
      assert qs == init + [last];
      WithNumAppend(init, [last], n);
      WithNumCons(last, [], n);
    }
  }

  /** Questions already in order are left as they are. */
  lemma {:induction false} SortKeepsSorted(qs: seq<Question>)
    requires SortedByNum(qs)
    ensures SortByNum(qs) == qs
    decreases |qs|
  {
    if |qs| > 0 {
      var init := qs[..|qs| - 1];
      var last := qs[|qs| - 1];
      SortedSplit(qs);
      SortKeepsSorted(init);
      InsertAtEnd(init, last);
      assert qs == init + [last];
    }
  }

  /** A sorted list without its last question is sorted, and that question is not below any other. */
  lemma SortedSplit(qs: seq<Question>)
    requires |qs| > 0 && SortedByNum(qs)
    ensures SortedByNum(qs[..|qs| - 1])
    ensures forall k :: 0 <= k < |qs| - 1 ==> qs[k].num <= qs[|qs| - 1].num
  {
    var init := qs[..|qs| - 1];
    assert forall k :: 0 <= k < |init| ==> init[k] == qs[k];
  }

  lemma {:induction false} InsertAtEnd(s: seq<Question>, q: Question)
    requires forall k :: 0 <= k < |s| ==> s[k].num <= q.num
    ensures Insert(s, q) == s + [q]
    decreases |s|
  {
    if |s| > 0 {
      InsertAtEnd(s[1..], q);
      assert s == [s[0]] + s[1..];
    }
  }

  /** The scheme as the exports list it: sorted, or empty when the exam has none. */
  function OrderedScheme(e: Exam): seq<Question> {
    match e.scheme
    case None => []
    case Some(qs) => SortByNum(qs)
  }

  // ---------------------------------------------------------------------
  // the text export
  // ---------------------------------------------------------------------

  function FieldText(v: Option<string>): string {
    match v
    case None => "null"
    case Some(s) => s
  }

  function MarksText(v: Option<int>): string {
    match v
    case None => "null"
    case Some(n) => IntToString(n)
  }

  /** The lines above the questions: name, subject, class, date, marks, a blank line, the heading. */
  function HeaderLines(e: Exam): (r: seq<string>)
    ensures |r| == 7 && r[0] == e.name && r[5] == "" && r[6] == "QUESTIONS:"
  {
    [e.name, "Subject: " + FieldText(e.subject), "Class: " + FieldText(e.className),
     "Date: " + e.date, "Total Marks: " + MarksText(e.totalMarks), "", "QUESTIONS:"]
  }

  /** A question's block: an empty line, then `Q{n}. {text} ({max} Marks)`. */
  function QuestionBlock(q: Question): string {
    "\nQ" + IntToString(q.num) + ". " + q.text + " (" + IntToString(q.maxMarks) + " Marks)\n"
  }

  function Concat(parts: seq<string>): string {
    if |parts| == 0 then "" else parts[0] + Concat(parts[1..])
  }

  function Blocks(qs: seq<Question>): (r: seq<string>)
    ensures |r| == |qs| && forall k :: 0 <= k < |qs| ==> r[k] == QuestionBlock(qs[k])
  {
    seq(|qs|, k requires 0 <= k < |qs| => QuestionBlock(qs[k]))
  }

  /** The text file's content: the header lines, each ended by a line feed, then the question blocks in order. */
  function TextContent(e: Exam): string {
    Join(HeaderLines(e), "\n") + "\n" + Concat(Blocks(OrderedScheme(e)))
  }

  /** Without line feeds in the exam's fields, the header reads back line by line. */
  lemma HeaderReadsBack(e: Exam)
    requires '\n' !in e.name && '\n' !in FieldText(e.subject) && '\n' !in FieldText(e.className)
             && '\n' !in e.date && '\n' !in MarksText(e.totalMarks)
    ensures Split(Join(HeaderLines(e), "\n"), '\n') == HeaderLines(e)
  {
    var h := HeaderLines(e);
    assert forall k :: 0 <= k < |h| ==> '\n' !in h[k] by {
      forall k | 0 <= k < |h| ensures '\n' !in h[k] {
        if k == 1 { PrefixedFree("Subject: ", FieldText(e.subject)); }
        if k == 2 { PrefixedFree("Class: ", FieldText(e.className)); }
        if k == 3 { PrefixedFree("Date: ", e.date); }
        if k == 4 { PrefixedFree("Total Marks: ", MarksText(e.totalMarks)); }
      }
    }
    SplitJoin(h, '\n');
  }

  lemma PrefixedFree(p: string, s: string)
    requires '\n' !in p && '\n' !in s
    ensures '\n' !in p + s
  {
  }

  /** The text export: its content and the scheme it leaves sorted in the exam. */
  datatype TextExport = TextExport(content: string, fileName: string, sortedScheme: Option<seq<Question>>)

  function ExportText(e: Exam): (r: TextExport)
    ensures r.content == TextContent(e)
    ensures r.fileName == FileName(e.name, "txt")
    ensures r.sortedScheme.None? <==> e.scheme.None?
    ensures r.sortedScheme.Some? ==> r.sortedScheme.value == OrderedScheme(e)
  {
    TextExport(TextContent(e), FileName(e.name, "txt"),
               if e.scheme.Some? then Some(SortByNum(e.scheme.value)) else None)
  }

  // ---------------------------------------------------------------------
  // file names
  // ---------------------------------------------------------------------

  function DropSpaces(s: string): (r: string)
    ensures |r| <= |s| && r == s[|s| - |r|..]
    ensures |r| > 0 ==> !IsSpace(r[0])
  {
    if |s| > 0 && IsSpace(s[0]) then DropSpaces(s[1..]) else s
  }

  /** `replace(/\s+/g, "_")`: every run of whitespace becomes one underscore. */
  function Underscored(s: string): (r: string)
    ensures |r| <= |s|
    decreases |s|
  {
    if |s| == 0 then ""
    else if IsSpace(s[0]) then "_" + Underscored(DropSpaces(s[1..]))
    else [s[0]] + Underscored(s[1..])
  }

  /** No whitespace is left after the replacement. */
  lemma {:induction false} UnderscoredHasNoSpace(s: string)
    ensures forall k :: 0 <= k < |Underscored(s)| ==> !IsSpace(Underscored(s)[k])
    decreases |s|
  {
    if |s| > 0 {
      if IsSpace(s[0]) {
        UnderscoredHasNoSpace(DropSpaces(s[1..]));
      } else {
        UnderscoredHasNoSpace(s[1..]);
      }
    }
  }

  /** A name without whitespace is kept as it is. */
  lemma {:induction false} UnderscoredKeepsPlain(s: string)
    requires forall k :: 0 <= k < |s| ==> !IsSpace(s[k])
    ensures Underscored(s) == s
    decreases |s|
  {
    if |s| > 0 {
      UnderscoredKeepsPlain(s[1..]);
      assert s == [s[0]] + s[1..];
    }
  }

  /** Replacing twice changes nothing more. */
  lemma UnderscoredIdempotent(s: string)
    ensures Underscored(Underscored(s)) == Underscored(s)
  {
    UnderscoredHasNoSpace(s);
    UnderscoredKeepsPlain(Underscored(s));
  }

  /** Two words separated by any run of whitespace are joined by one underscore. */
  lemma {:induction false} UnderscoredRun(a: string, gap: string, b: string)
    requires forall k :: 0 <= k < |a| ==> !IsSpace(a[k])
    requires |gap| > 0 && forall k :: 0 <= k < |gap| ==> IsSpace(gap[k])
    requires |b| > 0 ==> !IsSpace(b[0])
    ensures Underscored(a + (gap + b)) == Underscored(a) + ("_" + Underscored(b))
    decreases |a|
  {
    if |a| == 0 {
      assert a + (gap + b) == gap + b;
      UnderscoredGap(gap, b);
      assert Underscored(a) == "";
    } else {
      UnderscoredRun(a[1..], gap, b);
      UnderscoredPlainStep(a, gap + b, "_" + Underscored(b));
    }
  }

  /** A leading run of whitespace becomes one underscore. */
  lemma UnderscoredGap(gap: string, b: string)
    requires |gap| > 0 && forall k :: 0 <= k < |gap| ==> IsSpace(gap[k])
    requires |b| > 0 ==> !IsSpace(b[0])
    ensures Underscored(gap + b) == "_" + Underscored(b)
  {
    var s := gap + b;
    assert s[0] == gap[0];
    assert s[1..] == gap[1..] + b;
    DropGap(gap[1..], b);
  }

  /** A leading non-space character is kept in front of the rest's replacement. */
  lemma UnderscoredPlainStep(a: string, rest: string, tail: string)
    requires |a| > 0 && !IsSpace(a[0])
    requires Underscored(a[1..] + rest) == Underscored(a[1..]) + tail
    ensures Underscored(a + rest) == Underscored(a) + tail
  {
    var u := Underscored(a[1..]);
    assert Underscored(a + rest) == [a[0]] + (u + tail) by {
      UnderscoredHead(a, rest);
    }
    assert Underscored(a) == [a[0]] + u by {
      assert a == [a[0]] + a[1..];
      UnderscoredCons(a[0], a[1..]);
    }
    assert [a[0]] + (u + tail) == ([a[0]] + u) + tail;
  }

  /** A leading non-space character of `a` stays in front of whatever follows it. */
  lemma UnderscoredHead(a: string, rest: string)
    requires |a| > 0 && !IsSpace(a[0])
    ensures Underscored(a + rest) == [a[0]] + Underscored(a[1..] + rest)
  {
    ConsAppend(a, rest);
    UnderscoredCons(a[0], a[1..] + rest);
  }

  lemma UnderscoredCons(c: char, rest: string)
    requires !IsSpace(c)
    ensures Underscored([c] + rest) == [c] + Underscored(rest)
  {
    var s := [c] + rest;
    assert s[0] == c;
    assert s[1..] == rest;
  }

  lemma {:induction false} DropGap(gap: string, b: string)
    requires forall k :: 0 <= k < |gap| ==> IsSpace(gap[k])
    requires |b| > 0 ==> !IsSpace(b[0])
    ensures DropSpaces(gap + b) == b
    decreases |gap|
  {
    if |gap| > 0 {
      assert (gap + b)[1..] == gap[1..] + b;
      DropGap(gap[1..], b);
    } else {
      assert gap + b == b;
    }
  }

  /** `{name}_Exam.{ext}` for the txt, pdf and docx downloads. */
  function FileName(name: string, ext: string): string {
    Underscored(name) + "_Exam." + ext
  }

  // ---------------------------------------------------------------------
  // the PDF layout
  // ---------------------------------------------------------------------

  /** The top margin, and the lowest position at which a question may still start. */
  const TopY: int := 20
  const LastStartY: int := 270

  /** Where the questions start: after the title (15), three detail lines (7 each), the marks line (15) and the heading (10). */
  const QuestionsTopY: int := TopY + 15 + 3 * 7 + 15 + 10

  /** Where a question is written: its page (from 1) and its vertical position. */
  datatype Placement = Placement(page: nat, y: int)

  /** The height a question takes: 7 per wrapped line and a gap of 5. */
  function Advance(lines: nat): int {
    7 * lines + 5
  }

  /**
   * The questions laid out from position `y` on page `page`: a question
   * that would start below `LastStartY` goes to the top of a new page;
   * `lines` are the wrapped line counts the PDF writer reports.
   */
  function Place(lines: seq<nat>, page: nat, y: int): (r: seq<Placement>)
    requires y >= TopY
    ensures |r| == |lines|
    ensures forall k :: 0 <= k < |r| ==> TopY <= r[k].y <= LastStartY
    ensures |r| > 0 ==> r[0] == if y > LastStartY then Placement(page + 1, TopY) else Placement(page, y)
    decreases |lines|
  {
    if |lines| == 0 then []
    else
      var here := if y > LastStartY then Placement(page + 1, TopY) else Placement(page, y);
      [here] + Place(lines[1..], here.page, here.y + Advance(lines[0]))
  }

  function Layout(lines: seq<nat>): (r: seq<Placement>)
    ensures |r| == |lines|
    ensures |r| > 0 ==> r[0] == Placement(1, QuestionsTopY)
  {
    Place(lines, 1, QuestionsTopY)
  }

  /**
   * Each question after the first goes on the next page exactly when the
   * one before it ends below `LastStartY`, and right under it otherwise.
   */
  lemma {:induction false} PlaceSteps(lines: seq<nat>, page: nat, y: int, k: nat)
    requires y >= TopY
    requires k + 1 < |lines|
    ensures var r := Place(lines, page, y);
            var next := r[k].y + Advance(lines[k]);
            r[k + 1] == if next > LastStartY then Placement(r[k].page + 1, TopY) else Placement(r[k].page, next)
    decreases k
  {
    var r := Place(lines, page, y);
    var here := r[0];
    var rest := Place(lines[1..], here.page, here.y + Advance(lines[0]));
    assert r == [here] + rest;
    if k > 0 {
      PlaceSteps(lines[1..], here.page, here.y + Advance(lines[0]), k - 1);
      assert r[k] == rest[k - 1] && r[k + 1] == rest[k];
    }
  }

  /** Pages are used in order, one more at most from one question to the next. */
  lemma PagesAdvanceByOne(lines: seq<nat>, k: nat)
    requires k + 1 < |lines|
    ensures var r := Layout(lines);
            r[k].page <= r[k + 1].page <= r[k].page + 1
  {
    PlaceSteps(lines, 1, QuestionsTopY, k);
  }

  // ---------------------------------------------------------------------
  // the dialog
  // ---------------------------------------------------------------------

  datatype Format = PlainText | Pdf | Word

  datatype Dialog = Dialog(open: bool, exporting: bool)

  /**
   * The end of an export: the exporting flag is cleared whether it
   * succeeded or failed, and the dialog closes only on success.
   */
  function Finish(d: Dialog, succeeded: bool): (r: Dialog)
    ensures !r.exporting
    ensures r.open <==> d.open && !succeeded
  {
    Dialog(if succeeded then false else d.open, false)
  }

  function Toast(f: Format, succeeded: bool): string {
    match (f, succeeded)
    case (PlainText, true) => "Exam exported as Text"
    case (PlainText, false) => "Failed to export as Text"
    case (Pdf, true) => "Exam exported as PDF"
    case (Pdf, false) => "Failed to export as PDF"
    case (Word, true) => "Exam exported as Word document"
    case (Word, false) => "Failed to export as Word document"
  }

  function Extension(f: Format): string {
    match f
    case PlainText => "txt"
    case Pdf => "pdf"
    case Word => "docx"
  }

  /** What one export leaves behind: the dialog's flags, the toast shown and the file downloaded, if any. */
  datatype Export = Export(dialog: Dialog, toast: string, download: Option<string>)

  /**
   * One click on a format. `writerFailed` is a failure inside the document
   * library. The text and PDF exports skip the questions when the exam has
   * no marking scheme (`marking_scheme?.sort(…).forEach`), but the Word
   * export spreads `marking_scheme?.sort(…)` into its paragraph list, and
   * spreading the missing value throws: that export fails.
   */
  function Run(f: Format, e: Exam, d: Dialog, writerFailed: bool): (r: Export)
    ensures !r.dialog.exporting
    ensures r.download.Some? <==> !writerFailed && (f != Word || e.scheme.Some?)
    ensures r.download.Some? ==> r.download.value == FileName(e.name, Extension(f))
    ensures r.toast == Toast(f, r.download.Some?)
    ensures r.dialog.open <==> d.open && r.download.None?
  {
    var throws := writerFailed || (f == Word && e.scheme.None?);
    var started := Dialog(d.open, true);
    Export(Finish(started, !throws), Toast(f, !throws), if throws then None else Some(FileName(e.name, Extension(f))))
  }

  /** An exam without a marking scheme exports as text and PDF, but the Word export reports a failure. */
  lemma NoSchemeFailsOnlyForWord(e: Exam, d: Dialog)
    requires e.scheme.None?
    ensures Run(PlainText, e, d, false).download.Some?
    ensures Run(Pdf, e, d, false).download.Some?
    ensures Run(Word, e, d, false).download.None?
    ensures Run(Word, e, d, false).toast == "Failed to export as Word document"
  {
  }
}
