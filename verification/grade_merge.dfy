/**
 * The grading route (app/api/gemini/grade/route.ts) after the model has
 * replied: the code fences are stripped from the reply, and the parsed
 * result becomes an update of the answer sheet, one evaluation row per
 * graded question and, when there is an analysis and a known student, a
 * feedback record. The model call and JSON parsing are inputs; the
 * database writes are returned as a list of intended writes.
 */
module GradeMerge {
  import opened Wrappers
  import opened Text
  import opened Seqs

  // ---------------------------------------------------------------------
  // fence stripping
  // ---------------------------------------------------------------------

  const OpenFence: string := "```json\n"
  const CloseFence: string := "\n```"

  /** No fence starts at any of the first `n` positions of `s`. */
  predicate NoFenceBefore(s: string, n: int) {
    forall i :: 0 <= i < n ==> !OccursAt(s, OpenFence, i) && !OccursAt(s, CloseFence, i)
  }

  /**
   * `replace(/```json\n|\n```/g, "")`: one left-to-right pass that removes
   * each occurrence of either fence, trying the opening fence first.
   */
  function StripFences(s: string): (r: string)
    ensures |r| <= |s|
    decreases |s|
  {
    if |s| == 0 then ""
    else if StartsWith(s, OpenFence) then StripFences(s[|OpenFence|..])
    else if StartsWith(s, CloseFence) then StripFences(s[|CloseFence|..])
    else [s[0]] + StripFences(s[1..])
  }

  /** An occurrence in the tail is an occurrence one place further on in the whole. */
  lemma OccursShift(s: string, p: string, i: nat)
    requires |s| > 0
    ensures OccursAt(s[1..], p, i) <==> OccursAt(s, p, i + 1)
  {
    if i + |p| <= |s| - 1 {
      assert s[1..][i..i + |p|] == s[i + 1..i + 1 + |p|];
    }
  }

  lemma NoFenceTail(s: string, n: int)
    requires |s| > 0 && n > 0 && NoFenceBefore(s, n)
    ensures NoFenceBefore(s[1..], n - 1)
  {
    forall i | 0 <= i < n - 1
      ensures !OccursAt(s[1..], OpenFence, i) && !OccursAt(s[1..], CloseFence, i)
    {
      OccursShift(s, OpenFence, i);
      OccursShift(s, CloseFence, i);
    }
  }

  /** Without a fence at the front, the first character is kept. */
  lemma StripStep(s: string)
    requires |s| > 0 && NoFenceBefore(s, 1)
    ensures StripFences(s) == [s[0]] + StripFences(s[1..])
  {
    assert !OccursAt(s, OpenFence, 0) && !OccursAt(s, CloseFence, 0);
    if |OpenFence| <= |s| { assert s[..|OpenFence|] == s[0..|OpenFence|]; }
    if |CloseFence| <= |s| { assert s[..|CloseFence|] == s[0..|CloseFence|]; }
  }

  /** Text in which no fence starts before position |a| keeps that part as it is. */
  lemma {:induction false} StripKeepsPlainPrefix(a: string, b: string)
    requires NoFenceBefore(a + b, |a|)
    ensures StripFences(a + b) == a + StripFences(b)
    decreases |a|
  {
    if |a| > 0 {
      PlainStep(a, b);
      StripKeepsPlainPrefix(a[1..], b);
      ConsAppend(a, StripFences(b));
    } else {
      assert a + b == b;
    }
  }

  /** One step of the above: the first character of the plain part is kept, and the rest stays plain. */
  lemma PlainStep(a: string, b: string)
    requires |a| > 0 && NoFenceBefore(a + b, |a|)
    ensures StripFences(a + b) == [a[0]] + StripFences(a[1..] + b)
    ensures NoFenceBefore(a[1..] + b, |a| - 1)
  {
    var s := a + b;
    assert NoFenceBefore(s, 1);
    StripStep(s);
    NoFenceTail(s, |a|);
    assert s[1..] == a[1..] + b;
  }

  /** A reply without fences is parsed as it came. */
  lemma StripPlain(s: string)
    requires NoFenceBefore(s, |s|)
    ensures StripFences(s) == s
  {
    assert s + "" == s;
    StripKeepsPlainPrefix(s, "");
  }

  /** A reply wrapped in a json code block is reduced to its body. */
  lemma StripCodeBlock(body: string)
    requires NoFenceBefore(body + CloseFence, |body|)
    ensures StripFences(OpenFence + body + CloseFence) == body
  {
    assert OpenFence + body + CloseFence == OpenFence + (body + CloseFence);
    StripOpenFence(body + CloseFence);
    StripKeepsPlainPrefix(body, CloseFence);
    StripCloseFence();
    assert body + "" == body;
  }

  lemma StripOpenFence(rest: string)
    ensures StripFences(OpenFence + rest) == StripFences(rest)
  {
    var s := OpenFence + rest;
    assert s[..|OpenFence|] == OpenFence;
    assert s[|OpenFence|..] == rest;
  }

  lemma StripCloseFence()
    ensures StripFences(CloseFence) == ""
  {
    assert !StartsWith(CloseFence, OpenFence);
    assert CloseFence[..|CloseFence|] == CloseFence;
    assert CloseFence[|CloseFence|..] == "";
  }

  /** A lone closing fence at the front is removed. */
  lemma StripCloseFenceFront(rest: string)
    ensures StripFences(CloseFence + rest) == StripFences(rest)
  {
    var s := CloseFence + rest;
    assert s[0] == '\n' && OpenFence[0] == '`';
    assert !StartsWith(s, OpenFence);
    assert s[..|CloseFence|] == CloseFence;
    assert s[|CloseFence|..] == rest;
  }

  /**
   * Wherever a fence occurs, it is removed: the text before the first fence
   * is kept, the fence is dropped, and stripping goes on after it.
   */
  lemma StripFenceAnywhere(a: string, fence: string, b: string)
    requires fence == OpenFence || fence == CloseFence
    requires NoFenceBefore(a + fence + b, |a|)
    ensures StripFences(a + fence + b) == a + StripFences(b)
  {
    assert a + fence + b == a + (fence + b);
    StripKeepsPlainPrefix(a, fence + b);
    if fence == OpenFence {
      StripOpenFence(b);
    } else {
      StripCloseFenceFront(b);
    }
  }

  // ---------------------------------------------------------------------
  // merging the result
  // ---------------------------------------------------------------------

  datatype Ocr = Ocr(num: int, text: Option<string>)

  datatype Evaluation = Evaluation(num: int, score: real, confidence: real, reasoning: string,
                                   strengths: seq<string>, gaps: seq<string>, rootCause: string)

  /** `student_os_analysis`: copied field by field into the feedback record. */
  datatype Analysis = Analysis(realWorld: string, rootCauseSummary: string, focusAreas: seq<string>,
                               roi: string)

  /** The parsed reply; a list the model left out is `None`. */
  datatype GradeResult = GradeResult(ocr: Option<seq<Ocr>>, evaluations: Option<seq<Evaluation>>,
                                     overallFeedback: string, analysis: Option<Analysis>,
                                     totalScore: real, confidence: real)

  /** A `question_evaluations` row. */
  datatype EvalRow = EvalRow(sheetId: string, num: int, extractedText: string, aiScore: real,
                             finalScore: real, confidence: real, reasoning: string,
                             strengths: seq<string>, gaps: seq<string>, rootCause: string)

  datatype Write =
    | UpdateSheet(sheetId: string, status: string, totalScore: real, confidence: real)
    | InsertEvaluations(rows: seq<EvalRow>)
    | InsertFeedback(sheetId: string, studentId: string, feedback: string, analysis: Analysis)

  /** The text of the first OCR entry for the question, or "" when none has text. */
  function ExtractedText(ocr: seq<Ocr>, num: int): (t: string)
    ensures (forall k :: 0 <= k < |ocr| ==> ocr[k].num != num) ==> t == ""
    ensures forall k :: 0 <= k < |ocr| && ocr[k].num == num && (forall j :: 0 <= j < k ==> ocr[j].num != num) ==>
              t == OrText(ocr[k].text, "")
  {
    match FindIndex(ocr, (o: Ocr) => o.num == num)
    case None => ""
    case Some(k) => OrText(ocr[k].text, "")
  }

  function RowOf(sheetId: string, ocr: seq<Ocr>, e: Evaluation): (r: EvalRow)
    ensures r.num == e.num && r.aiScore == e.score && r.finalScore == e.score
    ensures r.extractedText == ExtractedText(ocr, e.num)
  {
    EvalRow(sheetId, e.num, ExtractedText(ocr, e.num), e.score, e.score, e.confidence,
            e.reasoning, e.strengths, e.gaps, e.rootCause)
  }

  function Rows(sheetId: string, ocr: seq<Ocr>, evals: seq<Evaluation>): (r: seq<EvalRow>)
    ensures |r| == |evals|
    ensures forall k :: 0 <= k < |evals| ==> r[k] == RowOf(sheetId, ocr, evals[k])
  {
    seq(|evals|, k requires 0 <= k < |evals| => RowOf(sheetId, ocr, evals[k]))
  }

  datatype Outcome = Outcome(writes: seq<Write>, status: int)

  /**
   * The route from the exam lookup on. A missing exam, an exam without a
   * marking scheme (the prompt reads `exam.marking_scheme.length`), a file
   * URL that `new URL` rejects, or an unparsable reply fails before any
   * write; missing evaluations, or missing OCR entries when there are
   * evaluations to match, fail after the sheet update. Every failure
   * answers 500.
   */
  function Grade(sheetId: string, examFound: bool, schemePresent: bool, urlsValid: bool, studentId: Option<string>,
                 parsed: Option<GradeResult>): (o: Outcome)
    ensures o.status == 200 || o.status == 500
    ensures !examFound || !schemePresent || !urlsValid || parsed.None? ==> o == Outcome([], 500)
    ensures examFound && schemePresent && urlsValid && parsed.Some? ==>
              |o.writes| >= 1 && o.writes[0] == UpdateSheet(sheetId, "graded", parsed.value.totalScore, parsed.value.confidence)
    ensures o.status == 200 ==> examFound && schemePresent && urlsValid && parsed.Some? && parsed.value.evaluations.Some?
    ensures examFound && schemePresent && urlsValid && parsed.Some? ==>
              (parsed.value.evaluations.Some? && (|parsed.value.evaluations.value| == 0 || parsed.value.ocr.Some?)
               ==> o.status == 200)
    ensures examFound && schemePresent && urlsValid && parsed.Some? ==>
              (parsed.value.evaluations.None? || (|parsed.value.evaluations.value| > 0 && parsed.value.ocr.None?)
               ==> o.status == 500 && |o.writes| == 1)
    ensures (exists k :: 0 <= k < |o.writes| && o.writes[k].InsertFeedback?) ==>
              o.status == 200 && parsed.value.analysis.Some? && studentId.Some? && studentId.value != ""
  {
    if !examFound || !schemePresent || !urlsValid then Outcome([], 500)
    else match parsed
      case None => Outcome([], 500)
      case Some(res) =>
        var update := UpdateSheet(sheetId, "graded", res.totalScore, res.confidence);
        match res.evaluations
        case None => Outcome([update], 500)
        case Some(evals) =>
          if |evals| > 0 && res.ocr.None? then Outcome([update], 500)
          else
            var rows := Rows(sheetId, res.ocr.GetOr([]), evals);
            var feedback :=
              if res.analysis.Some? && studentId.Some? && studentId.value != ""
              then [InsertFeedback(sheetId, studentId.value, res.overallFeedback, res.analysis.value)]
              else [];
            Outcome([update, InsertEvaluations(rows)] + feedback, 200)
  }

  /** A successful grading writes one evaluation row per evaluation, scores copied as the AI and final score. */
  lemma OneRowPerEvaluation(sheetId: string, studentId: Option<string>, res: GradeResult)
    requires Grade(sheetId, true, true, true, studentId, Some(res)).status == 200
    ensures var o := Grade(sheetId, true, true, true, studentId, Some(res));
            |o.writes| >= 2 && o.writes[1].InsertEvaluations?
            && |o.writes[1].rows| == |res.evaluations.value|
            && forall k :: 0 <= k < |res.evaluations.value| ==>
                 o.writes[1].rows[k].aiScore == res.evaluations.value[k].score
                 && o.writes[1].rows[k].finalScore == res.evaluations.value[k].score
                 && o.writes[1].rows[k].num == res.evaluations.value[k].num
  {
  }

  /** The feedback record is written exactly when grading succeeds with an analysis for a known student. */
  lemma FeedbackIffAnalysis(sheetId: string, studentId: Option<string>, res: GradeResult)
    requires Grade(sheetId, true, true, true, studentId, Some(res)).status == 200
    ensures var o := Grade(sheetId, true, true, true, studentId, Some(res));
            |o.writes| == 3 <==> res.analysis.Some? && studentId.Some? && studentId.value != ""
  {
  }
}
