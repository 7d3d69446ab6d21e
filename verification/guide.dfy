/**
 * The AI guide page (app/student/guide/guide-client.tsx): the initial
 * state, source selection, and the context text sent with each question.
 * The chat route's reply and the per-exam evaluation rows are inputs.
 */
module Guide {
  import opened Wrappers
  import opened Text
  import Selection
  import Seqs

  datatype Role = User | Model
  datatype Message = Message(role: Role, text: string)

  datatype State = State(messages: seq<Message>, input: string, materials: seq<string>, exams: seq<string>,
                         started: bool)

  /** The page as first shown: the initial query typed in, the pre-selected exam chosen. */
  function Initial(preSelectedExam: Option<string>, initialQuery: Option<string>): (s: State)
    ensures s.messages == [] && s.materials == []
    ensures s.input == OrText(initialQuery, "")
    ensures s.exams == if preSelectedExam.Some? && preSelectedExam.value != "" then [preSelectedExam.value] else []
    ensures s.started <==> initialQuery.Some? && initialQuery.value != ""
  {
    State([], OrText(initialQuery, ""),  [],
          if preSelectedExam.Some? && preSelectedExam.value != "" then [preSelectedExam.value] else [],
          initialQuery.Some? && initialQuery.value != "")
  }

  function ToggleMaterial(s: State, id: string): (r: State)
    ensures r.materials == Selection.Toggle(s.materials, id) && r.exams == s.exams
  {
    s.(materials := Selection.Toggle(s.materials, id))
  }

  function ToggleExam(s: State, id: string): (r: State)
    ensures r.exams == Selection.Toggle(s.exams, id) && r.materials == s.materials
  {
    s.(exams := Selection.Toggle(s.exams, id))
  }

  // ---------------------------------------------------------------------
  // the context text
  // ---------------------------------------------------------------------

  datatype Material = Material(id: string, title: string, text: Option<string>)

  /** The joined exam row; a `None` column is a database `null`. */
  datatype ExamInfo = ExamInfo(name: Option<string>, subject: Option<string>)

  /** A past answer sheet offered for selection, with its joined exam when there is one. */
  datatype Sheet = Sheet(id: string, exams: Option<ExamInfo>)

  /** A question evaluation of a selected sheet, as read for the context; a `None` is a database `null`. */
  datatype Eval = Eval(num: int, finalScore: Option<int>, reasoning: Option<string>)

  /** The most text taken from one material. */
  const MaterialLimit: int := 3000

  const NoText: string := "No text available"
  const MaterialsHeading: string := "\n\n--- SELECTED STUDY MATERIALS ---\n"
  const ExamsHeading: string := "\n\n--- PAST EXAM RESULTS ---\n"
  const ExamPrefix: string := "Exam: "

  /** A material's content: its first 3000 characters, or the placeholder when it has none. */
  function Content(m: Material): (c: string)
    ensures m.text.Some? && m.text.value != "" ==> c == Take(m.text.value, MaterialLimit)
    ensures m.text.None? || m.text.value == "" ==> c == NoText
    ensures |c| <= MaterialLimit
  {
    if m.text.Some? && m.text.value != "" then Take(m.text.value, MaterialLimit) else NoText
  }

  function MaterialBlock(m: Material): string {
    "Source: " + m.title + "\nContent: " + Content(m) + "\n---\n"
  }

  /** The materials offered, in their own order, that are selected. */
  function Chosen(all: seq<Material>, selected: seq<string>): (r: seq<Material>)
    ensures |r| <= |all|
    ensures forall k :: 0 <= k < |r| ==> r[k].id in selected
    ensures forall k :: 0 <= k < |all| && all[k].id in selected ==> all[k] in r
  {
    if |all| == 0 then []
    else (if all[0].id in selected then [all[0]] else []) + Chosen(all[1..], selected)
  }

  function Blocks(ms: seq<Material>): string {
    if |ms| == 0 then "" else MaterialBlock(ms[0]) + Blocks(ms[1..])
  }

  function ScoreShown(v: Option<int>): string {
    if v.Some? then IntToString(v.value) else "null"
  }

  function FindSheet(sheets: seq<Sheet>, id: string): (r: Option<Sheet>)
    ensures r.Some? ==> r.value in sheets && r.value.id == id
    ensures r.None? ==> forall k :: 0 <= k < |sheets| ==> sheets[k].id != id
  {
    if |sheets| == 0 then None
    else if sheets[0].id == id then Some(sheets[0])
    else FindSheet(sheets[1..], id)
  }

  /** One evaluation's line: `Q${question_num}: Score ${final_score}. Feedback: ${reasoning}` and a line break. */
  function EvalLine(ev: Eval): string {
    ("Q" + IntToString(ev.num) + ": Score " + ScoreShown(ev.finalScore))
    + (". Feedback: " + Interpolate(Column(ev.reasoning)) + "\n")
  }

  /**
   * A line prints the question number, the final score and the reasoning;
   * a `null` score or reasoning column prints as `null`.
   */
  lemma EvalLineFields(ev: Eval)
    ensures ev.finalScore.Some? ==>
              StartsWith(EvalLine(ev), "Q" + IntToString(ev.num) + ": Score " + IntToString(ev.finalScore.value))
    ensures ev.finalScore.None? ==> StartsWith(EvalLine(ev), "Q" + IntToString(ev.num) + ": Score " + "null")
    ensures ev.reasoning.Some? ==> EndsWith(EvalLine(ev), ". Feedback: " + ev.reasoning.value + "\n")
    ensures ev.reasoning.None? ==> EndsWith(EvalLine(ev), ". Feedback: " + "null" + "\n")
  {
    ConcatEnds("Q" + IntToString(ev.num) + ": Score " + ScoreShown(ev.finalScore),
               ". Feedback: " + Interpolate(Column(ev.reasoning)) + "\n");
  }

  /** The evaluation lines of a sheet, in the order the query returned them: none exactly without evaluations. */
  function EvalLines(evals: seq<Eval>): (r: string)
    ensures |evals| == 0 <==> r == ""
  {
    Seqs.FlatMap(evals, EvalLine)
  }

  /** Every evaluation has its own line, in place: the lines before it, its line, then the lines after it. */
  lemma EvalLinesSplit(evals: seq<Eval>, k: nat)
    requires k < |evals|
    ensures EvalLines(evals) == EvalLines(evals[..k]) + EvalLine(evals[k]) + EvalLines(evals[k + 1..])
  {
    Seqs.FlatMapSplit(evals, EvalLine, k);
  }

  /**
   * `sheet?.exams?.name`: `undefined` when the sheet is not offered or has
   * no joined exam, otherwise the column, which may be `null`.
   */
  function ExamField(sheet: Option<Sheet>, subject: bool): JsText {
    if sheet.None? || sheet.value.exams.None? then JsUndefined
    else Column(if subject then sheet.value.exams.value.subject else sheet.value.exams.value.name)
  }

  /** `Exam: ${name} (${subject})` and a line break. */
  function ExamLine(name: JsText, subject: JsText): string {
    ExamPrefix + (Interpolate(name) + (" (" + Interpolate(subject) + ")\n"))
  }

  /**
   * A selected sheet's title line. It prints `undefined` for a sheet or exam
   * that is not there and `null` for a column that is.
   */
  function ExamTitle(sheets: seq<Sheet>, id: string): (r: string)
    ensures var sheet := FindSheet(sheets, id);
            (sheet.None? || sheet.value.exams.None? ==> r == ExamLine(JsUndefined, JsUndefined))
            && (sheet.Some? && sheet.value.exams.Some? ==>
                  r == ExamLine(Column(sheet.value.exams.value.name), Column(sheet.value.exams.value.subject)))
  {
    var sheet := FindSheet(sheets, id);
    ExamLine(ExamField(sheet, false), ExamField(sheet, true))
  }

  /** One selected sheet's part: its title line, then its evaluation lines when the query returned any. */
  function ExamBlock(sheets: seq<Sheet>, id: string, evals: Option<seq<Eval>>): (r: string)
    ensures evals.None? ==> r == ExamTitle(sheets, id)
    ensures evals.Some? ==> r == ExamTitle(sheets, id) + EvalLines(evals.value)
    ensures var sheet := FindSheet(sheets, id);
            (sheet.None? || sheet.value.exams.None? ==> StartsWith(r, ExamLine(JsUndefined, JsUndefined)))
            && (sheet.Some? && sheet.value.exams.Some? ==>
                  StartsWith(r, ExamLine(Column(sheet.value.exams.value.name), Column(sheet.value.exams.value.subject))))
  {
    var title := ExamTitle(sheets, id);
    var rest := if evals.Some? then EvalLines(evals.value) else "";
    ConcatEnds(title, rest);
    title + rest
  }

  /** A selected sheet's id, paired with the evaluation rows read for it. */
  function Reads(selected: seq<string>, evals: seq<Option<seq<Eval>>>): seq<(string, Option<seq<Eval>>)>
    requires |evals| == |selected|
  {
    seq(|selected|, k requires 0 <= k < |selected| => (selected[k], evals[k]))
  }

  /** The part one selected sheet contributes. */
  function SheetPart(sheets: seq<Sheet>): ((string, Option<seq<Eval>>)) -> string {
    (p: (string, Option<seq<Eval>>)) => ExamBlock(sheets, p.0, p.1)
  }

  /** The selected sheets' parts, in selection order: none exactly when no sheet is selected. */
  function ExamBlocks(sheets: seq<Sheet>, selected: seq<string>, evals: seq<Option<seq<Eval>>>): (r: string)
    requires |evals| == |selected|
    ensures |selected| == 0 <==> r == ""
  {
    Seqs.FlatMap(Reads(selected, evals), SheetPart(sheets))
  }

  /** Every selected sheet has its own part, in place, read with its own evaluation rows. */
  lemma ExamBlocksSplit(sheets: seq<Sheet>, selected: seq<string>, evals: seq<Option<seq<Eval>>>, k: nat)
    requires |evals| == |selected| && k < |selected|
    ensures ExamBlocks(sheets, selected, evals)
            == ExamBlocks(sheets, selected[..k], evals[..k]) + ExamBlock(sheets, selected[k], evals[k])
               + ExamBlocks(sheets, selected[k + 1..], evals[k + 1..])
  {
    var rs := Reads(selected, evals);
    Seqs.FlatMapSplit(rs, SheetPart(sheets), k);
    ReadsSlice(selected, evals, 0, k);
    ReadsSlice(selected, evals, k + 1, |selected|);
    assert rs[0..k] == rs[..k] && rs[k + 1..|rs|] == rs[k + 1..];
    assert selected[0..k] == selected[..k] && evals[0..k] == evals[..k];
    assert selected[k + 1..|selected|] == selected[k + 1..] && evals[k + 1..|evals|] == evals[k + 1..];
  }

  /** Reading a stretch of the selection pairs the same sheets with the same rows. */
  lemma ReadsSlice(selected: seq<string>, evals: seq<Option<seq<Eval>>>, i: nat, j: nat)
    requires |evals| == |selected| && i <= j <= |selected|
    ensures Reads(selected, evals)[i..j] == Reads(selected[i..j], evals[i..j])
  {
  }

  /**
   * The context: the materials heading and the chosen materials' blocks when
   * materials are selected, then the exams heading and the selected sheets'
   * parts when exams are; nothing else.
   */
  function Context(s: State, all: seq<Material>, sheets: seq<Sheet>, evals: seq<Option<seq<Eval>>>): (c: string)
    requires |evals| == |s.exams|
    ensures |s.materials| == 0 && |s.exams| == 0 ==> c == ""
    ensures |s.materials| > 0 ==> StartsWith(c, MaterialsHeading)
    ensures |s.materials| == 0 && |s.exams| > 0 ==> StartsWith(c, ExamsHeading)
    ensures |s.materials| > 0 ==> StartsWith(c, MaterialsHeading + Blocks(Chosen(all, s.materials)))
    ensures |s.exams| > 0 ==> EndsWith(c, ExamsHeading + ExamBlocks(sheets, s.exams, evals))
    ensures |c| == (if |s.materials| > 0 then |MaterialsHeading + Blocks(Chosen(all, s.materials))| else 0)
                   + (if |s.exams| > 0 then |ExamsHeading + ExamBlocks(sheets, s.exams, evals)| else 0)
  {
    var m := if |s.materials| > 0 then MaterialsHeading + Blocks(Chosen(all, s.materials)) else "";
    var e := if |s.exams| > 0 then ExamsHeading + ExamBlocks(sheets, s.exams, evals) else "";
    ConcatEnds(m, e);
    assert StartsWith(m + e, MaterialsHeading) <== |s.materials| > 0 by {
      if |s.materials| > 0 { assert (m + e)[..|MaterialsHeading|] == MaterialsHeading; }
    }
    assert StartsWith(m + e, ExamsHeading) <== |s.materials| == 0 && |s.exams| > 0 by {
      if |s.materials| == 0 && |s.exams| > 0 { assert (m + e)[..|ExamsHeading|] == ExamsHeading; }
    }
    m + e
  }

  /** Each chosen material's block names it and carries at most 3000 characters of its text. */
  lemma BlockCarriesLimitedText(m: Material)
    ensures var b := MaterialBlock(m);
            StartsWith(b, "Source: " + m.title + "\nContent: ")
            && |b| <= |"Source: " + m.title + "\nContent: "| + MaterialLimit + |"\n---\n"|
  {
    var p := "Source: " + m.title + "\nContent: ";
    assert MaterialBlock(m)[..|p|] == p;
  }

  /** A material that is not selected is not among the chosen ones, so it adds no block to the context. */
  lemma {:induction false} UnselectedIgnored(all: seq<Material>, m: Material, selected: seq<string>)
    requires m.id !in selected
    ensures Chosen(all + [m], selected) == Chosen(all, selected)
    decreases |all|
  {
    if |all| == 0 {
      assert [m][1..] == [];
    } else {
      assert (all + [m])[1..] == all[1..] + [m];
      UnselectedIgnored(all[1..], m, selected);
    }
  }

  /** When every offered material is selected, all of them are used, in their own order. */
  lemma {:induction false} AllSelectedKeepsOrder(all: seq<Material>, selected: seq<string>)
    requires forall k :: 0 <= k < |all| ==> all[k].id in selected
    ensures Chosen(all, selected) == all
    decreases |all|
  {
    if |all| > 0 {
      AllSelectedKeepsOrder(all[1..], selected);
      assert all == [all[0]] + all[1..];
    }
  }

  // ---------------------------------------------------------------------
  // sending
  // ---------------------------------------------------------------------

  const Apology: string := "Sorry, I encountered an error processing your request."

  /** What the chat route answered: a failure, or the response text. */
  datatype Reply = Failed | Answered(response: string)

  datatype Request = Request(message: string, history: seq<Message>, context: string)

  datatype Step = Step(state: State, request: Option<Request>)

  /**
   * `handleSend`: whitespace-only input is not sent. Otherwise the question
   * is appended, the input cleared, the page marked started, and the
   * answer (or the apology) appended after it; the history sent is the
   * conversation before the question.
   */
  function Send(s: State, all: seq<Material>, sheets: seq<Sheet>, evals: seq<Option<seq<Eval>>>, reply: Reply): (t: Step)
    requires |evals| == |s.exams|
    ensures Trim(s.input) == "" ==> t == Step(s, None)
    ensures Trim(s.input) != "" ==>
              t.request == Some(Request(s.input, s.messages, Context(s, all, sheets, evals)))
              && t.state.input == "" && t.state.started
              && t.state.messages == s.messages + [Message(User, s.input),
                                                   Message(Model, if reply.Failed? then Apology else reply.response)]
  {
    if Trim(s.input) == "" then Step(s, None)
    else
      var answer := if reply.Failed? then Apology else reply.response;
      Step(s.(messages := s.messages + [Message(User, s.input), Message(Model, answer)], input := "", started := true),
           Some(Request(s.input, s.messages, Context(s, all, sheets, evals))))
  }

  /** An initial query with some text is sent on arrival, before any message exists. */
  lemma InitialQuerySent(pre: Option<string>, query: string, all: seq<Material>, sheets: seq<Sheet>,
                         evals: seq<Option<seq<Eval>>>, reply: Reply)
    requires Trim(query) != ""
    requires |evals| == |Initial(pre, Some(query)).exams|
    ensures var t := Send(Initial(pre, Some(query)), all, sheets, evals, reply);
            t.request.Some? && t.request.value.message == query && t.request.value.history == []
  {
  }
}
