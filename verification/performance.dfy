/**
 * The performance lab (app/student/performance/page.tsx): lost marks
 * accumulated over all feedback records, each category's share of the
 * total, the predictive sandbox seeded from the latest approved exam, and
 * the concept-gap recommendation.
 */
module Performance {
  import opened Wrappers
  import opened Numbers
  import opened Seqs
  import opened Scores
  import GradeSandbox

  /** A row of `answer_sheets`, newest first, joined with its exam's total marks. */
  datatype AnswerSheet = AnswerSheet(id: string, score: Option<real>, status: string,
                                     totalMarks: Option<real>)

  /** A row of `feedback_analysis`. */
  datatype Feedback = Feedback(sheetId: string, rootCause: Option<RootCause>)

  /** Lost marks per category, and their total. */
  datatype GapStats = GapStats(concept: real, calculation: real, keyword: real, total: real)

  const NoGaps: GapStats := GapStats(0.0, 0.0, 0.0, 0.0)

  /** What one record adds: nothing without an analysis, else each figure with missing as 0. */
  function Contribution(f: Feedback): (g: GapStats)
    ensures g.total == 0.0
  {
    match f.rootCause
    case None => NoGaps
    case Some(r) => GapStats(Or(r.concept, 0.0), Or(r.calculation, 0.0), Or(r.keyword, 0.0), 0.0)
  }

  function AddGaps(a: GapStats, b: GapStats): GapStats {
    GapStats(a.concept + b.concept, a.calculation + b.calculation, a.keyword + b.keyword, 0.0)
  }

  /** The running sums of the `forEach` over the records. */
  function Accumulate(fs: seq<Feedback>): (g: GapStats)
    ensures g.total == 0.0
  {
    if |fs| == 0 then NoGaps else AddGaps(Accumulate(fs[..|fs| - 1]), Contribution(fs[|fs| - 1]))
  }

  /** The three loss categories. */
  datatype Category = Concept | Calculation | Keyword

  function Part(g: GapStats, c: Category): real {
    match c
    case Concept => g.concept
    case Calculation => g.calculation
    case Keyword => g.keyword
  }

  /**
   * `gapStats`: zeros when there is no student or no feedback list;
   * otherwise each category is the sum of the records' figures for it, and
   * the total is the sum of the three.
   */
  function Gaps(feedbackList: Option<seq<Feedback>>): (g: GapStats)
    ensures g.total == g.concept + g.calculation + g.keyword
    ensures feedbackList.None? ==> g == NoGaps
    ensures feedbackList.Some? ==>
              forall c :: Part(g, c) == Sum(Figures(feedbackList.value, c))
  {
    match feedbackList
    case None => NoGaps
    case Some(fs) =>
      PartIsSum(fs, Concept);
      PartIsSum(fs, Calculation);
      PartIsSum(fs, Keyword);
      var a := Accumulate(fs);
      GapStats(a.concept, a.calculation, a.keyword, a.concept + a.calculation + a.keyword)
  }

  /** Accumulating two batches of records is adding their accumulations. */
  lemma {:induction false} AccumulateAppend(a: seq<Feedback>, b: seq<Feedback>)
    ensures Accumulate(a + b) == AddGaps(Accumulate(a), Accumulate(b))
    decreases |b|
  {
    if |b| == 0 {
      assert a + b == a;
    } else {
      var ab := a + b;
      assert ab[..|ab| - 1] == a + b[..|b| - 1];
      assert ab[|ab| - 1] == b[|b| - 1];
      AccumulateAppend(a, b[..|b| - 1]);
    }
  }

  /** One record's figure for a category: 0 without an analysis or a value. */
  function Figure(f: Feedback, c: Category): real {
    if f.rootCause.None? then 0.0
    else
      var r := f.rootCause.value;
      match c
      case Concept => Or(r.concept, 0.0)
      case Calculation => Or(r.calculation, 0.0)
      case Keyword => Or(r.keyword, 0.0)
  }

  /** Each record's figure for a category. */
  function Figures(fs: seq<Feedback>, c: Category): (r: seq<real>)
    ensures |r| == |fs|
  {
    seq(|fs|, k requires 0 <= k < |fs| => Figure(fs[k], c))
  }

  /** The accumulated losses of a category are the plain sum of the records' figures for it. */
  lemma {:induction false} PartIsSum(fs: seq<Feedback>, c: Category)
    ensures Part(Accumulate(fs), c) == Sum(Figures(fs, c))
    decreases |fs|
  {
    if |fs| > 0 {
      var init := fs[..|fs| - 1];
      PartIsSum(init, c);
      assert Figures(fs, c)[..|fs| - 1] == Figures(init, c);
    }
  }

  /** `getPct(v)`: `v` as a rounded percentage of the total, 0 when the total is not positive. */
  function GetPct(g: GapStats, v: real): (r: int)
    ensures g.total <= 0.0 ==> r == 0
    ensures g.total > 0.0 ==> r as real - 0.5 <= v / g.total * 100.0 < r as real + 0.5
  {
    if g.total > 0.0 then Round(v / g.total * 100.0) else 0
  }

  /** With non-negative losses every share is a percentage in 0..100. */
  lemma ShareBounds(g: GapStats)
    requires g.concept >= 0.0 && g.calculation >= 0.0 && g.keyword >= 0.0
    requires g.total == g.concept + g.calculation + g.keyword
    ensures 0 <= GetPct(g, g.concept) <= 100
    ensures 0 <= GetPct(g, g.calculation) <= 100
    ensures 0 <= GetPct(g, g.keyword) <= 100
  {
    if g.total > 0.0 {
      PartPercent(g.concept, g.total);
      PartPercent(g.calculation, g.total);
      PartPercent(g.keyword, g.total);
      RoundBetween(g.concept / g.total * 100.0, 0, 100);
      RoundBetween(g.calculation / g.total * 100.0, 0, 100);
      RoundBetween(g.keyword / g.total * 100.0, 0, 100);
    }
  }

  lemma PartPercent(v: real, t: real)
    requires 0.0 <= v <= t && t > 0.0
    ensures 0.0 <= v / t * 100.0 <= 100.0
  {
    var q := v / t;
    assert q * t == v;
    assert q <= 1.0;
  }

  lemma PartsPercent(a: real, b: real, c: real, t: real)
    requires t > 0.0 && t == a + b + c
    ensures a / t * 100.0 + b / t * 100.0 + c / t * 100.0 == 100.0
  {
    DivAdd(a, b, t);
    DivAdd(a + b, c, t);
    assert (a + b + c) / t == 1.0;
  }

  lemma DivAdd(x: real, y: real, t: real)
    requires t != 0.0
    ensures x / t + y / t == (x + y) / t
  {
  }

  /** The three rounded shares add up to 100 give or take one. */
  lemma SharesNearHundred(g: GapStats)
    requires g.total > 0.0 && g.total == g.concept + g.calculation + g.keyword
    ensures 99 <= GetPct(g, g.concept) + GetPct(g, g.calculation) + GetPct(g, g.keyword) <= 101
  {
    PartsPercent(g.concept, g.calculation, g.keyword, g.total);
  }

  /**
   * The recommendation box: shown when there are losses and the concept
   * share rounds to more than 40 %.
   */
  predicate ShowsRecommendation(g: GapStats) {
    g.total > 0.0 && GetPct(g, g.concept) > 40
  }

  /** The box appears exactly when the unrounded concept share reaches 40.5 %. */
  lemma RecommendationThreshold(g: GapStats)
    requires g.total > 0.0
    ensures ShowsRecommendation(g) <==> g.concept / g.total * 100.0 >= 40.5
  {
  }

  /** The sandbox defaults: no losses, grade 0 out of 100. */
  const DefaultStats: GradeSandbox.Stats := GradeSandbox.Stats(0.0, 0.0, 0.0, 0.0, 100.0)

  predicate IsApproved(s: AnswerSheet) {
    s.status == "approved"
  }

  /** The test of `f.answer_sheet_id === id`. */
  function ForSheet(id: string): Feedback -> bool {
    (f: Feedback) => f.sheetId == id
  }

  /**
   * The sandbox's starting figures: from the newest approved sheet and the
   * first feedback record for it, when that record has an analysis; the
   * defaults otherwise. A missing score enters the sum as 0, and missing
   * total marks count as 100.
   */
  function SandboxStats(sheets: seq<AnswerSheet>, feedbackList: Option<seq<Feedback>>): (r: GradeSandbox.Stats)
    ensures FindIndex(sheets, IsApproved).None? ==> r == DefaultStats
    ensures feedbackList.None? ==> r == DefaultStats
    ensures r.maxScore != 0.0
    ensures FindIndex(sheets, IsApproved).Some? && feedbackList.Some? ==>
              var latest := sheets[FindIndex(sheets, IsApproved).value];
              var fs := feedbackList.value;
              var j := FindIndex(fs, ForSheet(latest.id));
              (j.None? || fs[j.value].rootCause.None? ==> r == DefaultStats)
              && (j.Some? && fs[j.value].rootCause.Some? ==>
                    var rc := fs[j.value].rootCause.value;
                    r == GradeSandbox.Stats(Or(rc.concept, 0.0), Or(rc.calculation, 0.0), Or(rc.keyword, 0.0),
                                            Or(latest.score, 0.0), Or(latest.totalMarks, 100.0)))
  {
    match FindIndex(sheets, IsApproved)
    case None => DefaultStats
    case Some(i) =>
      var latest := sheets[i];
      if feedbackList.None? then DefaultStats
      else
        var fs := feedbackList.value;
        match FindIndex(fs, ForSheet(latest.id))
        case None => DefaultStats
        case Some(j) =>
          match fs[j].rootCause
          case None => DefaultStats
          case Some(rc) =>
            OrNonZero(latest.totalMarks, 100.0);
            GradeSandbox.Stats(Or(rc.concept, 0.0), Or(rc.calculation, 0.0), Or(rc.keyword, 0.0),
                               Or(latest.score, 0.0), Or(latest.totalMarks, 100.0))
  }

  /** The sandbox takes the newest approved sheet's figures, whatever older sheets say. */
  lemma SandboxUsesNewestApproved(older: seq<AnswerSheet>, pending: seq<AnswerSheet>,
                                  latest: AnswerSheet, rc: RootCause)
    requires forall k :: 0 <= k < |pending| ==> !IsApproved(pending[k])
    requires IsApproved(latest)
    ensures var r := SandboxStats(pending + [latest] + older, Some([Feedback(latest.id, Some(rc))]));
            r.currentGrade == Or(latest.score, 0.0) && r.maxScore == Or(latest.totalMarks, 100.0)
            && r.concept == Or(rc.concept, 0.0)
  {
    var all := pending + [latest] + older;
    assert all[|pending|] == latest;
    assert forall k :: 0 <= k < |pending| ==> all[k] == pending[k];
    assert FindIndex(all, IsApproved) == Some(|pending|);
  }

  /** What the page renders at the sandbox's place. */
  datatype SandboxSlot =
    | Hidden
    | Sandbox(stats: GradeSandbox.Stats)
    | RenderFailure

  /**
   * The page as written: when the maximum is positive it renders the
   * sandbox component, but that component is not imported into the page,
   * so rendering it fails.
   */
  function SlotAsWritten(s: GradeSandbox.Stats): (r: SandboxSlot)
    ensures r.RenderFailure? <==> s.maxScore > 0.0
    ensures !r.Sandbox?
  {
    if s.maxScore > 0.0 then RenderFailure else Hidden
  }

  /** With the component imported: the sandbox, seeded with the stats, when the maximum is positive. */
  function Slot(s: GradeSandbox.Stats): (r: SandboxSlot)
    ensures r.Sandbox? <==> s.maxScore > 0.0
    ensures r.Sandbox? ==> r.stats == s
    ensures !r.RenderFailure?
  {
    if s.maxScore > 0.0 then Sandbox(s) else Hidden
  }

  /** Non-negative total marks on every sheet. */
  predicate MarksNonNegative(sheets: seq<AnswerSheet>) {
    forall k :: 0 <= k < |sheets| ==> sheets[k].totalMarks.Some? ==> sheets[k].totalMarks.value >= 0.0
  }

  /** The maximum is positive unless some exam's total marks are negative. */
  lemma {:induction false} MaxScorePositive(sheets: seq<AnswerSheet>, feedbackList: Option<seq<Feedback>>)
    requires MarksNonNegative(sheets)
    ensures SandboxStats(sheets, feedbackList).maxScore > 0.0
  {
    match FindIndex(sheets, IsApproved)
    case None =>
    case Some(i) =>
      assert sheets[i].totalMarks.Some? ==> sheets[i].totalMarks.value >= 0.0;
  }

  /** As written, the page fails to render for every student whose exams have non-negative marks. */
  lemma PageFailsAsWritten(sheets: seq<AnswerSheet>, feedbackList: Option<seq<Feedback>>)
    requires MarksNonNegative(sheets)
    ensures SlotAsWritten(SandboxStats(sheets, feedbackList)) == RenderFailure
  {
    MaxScorePositive(sheets, feedbackList);
  }

  /** With the import in place, the sandbox is shown, seeded with the stats, unless some marks are negative. */
  lemma SandboxShownUnlessNegativeMarks(sheets: seq<AnswerSheet>, feedbackList: Option<seq<Feedback>>)
    requires MarksNonNegative(sheets)
    ensures Slot(SandboxStats(sheets, feedbackList)) == Sandbox(SandboxStats(sheets, feedbackList))
  {
    MaxScorePositive(sheets, feedbackList);
  }
}
