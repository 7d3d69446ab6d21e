/**
 * The student's view of a graded answer sheet
 * (components/student/student-split-view.tsx): the page viewer's zoom,
 * rotation and page controls, the running total, and the review request
 * built from the student's per-question comments.
 */
module SplitView {
  import opened Wrappers
  import opened Text
  import opened Numbers

  // ---------------------------------------------------------------------
  // the page viewer
  // ---------------------------------------------------------------------

  const InitialZoom: int := 100
  const MinZoom: int := 50
  const MaxZoom: int := 200
  const ZoomStep: int := 10

  predicate ZoomOk(z: int) {
    MinZoom <= z <= MaxZoom && z % ZoomStep == 0
  }

  function ZoomOut(z: int): (r: int)
    ensures ZoomOk(z) ==> ZoomOk(r)
    ensures r <= z || r == MinZoom
    ensures z - ZoomStep >= MinZoom ==> r == z - ZoomStep
  {
    Max(MinZoom, z - ZoomStep)
  }

  function ZoomIn(z: int): (r: int)
    ensures ZoomOk(z) ==> ZoomOk(r)
    ensures r >= z || r == MaxZoom
    ensures z + ZoomStep <= MaxZoom ==> r == z + ZoomStep
  {
    Min(MaxZoom, z + ZoomStep)
  }

  function Max(a: int, b: int): int { if a >= b then a else b }
  function Min(a: int, b: int): int { if a <= b then a else b }

  /** Away from the floor, zooming out then in returns to the same zoom, and likewise below the cap. */
  lemma ZoomRoundTrip(z: int)
    requires ZoomOk(z)
    ensures z > MinZoom ==> ZoomIn(ZoomOut(z)) == z
    ensures z < MaxZoom ==> ZoomOut(ZoomIn(z)) == z
  {
  }

  /** Any sequence of zoom presses from the start stays a multiple of 10 within [50, 200]. */
  lemma {:induction false} ZoomStaysInRange(presses: seq<bool>)
    ensures ZoomOk(ZoomAfter(presses))
    decreases |presses|
  {
    if |presses| > 0 {
      ZoomStaysInRange(presses[..|presses| - 1]);
    }
  }

  /** The zoom after a run of presses: `true` zooms in, `false` out. */
  function ZoomAfter(presses: seq<bool>): int
    decreases |presses|
  {
    if |presses| == 0 then InitialZoom
    else
      var z := ZoomAfter(presses[..|presses| - 1]);
      if presses[|presses| - 1] then ZoomIn(z) else ZoomOut(z)
  }

  /** `(r + 90) % 360`. */
  function Rotate(r: int): (s: int)
    ensures 0 <= s < 360
    ensures r % 90 == 0 ==> s % 90 == 0
  {
    QuarterTurnKeepsQuarters(r);
    (r + 90) % 360
  }

  lemma QuarterTurnKeepsQuarters(r: int)
    ensures r % 90 == 0 ==> (r + 90) % 360 % 90 == 0
  {
    if r % 90 == 0 {
      var q := (r + 90) / 360;
      assert r + 90 == 90 * (r / 90 + 1);
      assert (r + 90) % 360 == 90 * (r / 90 + 1 - 4 * q);
    }
  }

  /** Four turns bring any shown angle back to itself. */
  lemma FourTurns(r: int)
    requires 0 <= r < 360
    ensures Rotate(Rotate(Rotate(Rotate(r)))) == r
    ensures r % 90 == 0 ==> Rotate(r) != r
  {
  }

  /** The pages shown: the sheet's file list if not empty, else its single file, else a placeholder. */
  function Pages(fileUrls: Option<seq<string>>, fileUrl: Option<string>): (p: seq<string>)
    ensures |p| >= 1
    ensures fileUrls.Some? && |fileUrls.value| > 0 ==> p == fileUrls.value
    ensures (fileUrls.None? || |fileUrls.value| == 0) && fileUrl.Some? && fileUrl.value != "" ==> p == [fileUrl.value]
    ensures (fileUrls.None? || |fileUrls.value| == 0) && (fileUrl.None? || fileUrl.value == "") ==> p == ["/placeholder.svg"]
  {
    if fileUrls.Some? && |fileUrls.value| > 0 then fileUrls.value
    else if fileUrl.Some? && fileUrl.value != "" then [fileUrl.value]
    else ["/placeholder.svg"]
  }

  function PrevPage(i: int): (j: int)
    ensures 0 <= i ==> 0 <= j <= i
    ensures i > 0 ==> j == i - 1
  {
    Max(0, i - 1)
  }

  function NextPage(i: int, pages: nat): (j: int)
    ensures 0 <= i < pages ==> i <= j < pages
    ensures i + 1 < pages ==> j == i + 1
  {
    Min(pages - 1, i + 1)
  }

  /** The page index stays a valid index of the page list under either button. */
  lemma PageStaysValid(i: int, pages: seq<string>)
    requires 0 <= i < |pages|
    ensures 0 <= PrevPage(i) < |pages| && 0 <= NextPage(i, |pages|) < |pages|
    ensures PrevPage(NextPage(i, |pages|)) == i || i == |pages| - 1
  {
  }

  // ---------------------------------------------------------------------
  // the running total
  // ---------------------------------------------------------------------

  /** A question's `final_score` as stored: a number, a numeric text, or nothing. */
  datatype Score = Absent | Num(v: real) | Text(s: string)

  /**
   * `Number(score || 0)`. A falsy score counts as 0. Text is read as a
   * whole number after trimming (blank text is 0); anything else is `NaN`
   * (`None`).
   */
  function NumberOf(score: Score): (r: Option<real>)
    ensures score.Absent? ==> r == Some(0.0)
    ensures score.Num? ==> r == Some(score.v)
    ensures score.Text? && IsBlank(score.s) ==> r == Some(0.0)
  {
    match score
    case Absent => Some(0.0)
    case Num(v) => Some(v)
    case Text(s) =>
      var t := Trim(s);
      if t == "" then TrimEmptyIffBlank(s); Some(0.0)
      else if IsWholeNumber(t) then Some(WholeValue(t) as real)
      else None
  }

  /** The digits of a signed whole number. */
  function Unsigned(t: string): string {
    if |t| > 0 && (t[0] == '-' || t[0] == '+') then t[1..] else t
  }

  /** An optional sign and at least one decimal digit. */
  predicate IsWholeNumber(t: string) {
    |Unsigned(t)| >= 1 && AllDigits(Unsigned(t), 10)
  }

  function WholeValue(t: string): (v: int)
    requires IsWholeNumber(t)
    ensures t[0] != '-' ==> v >= 0
  {
    if t[0] == '-' then -(DigitsValue(Unsigned(t), 10) as int) else DigitsValue(Unsigned(t), 10)
  }

  lemma DigitsAreWhole(s: string)
    requires |s| >= 1 && AllDigits(s, 10)
    ensures IsWholeNumber(s) && WholeValue(s) == DigitsValue(s, 10)
  {
    assert DigitValue(s[0], 10).Some?;
    assert s[0] != '-' && s[0] != '+';
    assert Unsigned(s) == s;
  }

  /** A score written out as text counts as the number it names. */
  lemma TextScoreReadsBack(n: nat)
    ensures NumberOf(Text(NatToString(n))) == Some(n as real)
  {
    var s := NatToString(n);
    DigitsValueOfNat(n);
    assert IsDigit(s[0]) && IsDigit(s[|s| - 1]);
    assert !IsSpace(s[0]) && !IsSpace(s[|s| - 1]);
    TrimOfTrimmed(s);
    DigitsAreWhole(s);
  }

  /** The sum of the scores; one unreadable text makes the total `NaN`. */
  function Total(scores: seq<Score>): (t: Option<real>)
  {
    if |scores| == 0 then Some(0.0)
    else
      match (Total(scores[..|scores| - 1]), NumberOf(scores[|scores| - 1]))
      case (Some(a), Some(b)) => Some(a + b)
      case _ => None
  }

  /** The values of numeric and missing scores, missing as 0. */
  function Values(scores: seq<Score>): (r: seq<real>)
    requires forall k :: 0 <= k < |scores| ==> !scores[k].Text?
    ensures |r| == |scores|
  {
    seq(|scores|, k requires 0 <= k < |scores| => if scores[k].Num? then scores[k].v else 0.0)
  }

  /** Without text scores, the total is the plain sum, a missing score counting 0. */
  lemma {:induction false} TotalOfNumbers(scores: seq<Score>)
    requires forall k :: 0 <= k < |scores| ==> !scores[k].Text?
    ensures Total(scores) == Some(Sum(Values(scores)))
    decreases |scores|
  {
    if |scores| > 0 {
      var init := scores[..|scores| - 1];
      TotalOfNumbers(init);
      assert Values(scores)[..|scores| - 1] == Values(init);
    }
  }

  /** An unreadable text score anywhere poisons the total. */
  lemma {:induction false} NaNPoisons(scores: seq<Score>, k: int)
    requires 0 <= k < |scores| && NumberOf(scores[k]).None?
    ensures Total(scores).None?
    decreases |scores|
  {
    if k < |scores| - 1 {
      NaNPoisons(scores[..|scores| - 1], k);
    }
  }

  // ---------------------------------------------------------------------
  // the review request
  // ---------------------------------------------------------------------

  datatype Evaluation = Evaluation(id: string, num: int, finalScore: Score, comment: Option<string>)

  /** The row whose review panel is open; pressing the same row again closes it. */
  function ToggleReview(active: Option<string>, id: string): (r: Option<string>)
    ensures r == None <==> active == Some(id)
    ensures r.Some? ==> r.value == id
  {
    if active == Some(id) then None else Some(id)
  }

  /** `handleStudentCommentChange`: the comment of the one row edited. */
  function SetComment(evals: seq<Evaluation>, index: int, comment: string): (r: seq<Evaluation>)
    requires 0 <= index < |evals|
    ensures |r| == |evals| && r[index] == evals[index].(comment := Some(comment))
    ensures forall k :: 0 <= k < |evals| && k != index ==> r[k] == evals[k]
  {
    evals[index := evals[index].(comment := Some(comment))]
  }

  predicate HasComment(e: Evaluation) {
    e.comment.Some? && e.comment.value != ""
  }

  /** A question is disputed when its comment has something other than whitespace. */
  predicate Disputed(e: Evaluation) {
    e.comment.Some? && Trim(e.comment.value) != ""
  }

  function Disputes(evals: seq<Evaluation>): (r: seq<Evaluation>)
    ensures |r| <= |evals|
    ensures forall k :: 0 <= k < |r| ==> Disputed(r[k]) && r[k] in evals
    ensures forall k :: 0 <= k < |evals| && Disputed(evals[k]) ==> evals[k] in r
  {
    if |evals| == 0 then []
    else (if Disputed(evals[0]) then [evals[0]] else []) + Disputes(evals[1..])
  }

  /**
   * The submit button: enabled while not saving and some row has a non-empty
   * comment. It is never off while a dispute is typed and nothing is saving,
   * so every submission the button withholds would have found no dispute.
   */
  function SubmitEnabled(saving: bool, evals: seq<Evaluation>): (b: bool)
    ensures saving ==> !b
    ensures b ==> !saving && exists k :: 0 <= k < |evals| && HasComment(evals[k])
    ensures !saving && (exists k :: 0 <= k < |evals| && HasComment(evals[k])) ==> b
    ensures !saving && |Disputes(evals)| > 0 ==> b
    ensures !saving && !b ==> forall id, confirmed, sheetError ::
              SubmitReview(id, evals, confirmed, sheetError).writes == []
  {
    DisputeHasComment(evals);
    !saving && exists k :: 0 <= k < |evals| && HasComment(evals[k])
  }

  lemma DisputeHasComment(evals: seq<Evaluation>)
    ensures |Disputes(evals)| > 0 ==> exists k :: 0 <= k < |evals| && HasComment(evals[k])
  {
    if |Disputes(evals)| > 0 {
      var e := Disputes(evals)[0];
      assert Disputed(e) && e in evals;
      assert Trim("") == "";
    }
  }

  datatype Write =
    | FlagEvaluation(id: string, comment: string)
    | RequestReview(sheetId: string)

  datatype Submit = Submit(writes: seq<Write>, alert: Option<string>, clearsActive: bool)

  const NoComment: string := "Please add a comment to at least one question to request a review."
  const Submitted: string := "Review request submitted successfully!"
  const SubmitFailed: string := "Failed to submit review. Please try again."

  /**
   * `submitReviewRequest`: with no disputes, an alert and nothing else;
   * declined confirmation, nothing at all; otherwise one flag per dispute,
   * then the sheet's review request, whose error alone is reported.
   */
  function SubmitReview(sheetId: string, evals: seq<Evaluation>, confirmed: bool, sheetError: bool): (s: Submit)
    ensures |Disputes(evals)| == 0 ==> s == Submit([], Some(NoComment), false)
    ensures |Disputes(evals)| > 0 && !confirmed ==> s == Submit([], None, false)
    ensures |s.writes| > 0 <==> |Disputes(evals)| > 0 && confirmed
    ensures |s.writes| > 0 ==>
              |s.writes| == |Disputes(evals)| + 1 && s.writes[|s.writes| - 1] == RequestReview(sheetId)
              && (forall k :: 0 <= k < |Disputes(evals)| ==>
                    s.writes[k] == FlagEvaluation(Disputes(evals)[k].id, Disputes(evals)[k].comment.value))
              && s.clearsActive && s.alert == Some(if sheetError then SubmitFailed else Submitted)
  {
    var disputes := Disputes(evals);
    if |disputes| == 0 then Submit([], Some(NoComment), false)
    else if !confirmed then Submit([], None, false)
    else
      var flags := seq(|disputes|, k requires 0 <= k < |disputes| =>
                         FlagEvaluation(disputes[k].id, disputes[k].comment.value));
      Submit(flags + [RequestReview(sheetId)], Some(if sheetError then SubmitFailed else Submitted), true)
  }

  /** A whitespace-only comment enables the button yet raises the "add a comment" alert. */
  lemma BlankCommentEnablesButAlerts()
    ensures var evals := [Evaluation("e", 1, Absent, Some(" "))];
            SubmitEnabled(false, evals) && SubmitReview("s", evals, true, false).alert == Some(NoComment)
  {
    var evals := [Evaluation("e", 1, Absent, Some(" "))];
    assert HasComment(evals[0]);
    assert IsSpace(' ');
    TrimEmptyIffBlank(" ");
    assert !Disputed(evals[0]);
    assert Disputes(evals) == [] by { assert evals[1..] == []; }
  }

  /** Editing a comment to blank withdraws that question from the disputes. */
  lemma {:induction false} BlankEditWithdraws(evals: seq<Evaluation>, index: int, blank: string)
    requires 0 <= index < |evals| && IsBlank(blank)
    ensures !Disputed(SetComment(evals, index, blank)[index])
  {
    TrimEmptyIffBlank(blank);
  }
}
