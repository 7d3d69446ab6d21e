/**
 * Exam percentages and averages shared by the student, parent and
 * analytics pages: an answer sheet's `total_score` against its exam's
 * `total_marks` (100 when missing), averaged and rounded.
 */
module Scores {
  import opened Wrappers
  import opened Numbers

  /** An approved answer sheet joined with its exam's total marks. */
  datatype Sheet = Sheet(score: Option<real>, totalMarks: Option<real>)

  /**
   * The marks lost per category in a feedback record's
   * `root_cause_analysis`, each possibly missing.
   */
  datatype RootCause = RootCause(concept: Option<real>, calculation: Option<real>, keyword: Option<real>)

  /** The sheet's score as a percentage of the exam's marks. */
  function Percent(s: Sheet): real {
    ScorePercent(s.score, s.totalMarks)
  }

  /** The percentage of every sheet, in order. */
  function Percentages(sheets: seq<Sheet>): (r: seq<real>)
    ensures |r| == |sheets|
    ensures forall k :: 0 <= k < |r| ==> r[k] == Percent(sheets[k])
  {
    seq(|sheets|, k requires 0 <= k < |sheets| => Percent(sheets[k]))
  }

  /** A sheet whose score lies between 0 and its exam's marks. */
  predicate InRange(s: Sheet) {
    Or(s.totalMarks, 100.0) > 0.0 && 0.0 <= Or(s.score, 0.0) <= Or(s.totalMarks, 100.0)
  }

  /**
   * `Math.round(Σ percent / n)`, or 0 when there are no sheets: the rounded
   * mean of the unrounded percentages.
   */
  function AverageScore(sheets: seq<Sheet>): (r: int)
    ensures |sheets| == 0 ==> r == 0
    ensures |sheets| > 0 ==>
              r as real - 0.5 <= Sum(Percentages(sheets)) / |sheets| as real < r as real + 0.5
  {
    if |sheets| == 0 then 0 else Round(Sum(Percentages(sheets)) / |sheets| as real)
  }

  /** Sheets scored within their marks average to a percentage in 0..100. */
  lemma AverageScoreBounds(sheets: seq<Sheet>)
    requires forall k :: 0 <= k < |sheets| ==> InRange(sheets[k])
    ensures 0 <= AverageScore(sheets) <= 100
  {
    if |sheets| > 0 {
      var ps := Percentages(sheets);
      forall k | 0 <= k < |ps|
        ensures 0.0 <= ps[k] <= 100.0
      {
        assert InRange(sheets[k]);
      }
      MeanBounds(ps, 0.0, 100.0);
      RoundBetween(Mean(ps), 0, 100);
    }
  }

  /** Sheets that all score the same whole percentage average to it. */
  lemma AverageOfEqual(sheets: seq<Sheet>, p: int)
    requires |sheets| > 0
    requires forall k :: 0 <= k < |sheets| ==> Percent(sheets[k]) == p as real
    ensures AverageScore(sheets) == p
  {
    var ps := Percentages(sheets);
    SumBounds(ps, p as real, p as real);
    var n := |sheets| as real;
    assert Sum(ps) == n * (p as real);
    assert Sum(ps) / n == p as real;
    RoundInteger(p);
  }

  /** The average of a single sheet is that sheet's rounded percentage. */
  lemma AverageOfOne(s: Sheet)
    ensures AverageScore([s]) == Round(Percent(s))
  {
    var ps := Percentages([s]);
    assert ps[..0] == [];
    assert Sum(ps) == Percent(s);
  }
}
