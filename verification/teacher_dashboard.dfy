/**
 * The teacher home page (app/dashboard/page.tsx): the number of students at
 * risk among the latest approved sheets, the average score per exam, and
 * the label of each item in the grading queue.
 */
module TeacherDashboard {
  import opened Wrappers
  import opened Numbers

  /** The number of latest approved sheets inspected for at-risk students. */
  const AtRiskSampleLimit: nat := 50

  /** An approved sheet: whose it is, its score and its exam's total marks. */
  datatype ScoredSheet = ScoredSheet(studentId: string, score: Option<real>, totalMarks: Option<real>)

  /** `(total_score || 0) / (total_marks || 100) < 0.6`: a missing score counts as 0, so as at risk. */
  predicate IsLow(s: ScoredSheet): (b: bool)
    ensures Or(s.totalMarks, 100.0) > 0.0 ==>
              (b <==> Or(s.score, 0.0) < 0.6 * Or(s.totalMarks, 100.0))
  {
    RatioBelow(Or(s.score, 0.0), Or(s.totalMarks, 100.0), 0.6);
    Or(s.score, 0.0) / Or(s.totalMarks, 100.0) < 0.6
  }

  /** A share of a positive whole is below `c` exactly when the part is below `c` times the whole. */
  lemma RatioBelow(x: real, t: real, c: real)
    requires t != 0.0
    ensures t > 0.0 ==> (x / t < c <==> x < c * t)
  {
    if t > 0.0 {
      assert x == (x / t) * t;
    }
  }

  /** `uniqueStudents`: the students of the low sheets, each once. */
  function AtRiskStudents(sheets: seq<ScoredSheet>): (r: set<string>)
    ensures forall id :: id in r ==>
              exists k :: 0 <= k < |sheets| && IsLow(sheets[k]) && sheets[k].studentId == id
    ensures |sheets| > 0 && IsLow(sheets[|sheets| - 1]) ==> sheets[|sheets| - 1].studentId in r
  {
    if |sheets| == 0 then {}
    else
      var last := sheets[|sheets| - 1];
      AtRiskStudents(sheets[..|sheets| - 1]) + (if IsLow(last) then {last.studentId} else {})
  }

  /** A student is in the set exactly when one of the sheets is theirs and low. */
  lemma {:induction false} AtRiskMembership(sheets: seq<ScoredSheet>, id: string)
    ensures id in AtRiskStudents(sheets) <==>
              exists k :: 0 <= k < |sheets| && IsLow(sheets[k]) && sheets[k].studentId == id
    decreases |sheets|
  {
    if |sheets| > 0 {
      var init := sheets[..|sheets| - 1];
      AtRiskMembership(init, id);
      assert forall k :: 0 <= k < |init| ==> init[k] == sheets[k];
      if id in AtRiskStudents(init) {
        var k :| 0 <= k < |init| && IsLow(init[k]) && init[k].studentId == id;
        assert IsLow(sheets[k]) && sheets[k].studentId == id;
      }
    }
  }

  /** `uniqueStudents.size`. */
  function AtRiskCount(sheets: seq<ScoredSheet>): nat {
    |AtRiskStudents(sheets)|
  }

  /** A student is counted at most once, so there are no more at-risk students than sheets. */
  lemma {:induction false} AtRiskAtMostSheets(sheets: seq<ScoredSheet>)
    ensures AtRiskCount(sheets) <= |sheets|
    decreases |sheets|
  {
    if |sheets| > 0 {
      var init := sheets[..|sheets| - 1];
      AtRiskAtMostSheets(init);
      var rest := AtRiskStudents(init);
      var last := sheets[|sheets| - 1];
      assert |rest + {last.studentId}| <= |rest| + 1;
    }
  }

  /** The count shown never exceeds the sample size. */
  lemma AtRiskAtMostLimit(sheets: seq<ScoredSheet>)
    requires |sheets| <= AtRiskSampleLimit
    ensures AtRiskCount(sheets) <= AtRiskSampleLimit
  {
    AtRiskAtMostSheets(sheets);
  }

  /** Another low sheet of an already counted student leaves the count as it is. */
  lemma RepeatedStudentCountedOnce(sheets: seq<ScoredSheet>, s: ScoredSheet)
    requires s.studentId in AtRiskStudents(sheets)
    ensures AtRiskCount(sheets + [s]) == AtRiskCount(sheets)
  {
    var all := sheets + [s];
    assert all[..|all| - 1] == sheets;
    assert AtRiskStudents(all) == AtRiskStudents(sheets) + (if IsLow(s) then {s.studentId} else {});
    assert AtRiskStudents(sheets) + {s.studentId} == AtRiskStudents(sheets);
  }

  /** A low sheet of a student not yet counted adds one. */
  lemma NewStudentAddsOne(sheets: seq<ScoredSheet>, s: ScoredSheet)
    requires IsLow(s) && s.studentId !in AtRiskStudents(sheets)
    ensures AtRiskCount(sheets + [s]) == AtRiskCount(sheets) + 1
  {
    var all := sheets + [s];
    assert all[..|all| - 1] == sheets;
    assert AtRiskStudents(all) == AtRiskStudents(sheets) + (if IsLow(s) then {s.studentId} else {});
  }

  /** A sheet without a score always counts as at risk. */
  lemma MissingScoreIsLow(studentId: string, totalMarks: Option<real>)
    requires Or(totalMarks, 100.0) > 0.0
    ensures IsLow(ScoredSheet(studentId, None, totalMarks))
  {
  }

  /**
   * The per-exam average over the sheets with a score:
   * `count > 0 ? Math.round(total / count) : 0`.
   */
  function ExamAverage(scores: seq<real>): (r: int)
    ensures |scores| == 0 ==> r == 0
    ensures |scores| > 0 ==> r as real - 0.5 <= Sum(scores) / |scores| as real < r as real + 0.5
  {
    if |scores| > 0 then Round(Sum(scores) / |scores| as real) else 0
  }

  /** The average lies between the lowest and the highest score. */
  lemma ExamAverageBounds(scores: seq<real>, lo: int, hi: int)
    requires |scores| > 0
    requires forall k :: 0 <= k < |scores| ==> lo as real <= scores[k] <= hi as real
    ensures lo <= ExamAverage(scores) <= hi
  {
    MeanBounds(scores, lo as real, hi as real);
    RoundBetween(Mean(scores), lo, hi);
  }

  /** The priority-queue badge: a graded sheet awaits review, anything else awaits grading. */
  function QueueLabel(status: string): (r: string)
    ensures r == "Review" <==> status == "graded"
    ensures r == "Review" || r == "Grade"
  {
    if status == "graded" then "Review" else "Grade"
  }
}
