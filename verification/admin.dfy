/**
 * The school analytics page for administrators (app/dashboard/admin/page.tsx):
 * who may see it, the fallback statistics, the score badge, the top class
 * and the grading completion rate.
 */
module Admin {
  import opened Wrappers
  import opened Numbers

  /** The signed-in user, with `user_metadata.role`. */
  datatype User = User(role: Option<string>)

  datatype Access = RedirectToLogin | RedirectToDashboard | ShowPage

  /** No user goes to the login page, a user without the admin role to the dashboard. */
  function AdminAccess(user: Option<User>): (r: Access)
    ensures r == ShowPage <==> user.Some? && user.value.role == Some("admin")
    ensures r == RedirectToLogin <==> user.None?
  {
    match user
    case None => RedirectToLogin
    case Some(u) => if u.role == Some("admin") then ShowPage else RedirectToDashboard
  }

  /** A row of the `school_stats` view. */
  datatype SchoolStats = SchoolStats(totalStudents: int, activeStudents7d: int, totalExams: int,
                                     totalAnswerSheets: int, gradedSheets: int, avgScore: real,
                                     highPlagiarismCount: int)

  const ZeroStats: SchoolStats := SchoolStats(0, 0, 0, 0, 0, 0.0, 0)

  /** A missing statistics row is shown as all zeros. */
  function StatsOrDefault(row: Option<SchoolStats>): (r: SchoolStats)
    ensures row.Some? ==> r == row.value
    ensures row.None? ==> r == ZeroStats
  {
    row.GetOr(ZeroStats)
  }

  /** `getScoreBadgeClass`: the colour of a class's average. */
  datatype Badge = Green | Blue | Yellow | RedBadge

  function ScoreBadge(score: real): (b: Badge)
    ensures b == Green <==> score >= 80.0
    ensures b == Blue <==> 60.0 <= score < 80.0
    ensures b == Yellow <==> 40.0 <= score < 60.0
    ensures b == RedBadge <==> score < 40.0
  {
    if score >= 80.0 then Green
    else if score >= 60.0 then Blue
    else if score >= 40.0 then Yellow
    else RedBadge
  }

  function BadgeRank(b: Badge): int {
    match b
    case RedBadge => 0
    case Yellow => 1
    case Blue => 2
    case Green => 3
  }

  /** A higher average never gets a lower badge. */
  lemma ScoreBadgeMonotone(x: real, y: real)
    requires x <= y
    ensures BadgeRank(ScoreBadge(x)) <= BadgeRank(ScoreBadge(y))
  {
  }

  /** A row of the `class_performance` view. */
  datatype ClassRow = ClassRow(className: string, studentCount: int, avgScore: Option<real>)

  /** The badge of a row; a missing average compares as 0 and so is red. */
  function RowBadge(c: ClassRow): Badge {
    ScoreBadge(Or(c.avgScore, 0.0))
  }

  function Averages(cs: seq<ClassRow>): (r: seq<real>)
    ensures |r| == |cs| && forall k :: 0 <= k < |cs| ==> r[k] == Or(cs[k].avgScore, 0.0)
  {
    seq(|cs|, k requires 0 <= k < |cs| => Or(cs[k].avgScore, 0.0))
  }

  /**
   * The top-performing class: the head of a copy stably sorted by average,
   * highest first, a missing average counting as 0. The table keeps its
   * own order, as only the copy is sorted.
   */
  function TopClass(cs: seq<ClassRow>): (r: Option<nat>)
    ensures r.None? <==> |cs| == 0
    ensures r.Some? ==> r.value < |cs|
    ensures r.Some? ==> forall k :: 0 <= k < |cs| ==> Or(cs[k].avgScore, 0.0) <= Or(cs[r.value].avgScore, 0.0)
    ensures r.Some? ==> forall k :: 0 <= k < r.value ==> Or(cs[k].avgScore, 0.0) < Or(cs[r.value].avgScore, 0.0)
  {
    if |cs| == 0 then None else Some(FirstMaxIndex(Averages(cs)))
  }

  /** The top class's badge is at least as good as every other class's. */
  lemma TopClassBestBadge(cs: seq<ClassRow>, k: nat)
    requires k < |cs|
    ensures TopClass(cs).Some?
    ensures BadgeRank(RowBadge(cs[k])) <= BadgeRank(RowBadge(cs[TopClass(cs).value]))
  {
    ScoreBadgeMonotone(Or(cs[k].avgScore, 0.0), Or(cs[TopClass(cs).value].avgScore, 0.0));
  }

  /** The completion rate: graded sheets as a rounded percentage of all sheets, 0 without sheets. */
  function CompletionRate(s: SchoolStats): (r: int)
    ensures s.totalAnswerSheets <= 0 ==> r == 0
    ensures s.totalAnswerSheets > 0 ==>
              r as real - 0.5 <= s.gradedSheets as real / s.totalAnswerSheets as real * 100.0 < r as real + 0.5
  {
    if s.totalAnswerSheets > 0
    then Round(s.gradedSheets as real / s.totalAnswerSheets as real * 100.0)
    else 0
  }

  /** With no more graded than total sheets the rate is a percentage, 100 exactly when all are graded. */
  lemma CompletionRateBounds(s: SchoolStats)
    requires 0 <= s.gradedSheets <= s.totalAnswerSheets
    ensures 0 <= CompletionRate(s) <= 100
    ensures s.totalAnswerSheets > 0 && s.gradedSheets == s.totalAnswerSheets ==> CompletionRate(s) == 100
  {
    if s.totalAnswerSheets > 0 {
      var q := s.gradedSheets as real / s.totalAnswerSheets as real;
      assert q * s.totalAnswerSheets as real == s.gradedSheets as real;
      assert q <= 1.0;
      RoundBetween(q * 100.0, 0, 100);
      if s.gradedSheets == s.totalAnswerSheets {
        assert q == 1.0;
        RoundInteger(100);
      }
    }
  }
}
