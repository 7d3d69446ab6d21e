/**
 * The student home page (app/student/dashboard/page.tsx): the recommended
 * task, the average over recent approved exams (`Scores.AverageScore` over
 * at most five sheets), the mark-recovery figures of the latest exam and
 * the recent-result cards.
 */
module StudentDashboard {
  import opened Wrappers
  import opened Text
  import opened Numbers
  import opened Seqs
  import opened Scores

  /** A row of `student_tasks`; `weight` is `metadata.priority_weight`. */
  datatype Task = Task(title: string, why: Option<string>, status: string, priority: string,
                       weight: Option<real>)

  /** The number of candidate tasks fetched for the recommendation. */
  const CandidateLimit: nat := 5

  /** The number of recent approved exams fetched. */
  const RecentLimit: nat := 5

  /** The number of result cards shown. */
  const CardLimit: nat := 4

  predicate IsCandidate(t: Task) {
    t.status == "pending" && t.priority == "High"
  }

  /** The query for candidates: pending, high-priority tasks, at most five, in fetch order. */
  function Candidates(tasks: seq<Task>): (r: seq<Task>)
    ensures |r| <= CandidateLimit
    ensures forall k :: 0 <= k < |r| ==> IsCandidate(r[k]) && r[k] in tasks
  {
    FirstN(Filter(tasks, IsCandidate), CandidateLimit)
  }

  /** `metadata?.priority_weight || 0`. */
  function Weight(t: Task): real {
    Or(t.weight, 0.0)
  }

  function Weights(ts: seq<Task>): (r: seq<real>)
    ensures |r| == |ts| && forall k :: 0 <= k < |ts| ==> r[k] == Weight(ts[k])
  {
    seq(|ts|, k requires 0 <= k < |ts| => Weight(ts[k]))
  }

  /**
   * The position of the recommended task: the head of the candidates
   * stably sorted by weight, highest first; that is, the first of the
   * heaviest. There is none without candidates.
   */
  function NextBestIndex(cs: seq<Task>): (r: Option<nat>)
    ensures r.None? <==> |cs| == 0
    ensures r.Some? ==> r.value < |cs|
    ensures r.Some? ==> forall j :: 0 <= j < |cs| ==> Weight(cs[j]) <= Weight(cs[r.value])
    ensures r.Some? ==> forall j :: 0 <= j < r.value ==> Weight(cs[j]) < Weight(cs[r.value])
  {
    if |cs| == 0 then None else Some(FirstMaxIndex(Weights(cs)))
  }

  /** The recommended task itself. */
  function NextBestTask(cs: seq<Task>): (r: Option<Task>)
    ensures r.None? <==> |cs| == 0
    ensures r.Some? ==> r.value in cs
  {
    match NextBestIndex(cs)
    case None => None
    case Some(i) => Some(cs[i])
  }

  /** A task weighing strictly more than all others is the one recommended, wherever it is. */
  lemma HeaviestIsRecommended(cs: seq<Task>, i: nat)
    requires i < |cs|
    requires forall j :: 0 <= j < |cs| && j != i ==> Weight(cs[j]) < Weight(cs[i])
    ensures NextBestIndex(cs) == Some(i)
  {
    FirstMaxUnique(Weights(cs), i);
  }

  /** With equal weights the earliest fetched candidate is recommended. */
  lemma TiesKeepFetchOrder(cs: seq<Task>)
    requires |cs| > 0
    requires forall j :: 0 <= j < |cs| ==> Weight(cs[j]) == Weight(cs[0])
    ensures NextBestIndex(cs) == Some(0)
  {
    FirstMaxUnique(Weights(cs), 0);
  }

  /** The hero card: heading, text, link target and button label. */
  datatype Hero = Hero(title: string, text: string, href: string, button: string)

  const CaughtUpText: string :=
    "You're all caught up! Browse past materials or practice with AI flashcards."

  function HeroCard(nba: Option<Task>): (h: Hero)
    ensures nba.Some? ==> h.title == nba.value.title && h.href == "/student/vault?tab=missions"
                          && h.button == "Start Mission"
    ensures nba.None? ==> h == Hero("Explore the Knowledge Vault", CaughtUpText, "/student/vault", "Open Vault")
    ensures nba.Some? && nba.value.why.Some? && nba.value.why.value != "" ==> h.text == nba.value.why.value
    ensures h.text != ""
  {
    match nba
    case None => Hero("Explore the Knowledge Vault", CaughtUpText, "/student/vault", "Open Vault")
    case Some(t) => Hero(t.title, OrText(t.why, CaughtUpText), "/student/vault?tab=missions", "Start Mission")
  }

  /** The colour band of a result card. */
  datatype Band = Emerald | Amber | Red

  function ResultBand(percentage: int): (b: Band)
    ensures b == Emerald <==> percentage >= 80
    ensures b == Amber <==> 60 <= percentage < 80
    ensures b == Red <==> percentage < 60
  {
    if percentage >= 80 then Emerald else if percentage >= 60 then Amber else Red
  }

  function BandRank(b: Band): int {
    match b
    case Red => 0
    case Amber => 1
    case Emerald => 2
  }

  /** A higher percentage never gets a worse band. */
  lemma ResultBandMonotone(p: int, q: int)
    requires p <= q
    ensures BandRank(ResultBand(p)) <= BandRank(ResultBand(q))
  {
  }

  datatype Card = Card(percentage: int, band: Band)

  /** The result cards: the first four recent exams, each with its rounded percentage and band. */
  function ResultCards(recent: seq<Sheet>): (r: seq<Card>)
    ensures |r| == if |recent| <= CardLimit then |recent| else CardLimit
    ensures forall k :: 0 <= k < |r| ==>
              r[k].percentage == Round(Percent(recent[k])) && r[k].band == ResultBand(r[k].percentage)
  {
    var shown := FirstN(recent, CardLimit);
    seq(|shown|, k requires 0 <= k < |shown| =>
      Card(Round(Percent(shown[k])), ResultBand(Round(Percent(shown[k])))))
  }

  /** A single recent exam's card shows the same figure as the average. */
  lemma OneExamCardIsAverage(s: Sheet)
    ensures ResultCards([s])[0].percentage == AverageScore([s])
  {
    AverageOfOne(s);
  }

  datatype Recovery = Recovery(concept: real, calculation: real, keyword: real)

  const NoRecovery: Recovery := Recovery(0.0, 0.0, 0.0)

  /**
   * Mark-recovery figures: zeros unless there is a recent exam whose
   * feedback carries a root-cause analysis; then each figure with a missing
   * value counted as 0.
   */
  function RecoveryStats(recent: seq<Sheet>, latestRootCause: Option<RootCause>): (r: Recovery)
    ensures |recent| == 0 || latestRootCause.None? ==> r == NoRecovery
    ensures |recent| > 0 && latestRootCause.Some? ==>
              var rc := latestRootCause.value;
              (rc.concept.Some? ==> r.concept == rc.concept.value)
              && (rc.calculation.Some? ==> r.calculation == rc.calculation.value)
              && (rc.keyword.Some? ==> r.keyword == rc.keyword.value)
              && (rc.concept.None? ==> r.concept == 0.0)
              && (rc.calculation.None? ==> r.calculation == 0.0)
              && (rc.keyword.None? ==> r.keyword == 0.0)
  {
    if |recent| == 0 then NoRecovery
    else match latestRootCause
      case None => NoRecovery
      case Some(rc) => Recovery(Or(rc.concept, 0.0), Or(rc.calculation, 0.0), Or(rc.keyword, 0.0))
  }

  /** Recorded losses that are non-negative give non-negative figures. */
  lemma RecoveryNonNegative(recent: seq<Sheet>, rc: Option<RootCause>)
    requires rc.Some? ==> (rc.value.concept.Some? ==> rc.value.concept.value >= 0.0)
                          && (rc.value.calculation.Some? ==> rc.value.calculation.value >= 0.0)
                          && (rc.value.keyword.Some? ==> rc.value.keyword.value >= 0.0)
    ensures var r := RecoveryStats(recent, rc);
            r.concept >= 0.0 && r.calculation >= 0.0 && r.keyword >= 0.0
  {
  }

  /** The streak in the pill: `student.streak || 0`. */
  function StreakDays(streak: Option<int>): (r: int)
    ensures streak.None? ==> r == 0
    ensures streak.Some? ==> r == streak.value
  {
    OrInt(streak, 0)
  }
}
