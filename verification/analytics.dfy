/**
 * The student analytics page (app/student/analytics/page.tsx): XP logs
 * bucketed by day with a running total, one point per approved exam, the
 * average per subject, and the headline figures.
 */
module Analytics {
  import opened Wrappers
  import opened Text
  import opened Numbers
  import opened Scores
  import opened Grouping

  /** A row of `xp_logs`; `date` is its day label (the formatting itself is not modelled). */
  datatype XpLog = XpLog(amount: int, date: string)

  /** A point of the XP chart. */
  datatype Bucket = Bucket(date: string, xp: int)

  function LogPairs(logs: seq<XpLog>): (r: seq<(string, int)>)
    ensures |r| == |logs| && forall i :: 0 <= i < |logs| ==> r[i] == (logs[i].date, logs[i].amount)
  {
    seq(|logs|, i requires 0 <= i < |logs| => (logs[i].date, logs[i].amount))
  }

  function BucketsOf(gs: seq<Group<string, int>>): (r: seq<Bucket>)
    ensures |r| == |gs| && forall i :: 0 <= i < |gs| ==> r[i] == Bucket(gs[i].key, IntSum(gs[i].values))
  {
    seq(|gs|, i requires 0 <= i < |gs| => Bucket(gs[i].key, IntSum(gs[i].values)))
  }

  /**
   * `xpChartData`: one bucket per day label, in order of each day's first
   * log, holding the XP of all that day's logs.
   */
  function XpBuckets(logs: seq<XpLog>): seq<Bucket> {
    BucketsOf(GroupBy(LogPairs(logs)))
  }

  function Dates(bs: seq<Bucket>): (r: seq<string>)
    ensures |r| == |bs| && forall i :: 0 <= i < |bs| ==> r[i] == bs[i].date
  {
    seq(|bs|, i requires 0 <= i < |bs| => bs[i].date)
  }

  /** The logs' amounts on day `d`, in order. */
  function AmountsOn(logs: seq<XpLog>, d: string): seq<int> {
    ValuesFor(LogPairs(logs), d)
  }

  /**
   * The buckets' days are the log days, each once, in order of first
   * occurrence, and each bucket sums exactly its day's amounts.
   */
  lemma XpBucketsSpec(logs: seq<XpLog>)
    ensures Dates(XpBuckets(logs)) == Dedupe(ItemKeys(LogPairs(logs)))
    ensures Distinct(Dates(XpBuckets(logs)))
    ensures forall i :: 0 <= i < |XpBuckets(logs)| ==>
              XpBuckets(logs)[i].xp == IntSum(AmountsOn(logs, XpBuckets(logs)[i].date))
  {
    var gs := GroupBy(LogPairs(logs));
    GroupByKeys(LogPairs(logs));
    GroupByValues(LogPairs(logs));
    assert Dates(XpBuckets(logs)) == Keys(gs);
    DedupeSpec(ItemKeys(LogPairs(logs)));
  }

  function Xps(bs: seq<Bucket>): (r: seq<int>)
    ensures |r| == |bs| && forall i :: 0 <= i < |bs| ==> r[i] == bs[i].xp
  {
    seq(|bs|, i requires 0 <= i < |bs| => bs[i].xp)
  }

  function Amounts(logs: seq<XpLog>): (r: seq<int>)
    ensures |r| == |logs| && forall i :: 0 <= i < |logs| ==> r[i] == logs[i].amount
  {
    seq(|logs|, i requires 0 <= i < |logs| => logs[i].amount)
  }

  /** The XP of all groups. */
  function GroupsXp(gs: seq<Group<string, int>>): int {
    if |gs| == 0 then 0 else GroupsXp(gs[..|gs| - 1]) + IntSum(gs[|gs| - 1].values)
  }

  lemma {:induction false} GroupsXpUpdate(gs: seq<Group<string, int>>, i: nat, g: Group<string, int>)
    requires i < |gs|
    ensures GroupsXp(gs[i := g]) == GroupsXp(gs) - IntSum(gs[i].values) + IntSum(g.values)
    decreases |gs|
  {
    var n := |gs| - 1;
    if i < n {
      assert gs[i := g][..n] == gs[..n][i := g];
      GroupsXpUpdate(gs[..n], i, g);
    } else {
      assert gs[i := g][..n] == gs[..n];
    }
  }

  function PairValues(items: seq<(string, int)>): (r: seq<int>)
    ensures |r| == |items| && forall i :: 0 <= i < |items| ==> r[i] == items[i].1
  {
    seq(|items|, i requires 0 <= i < |items| => items[i].1)
  }

  lemma InsertXp(gs: seq<Group<string, int>>, k: string, v: int)
    ensures GroupsXp(Insert(gs, k, v)) == GroupsXp(gs) + v
  {
    match KeyIndex(gs, k)
    case Some(i) =>
      var vs := gs[i].values + [v];
      GroupsXpUpdate(gs, i, Group(k, vs));
      assert vs[..|vs| - 1] == gs[i].values;
    case None =>
      var r := gs + [Group(k, [v])];
      assert Insert(gs, k, v) == r;
      assert r[..|r| - 1] == gs;
      assert [v][..0] == [];
      assert IntSum([v]) == v;
  }

  lemma {:induction false} GroupByXp(items: seq<(string, int)>)
    ensures GroupsXp(GroupBy(items)) == IntSum(PairValues(items))
    decreases |items|
  {
    if |items| > 0 {
      var init := items[..|items| - 1];
      GroupByXp(init);
      assert PairValues(items)[..|items| - 1] == PairValues(init);
      InsertXp(GroupBy(init), items[|items| - 1].0, items[|items| - 1].1);
    }
  }

  lemma {:induction false} BucketsXp(gs: seq<Group<string, int>>)
    ensures IntSum(Xps(BucketsOf(gs))) == GroupsXp(gs)
    decreases |gs|
  {
    if |gs| > 0 {
      var n := |gs| - 1;
      BucketsXp(gs[..n]);
      assert Xps(BucketsOf(gs))[..n] == Xps(BucketsOf(gs[..n]));
    }
  }

  /** Bucketing neither loses nor invents XP. */
  lemma XpConserved(logs: seq<XpLog>)
    ensures IntSum(Xps(XpBuckets(logs))) == IntSum(Amounts(logs))
  {
    var items := LogPairs(logs);
    GroupByXp(items);
    BucketsXp(GroupBy(items));
    assert PairValues(items) == Amounts(logs);
  }

  /** The running total through the first `n` buckets. */
  function PrefixXp(bs: seq<Bucket>, n: nat): int
    requires n <= |bs|
  {
    IntSum(Xps(bs)[..n])
  }

  /** `cumulativeXpData`: each bucket's running total, through and including it. */
  method CumulativeXp(bs: seq<Bucket>) returns (totals: seq<int>)
    ensures |totals| == |bs|
    ensures forall i :: 0 <= i < |bs| ==> totals[i] == PrefixXp(bs, i + 1)
  {
    var running := 0;
    totals := [];
    var i := 0;
    while i < |bs|
      invariant 0 <= i <= |bs|
      invariant |totals| == i
      invariant running == PrefixXp(bs, i)
      invariant forall j :: 0 <= j < i ==> totals[j] == PrefixXp(bs, j + 1)
    {
      assert Xps(bs)[..i + 1][..i] == Xps(bs)[..i];
      running := running + bs[i].xp;
      totals := totals + [running];
      i := i + 1;
    }
  }

  /** The last running total is all the XP logged. */
  lemma LastTotalIsAllXp(logs: seq<XpLog>)
    requires |XpBuckets(logs)| > 0
    ensures var bs := XpBuckets(logs); PrefixXp(bs, |bs|) == IntSum(Amounts(logs))
  {
    var bs := XpBuckets(logs);
    assert Xps(bs)[..|bs|] == Xps(bs);
    XpConserved(logs);
  }

  /** With no negative buckets the running totals never go down. */
  lemma PrefixXpMonotone(bs: seq<Bucket>, i: nat)
    requires i < |bs| && bs[i].xp >= 0
    ensures PrefixXp(bs, i) <= PrefixXp(bs, i + 1)
  {
    assert Xps(bs)[..i + 1][..i] == Xps(bs)[..i];
  }

  /** An approved sheet with its exam's name, total marks and subject, each possibly missing. */
  datatype ExamSheet = ExamSheet(score: Option<real>, examName: Option<string>,
                                 totalMarks: Option<real>, subject: Option<string>)

  /** A point of the exam chart. */
  datatype ExamPoint = ExamPoint(name: string, percentage: int, subject: string)

  /** `subject || 'General'`. */
  function SubjectOf(s: ExamSheet): string {
    OrText(s.subject, "General")
  }

  /** The unrounded percentage; a missing score divides as 0. */
  function PercentOf(s: ExamSheet): real {
    Percent(Sheet(s.score, s.totalMarks))
  }

  /** `examScoreData`: one point per sheet, named 'Exam' and filed under 'General' by default. */
  function ExamScoreData(sheets: seq<ExamSheet>): (r: seq<ExamPoint>)
    ensures |r| == |sheets|
    ensures forall i :: 0 <= i < |sheets| ==>
              r[i].percentage == Round(PercentOf(sheets[i])) && r[i].subject != ""
              && (sheets[i].examName.None? ==> r[i].name == "Exam")
              && (sheets[i].subject.None? ==> r[i].subject == "General")
              && (sheets[i].examName.Some? && sheets[i].examName.value != "" ==> r[i].name == sheets[i].examName.value)
              && (sheets[i].subject.Some? && sheets[i].subject.value != "" ==> r[i].subject == sheets[i].subject.value)
  {
    seq(|sheets|, i requires 0 <= i < |sheets| =>
      ExamPoint(OrText(sheets[i].examName, "Exam"), Round(PercentOf(sheets[i])), SubjectOf(sheets[i])))
  }

  /** A row of the subject chart. */
  datatype SubjectRow = SubjectRow(subject: string, avgScore: int, examsCount: nat)

  function SubjectPairs(sheets: seq<ExamSheet>): (r: seq<(string, real)>)
    ensures |r| == |sheets| && forall i :: 0 <= i < |sheets| ==> r[i] == (SubjectOf(sheets[i]), PercentOf(sheets[i]))
  {
    seq(|sheets|, i requires 0 <= i < |sheets| => (SubjectOf(sheets[i]), PercentOf(sheets[i])))
  }

  function RowsOf(gs: seq<Group<string, real>>): (r: seq<SubjectRow>)
    requires forall i :: 0 <= i < |gs| ==> |gs[i].values| > 0
    ensures |r| == |gs|
    ensures forall i :: 0 <= i < |gs| ==>
              r[i] == SubjectRow(gs[i].key, Round(Sum(gs[i].values) / |gs[i].values| as real), |gs[i].values|)
  {
    seq(|gs|, i requires 0 <= i < |gs| =>
      SubjectRow(gs[i].key, Round(Sum(gs[i].values) / |gs[i].values| as real), |gs[i].values|))
  }

  /** Every group built by inserting has at least one value. */
  lemma {:induction false} GroupsNonEmpty<V>(items: seq<(string, V)>)
    ensures forall i :: 0 <= i < |GroupBy(items)| ==> |GroupBy(items)[i].values| > 0
    decreases |items|
  {
    if |items| > 0 {
      GroupsNonEmpty(items[..|items| - 1]);
    }
  }

  /**
   * `subjectData`: one row per subject in order of first appearance, with
   * the number of its sheets and the rounded mean of their unrounded
   * percentages.
   */
  function SubjectData(sheets: seq<ExamSheet>): seq<SubjectRow> {
    GroupsNonEmpty(SubjectPairs(sheets));
    RowsOf(GroupBy(SubjectPairs(sheets)))
  }

  /** The percentages of the sheets of subject `s`, in order. */
  function PercentagesIn(sheets: seq<ExamSheet>, s: string): seq<real> {
    ValuesFor(SubjectPairs(sheets), s)
  }

  /** Each subject row counts and averages exactly that subject's sheets. */
  lemma SubjectRowsSpec(sheets: seq<ExamSheet>)
    ensures forall i :: 0 <= i < |SubjectData(sheets)| ==>
              var row := SubjectData(sheets)[i];
              row.examsCount == |PercentagesIn(sheets, row.subject)|
              && row.examsCount > 0
              && row.avgScore == Round(Mean(PercentagesIn(sheets, row.subject)))
  {
    GroupByValues(SubjectPairs(sheets));
    GroupsNonEmpty(SubjectPairs(sheets));
  }

  function Counts(rows: seq<SubjectRow>): (r: seq<int>)
    ensures |r| == |rows| && forall i :: 0 <= i < |rows| ==> r[i] == rows[i].examsCount
  {
    seq(|rows|, i requires 0 <= i < |rows| => rows[i].examsCount)
  }

  lemma {:induction false} CountsAreSizes(gs: seq<Group<string, real>>)
    requires forall i :: 0 <= i < |gs| ==> |gs[i].values| > 0
    ensures IntSum(Counts(RowsOf(gs))) == TotalSize(gs)
    decreases |gs|
  {
    if |gs| > 0 {
      var n := |gs| - 1;
      CountsAreSizes(gs[..n]);
      assert Counts(RowsOf(gs))[..n] == Counts(RowsOf(gs[..n]));
    }
  }

  /** The subject counts add up to the number of approved sheets. */
  lemma SubjectCountsAddUp(sheets: seq<ExamSheet>)
    ensures IntSum(Counts(SubjectData(sheets))) == |sheets|
  {
    GroupsNonEmpty(SubjectPairs(sheets));
    CountsAreSizes(GroupBy(SubjectPairs(sheets)));
    GroupBySize(SubjectPairs(sheets));
  }

  /** The headline figures handed to the charts. */
  datatype CurrentStats = CurrentStats(xp: int, streak: int, level: int, totalExams: nat)

  /** `xp || 0`, `streak || 0`, `level || 1`, and the number of approved sheets. */
  function Headline(xp: Option<int>, streak: Option<int>, level: Option<int>,
                    sheets: seq<ExamSheet>): (r: CurrentStats)
    ensures xp.None? ==> r.xp == 0
    ensures xp.Some? ==> r.xp == xp.value
    ensures streak.None? ==> r.streak == 0
    ensures streak.Some? ==> r.streak == streak.value
    ensures level.None? || level == Some(0) ==> r.level == 1
    ensures level.Some? && level.value != 0 ==> r.level == level.value
    ensures r.totalExams == |sheets|
  {
    CurrentStats(OrInt(xp, 0), OrInt(streak, 0), OrInt(level, 1), |sheets|)
  }
}
