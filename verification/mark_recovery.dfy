/**
 * The mark-recovery widget (components/dashboard/mark-recovery-widget.tsx):
 * the marks lost to each kind of mistake, shown as negative figures, and
 * nothing at all when no marks were lost.
 */
module MarkRecovery {
  import opened Wrappers
  import opened Text
  import StudentDashboard

  datatype Category = ConceptGaps | CalculationErrors | KeywordsMissed

  /** A breakdown line: its category and the marks lost to it. */
  datatype Row = Row(category: Category, lost: real)

  /** What the widget renders: the total and the lines with something lost. */
  datatype Widget = Widget(totalLost: real, rows: seq<Row>)

  function TotalLost(s: StudentDashboard.Recovery): real {
    s.concept + s.calculation + s.keyword
  }

  /** The breakdown lines, in fixed order, each present exactly when its figure is positive. */
  function Rows(s: StudentDashboard.Recovery): (r: seq<Row>)
    ensures forall k :: 0 <= k < |r| ==> r[k].lost > 0.0
    ensures Row(ConceptGaps, s.concept) in r <==> s.concept > 0.0
    ensures Row(CalculationErrors, s.calculation) in r <==> s.calculation > 0.0
    ensures Row(KeywordsMissed, s.keyword) in r <==> s.keyword > 0.0
    ensures |r| <= 3
  {
    (if s.concept > 0.0 then [Row(ConceptGaps, s.concept)] else [])
    + (if s.calculation > 0.0 then [Row(CalculationErrors, s.calculation)] else [])
    + (if s.keyword > 0.0 then [Row(KeywordsMissed, s.keyword)] else [])
  }

  /** The widget renders nothing when the total is exactly 0. */
  function Render(s: StudentDashboard.Recovery): (r: Option<Widget>)
    ensures r.None? <==> TotalLost(s) == 0.0
    ensures r.Some? ==> r.value.totalLost == TotalLost(s) && r.value.rows == Rows(s)
  {
    if TotalLost(s) == 0.0 then None else Some(Widget(TotalLost(s), Rows(s)))
  }

  /** A dashboard without a recent exam or feedback shows no widget. */
  lemma HiddenWithoutFeedback(recent: seq<StudentDashboard.Scores.Sheet>,
                              rc: Option<StudentDashboard.Scores.RootCause>)
    requires |recent| == 0 || rc.None?
    ensures Render(StudentDashboard.RecoveryStats(recent, rc)).None?
  {
  }

  /** With non-negative figures the widget shows exactly when some line would. */
  lemma ShownIffSomeRow(s: StudentDashboard.Recovery)
    requires s.concept >= 0.0 && s.calculation >= 0.0 && s.keyword >= 0.0
    ensures Render(s).Some? <==> |Rows(s)| > 0
  {
  }

  /** A whole number of lost marks as printed: a minus sign, then the number. */
  function LostText(n: nat): (r: string)
    ensures |r| >= 2 && r[0] == '-'
  {
    "-" + IntToString(n)
  }

  /** The printed figure reads back as the negated loss. */
  lemma LostTextReadsBack(n: nat)
    requires n > 0
    ensures ParseInt(LostText(n)) == Some(-(n as int))
  {
    LostTextIsIntText(n);
    ParseIntToString(-(n as int));
  }

  lemma LostTextIsIntText(n: nat)
    requires n > 0
    ensures LostText(n) == IntToString(-(n as int))
  {
    var m := -(n as int);
    assert m < 0 && -m == n;
  }
}
