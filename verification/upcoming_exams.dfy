/**
 * The upcoming-exams card (components/dashboard/upcoming-exams.tsx): the
 * days left to each exam, rounded up, its urgency colour and its label.
 */
module UpcomingExams {
  import opened Wrappers
  import opened Numbers
  import opened Text

  /** Milliseconds in a day. */
  const DayMs: real := 86400000.0

  /** An exam with its date as a millisecond timestamp. */
  datatype Exam = Exam(id: string, name: string, dateMs: real, className: string)

  /** A rendered row: the exam, whether it is urgent (red) and its label. */
  datatype Row = Row(exam: Exam, daysLeft: int, urgent: bool, caption: string)

  datatype Card = NoExams | Schedule(rows: seq<Row>)

  const EmptyText: string := "No upcoming exams scheduled"
  const TodayText: string := "Today"
  const DaysLeftSuffix: string := " days left"
  const ScheduleHref: string := "/dashboard/exams"

  /** Whole days between now and the exam, rounded up. */
  function DaysLeft(dateMs: real, nowMs: real): (d: int)
    ensures d as real - 1.0 < (dateMs - nowMs) / DayMs <= d as real
  {
    Ceil((dateMs - nowMs) / DayMs)
  }

  /** "n days left" for a day in the future, "Today" otherwise (also for a past date). */
  function Label(daysLeft: int): (s: string)
    ensures daysLeft <= 0 <==> s == TodayText
    ensures daysLeft > 0 ==> EndsWith(s, DaysLeftSuffix) && ParseInt(s) == Some(daysLeft)
  {
    if daysLeft > 0 then
      ParseIntLeadingNumber(daysLeft, DaysLeftSuffix);
      ConcatEnds(IntToString(daysLeft), DaysLeftSuffix);
      IntToString(daysLeft) + DaysLeftSuffix
    else TodayText
  }

  function RowOf(e: Exam, nowMs: real): (r: Row)
    ensures r.exam == e && r.daysLeft == DaysLeft(e.dateMs, nowMs)
    ensures r.urgent <==> r.daysLeft <= 3
    ensures r.caption == Label(r.daysLeft)
  {
    var d := DaysLeft(e.dateMs, nowMs);
    Row(e, d, d <= 3, Label(d))
  }

  /** The card: the empty state without exams, otherwise one row per exam in order. */
  function Render(exams: Option<seq<Exam>>, nowMs: real): (c: Card)
    ensures c == NoExams <==> exams.None? || |exams.value| == 0
    ensures c.Schedule? ==> |c.rows| == |exams.value|
                            && forall k :: 0 <= k < |c.rows| ==> c.rows[k] == RowOf(exams.value[k], nowMs)
  {
    match exams
    case None => NoExams
    case Some(es) =>
      if |es| == 0 then NoExams
      else Schedule(seq(|es|, k requires 0 <= k < |es| => RowOf(es[k], nowMs)))
  }

  /** "Today" is shown exactly when the exam is not in the future. */
  lemma TodayIffNotFuture(e: Exam, nowMs: real)
    ensures RowOf(e, nowMs).caption == TodayText <==> e.dateMs <= nowMs
  {
    var x := (e.dateMs - nowMs) / DayMs;
    assert x <= 0.0 <==> e.dateMs <= nowMs;
  }

  /** An exam is red exactly when it is at most three days away. */
  lemma UrgentIffWithinThreeDays(e: Exam, nowMs: real)
    ensures RowOf(e, nowMs).urgent <==> e.dateMs - nowMs <= 3.0 * DayMs
  {
    var x := (e.dateMs - nowMs) / DayMs;
    assert x <= 3.0 <==> e.dateMs - nowMs <= 3.0 * DayMs;
  }

  /** A later exam never has fewer days left. */
  lemma DaysLeftMonotone(a: real, b: real, nowMs: real)
    requires a <= b
    ensures DaysLeft(a, nowMs) <= DaysLeft(b, nowMs)
  {
    assert (a - nowMs) / DayMs <= (b - nowMs) / DayMs;
  }
}
