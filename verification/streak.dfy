/**
 * The streak reminder (components/student/streak-reminder.tsx): a banner
 * that counts down the hours left to keep the daily streak, says when the
 * streak was reset, and a celebration on milestone streak lengths.
 */
module Streak {
  import opened Wrappers
  import opened Numbers
  import opened Text

  /** The component's state: banner shown, hours left (null until known), celebration shown. */
  datatype Reminder = Reminder(visible: bool, hoursLeft: Option<int>, celebrating: bool)

  const Initial: Reminder := Reminder(false, None, false)

  /** The hours of a day a streak survives without activity, and the warning window. */
  const DayHours: real := 24.0
  const WarningHours: real := 6.0

  const Milestones: seq<int> := [7, 14, 30, 50, 100, 365]

  /**
   * `lastActiveAt` as the effect sees it: missing (null or empty), or the
   * hours elapsed between it and the current time.
   */
  datatype LastActive = NeverActive | HoursAgo(hours: real)

  function Remaining(hours: real): real {
    DayHours - hours
  }

  /**
   * The effect run on mount and whenever the inputs change. Without a last
   * activity it shows the banner with no countdown and returns before the
   * milestone check.
   */
  function Effect(prev: Reminder, streak: int, last: LastActive): (r: Reminder)
    ensures last.NeverActive? ==> r == Reminder(true, None, prev.celebrating)
    ensures last.HoursAgo? ==> r.celebrating == (prev.celebrating || streak in Milestones)
    ensures last.HoursAgo? && 0.0 < Remaining(last.hours) <= WarningHours ==>
              r.visible && r.hoursLeft.Some?
              && r.hoursLeft.value as real - 1.0 < Remaining(last.hours) <= r.hoursLeft.value as real
    ensures last.HoursAgo? && Remaining(last.hours) <= 0.0 ==> r.visible && r.hoursLeft == Some(0)
    ensures last.HoursAgo? && Remaining(last.hours) > WarningHours ==>
              r.visible == prev.visible && r.hoursLeft == prev.hoursLeft
  {
    match last
    case NeverActive => prev.(visible := true, hoursLeft := None)
    case HoursAgo(h) =>
      var remaining := Remaining(h);
      var shown :=
        if remaining <= WarningHours && remaining > 0.0 then prev.(hoursLeft := Some(Ceil(remaining)), visible := true)
        else if remaining <= 0.0 then prev.(visible := true, hoursLeft := Some(0))
        else prev;
      if streak in Milestones then shown.(celebrating := true) else shown
  }

  /** The close button hides the banner. */
  function Dismiss(s: Reminder): (r: Reminder)
    ensures !r.visible && r.hoursLeft == s.hoursLeft && r.celebrating == s.celebrating
  {
    s.(visible := false)
  }

  /** A click on the celebration, or its five-second timer, ends it. */
  function EndCelebration(s: Reminder): (r: Reminder)
    ensures !r.celebrating && r.visible == s.visible && r.hoursLeft == s.hoursLeft
  {
    s.(celebrating := false)
  }

  /** The component renders nothing when neither banner nor celebration is shown. */
  predicate Rendered(s: Reminder) {
    s.visible || s.celebrating
  }

  datatype Colour = Red | Orange | Yellow

  /** The banner's colour: red at zero, orange for a non-zero count of at most 3, yellow otherwise. */
  function BannerColour(hoursLeft: Option<int>): (c: Colour)
    ensures c == Red <==> hoursLeft == Some(0)
    ensures c == Orange <==> hoursLeft.Some? && hoursLeft.value != 0 && hoursLeft.value <= 3
  {
    if hoursLeft == Some(0) then Red
    else if hoursLeft.Some? && hoursLeft.value != 0 && hoursLeft.value <= 3 then Orange
    else Yellow
  }

  const ResetText: string := "Your streak was reset! Start fresh today."
  const StartText: string := "Complete an activity to start your streak!"

  function CountdownText(hours: int, streak: int): string {
    IntToString(hours) + "h left to maintain your " + IntToString(streak) + "-day streak!"
  }

  /** The banner's message. */
  function BannerText(hoursLeft: Option<int>, streak: int): (t: string)
    ensures hoursLeft == Some(0) ==> t == ResetText
    ensures hoursLeft.None? ==> t == StartText
    ensures hoursLeft.Some? && hoursLeft.value != 0 ==> t == CountdownText(hoursLeft.value, streak)
  {
    match hoursLeft
    case None => StartText
    case Some(h) => if h == 0 then ResetText else CountdownText(h, streak)
  }

  /** The countdown is a whole number of hours no greater than six, so never 0. */
  lemma CountdownRange(streak: int, hours: real)
    requires 0.0 < Remaining(hours) <= WarningHours
    ensures var r := Effect(Initial, streak, HoursAgo(hours));
            r.hoursLeft.Some? && 1 <= r.hoursLeft.value <= 6
  {
  }

  /**
   * Starting from the initial state, the banner is shown exactly when there
   * was no activity or at most six hours of the day are left.
   */
  lemma ShownWhenDue(streak: int, last: LastActive)
    ensures Effect(Initial, streak, last).visible <==>
              last.NeverActive? || Remaining(last.hours) <= WarningHours
  {
  }

  /** Starting from the initial state, the banner is red exactly when the day has run out. */
  lemma RedWhenReset(streak: int, hours: real)
    ensures BannerColour(Effect(Initial, streak, HoursAgo(hours)).hoursLeft) == Red <==> Remaining(hours) <= 0.0
  {
  }

  /**
   * Starting from the initial state, the banner is orange exactly when
   * more than zero and at most three hours are left: a fractional hour
   * rounds up and stays within three.
   */
  lemma OrangeInLastThreeHours(streak: int, hours: real)
    ensures BannerColour(Effect(Initial, streak, HoursAgo(hours)).hoursLeft) == Orange <==>
              0.0 < Remaining(hours) <= 3.0
  {
    var rem := Remaining(hours);
    if 0.0 < rem <= WarningHours {
      var h := Ceil(rem);
      assert h as real - 1.0 < rem <= h as real;
      assert h <= 3 <==> rem <= 3.0;
    }
  }

  /** A milestone streak always renders the component, whatever the time. */
  lemma MilestoneRenders(streak: int, hours: real)
    requires streak in Milestones
    ensures Rendered(Effect(Initial, streak, HoursAgo(hours)))
  {
  }

  /** Away from milestones and with more than six hours left, nothing renders. */
  lemma QuietWhenSafe(streak: int, hours: real)
    requires streak !in Milestones && Remaining(hours) > WarningHours
    ensures !Rendered(Effect(Initial, streak, HoursAgo(hours)))
  {
  }
}
