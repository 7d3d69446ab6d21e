/**
 * The teacher's grading overview (app/dashboard/grading/page.tsx): per
 * exam, how many submissions there are, how many are graded, and the
 * progress bar.
 */
module GradingProgress {
  import opened Wrappers
  import opened Numbers
  import opened Seqs

  /** The page shown without a signed-in user. */
  const LoginPrompt: string := "Please log in"

  /** A sheet counts as graded once it is graded or approved. */
  predicate IsGraded(status: string) {
    status == "graded" || status == "approved"
  }

  /** `answer_sheets?.length || 0`. */
  function TotalSheets(statuses: Option<seq<string>>): nat {
    match statuses
    case None => 0
    case Some(ss) => |ss|
  }

  /** The number of graded or approved sheets, 0 without a list. */
  function GradedSheets(statuses: Option<seq<string>>): (r: nat)
    ensures r <= TotalSheets(statuses)
    ensures statuses.None? ==> r == 0
    ensures statuses.Some? ==> r == Occurrences(statuses.value, "graded") + Occurrences(statuses.value, "approved")
  {
    match statuses
    case None => 0
    case Some(ss) =>
      GradedCountIsMultiplicity(ss);
      Count(ss, IsGraded)
  }

  /** How often a status occurs in the list. */
  function Occurrences(ss: seq<string>, status: string): nat {
    if |ss| == 0 then 0 else (if ss[0] == status then 1 else 0) + Occurrences(ss[1..], status)
  }

  /** Counting graded sheets is adding how often each of the two statuses occurs. */
  lemma {:induction false} GradedCountIsMultiplicity(ss: seq<string>)
    ensures Count(ss, IsGraded) == Occurrences(ss, "graded") + Occurrences(ss, "approved")
  {
    if |ss| > 0 {
      GradedCountIsMultiplicity(ss[1..]);
    }
  }

  /** Approving a graded sheet leaves the graded count as it is. */
  lemma ApprovalKeepsGradedCount(before: seq<string>, after: seq<string>)
    ensures GradedSheets(Some(before + ["graded"] + after)) == GradedSheets(Some(before + ["approved"] + after))
  {
    FilterAppend(before + ["graded"], after, IsGraded);
    FilterAppend(before + ["approved"], after, IsGraded);
    FilterAppend(before, ["graded"], IsGraded);
    FilterAppend(before, ["approved"], IsGraded);
  }

  /** The progress in percent, unrounded: the share of graded sheets, 0 without sheets. */
  function Progress(statuses: Option<seq<string>>): (r: real)
    ensures 0.0 <= r <= 100.0
    ensures TotalSheets(statuses) == 0 ==> r == 0.0
    ensures TotalSheets(statuses) > 0 ==> r * TotalSheets(statuses) as real == GradedSheets(statuses) as real * 100.0
  {
    PercentOf(GradedSheets(statuses), TotalSheets(statuses))
  }

  /** `total > 0 ? (graded / total) * 100 : 0`. */
  function PercentOf(graded: nat, total: nat): (r: real)
    requires graded <= total
    ensures 0.0 <= r <= 100.0
    ensures total == 0 ==> r == 0.0
    ensures total > 0 ==> r * total as real == graded as real * 100.0
  {
    if total > 0 then
      Share(graded as real, total as real);
      graded as real / total as real * 100.0
    else 0.0
  }

  /** A share of a positive whole, in percent, lies between 0 and 100 and scales back to the part. */
  lemma Share(g: real, t: real)
    requires 0.0 <= g <= t && t > 0.0
    ensures 0.0 <= g / t * 100.0 <= 100.0
    ensures g / t * 100.0 * t == g * 100.0
  {
    var q := g / t;
    assert q * t == g;
    assert 0.0 <= q <= 1.0;
    assert q * 100.0 * t == (q * t) * 100.0;
  }

  /** The figure printed next to the bar. */
  function ShownProgress(statuses: Option<seq<string>>): (r: int)
    ensures 0 <= r <= 100
    ensures r as real - 0.5 <= Progress(statuses) < r as real + 0.5
  {
    RoundBetween(Progress(statuses), 0, 100);
    Round(Progress(statuses))
  }

  /** All sheets graded or approved shows a full bar. */
  lemma AllGradedIsComplete(ss: seq<string>)
    requires |ss| > 0
    requires forall k :: 0 <= k < |ss| ==> IsGraded(ss[k])
    ensures Progress(Some(ss)) == 100.0
  {
    FilterAll(ss, IsGraded);
    assert GradedSheets(Some(ss)) == TotalSheets(Some(ss));
    Whole(|ss| as real);
  }

  lemma Whole(t: real)
    requires t > 0.0
    ensures t / t * 100.0 == 100.0
  {
    assert t / t == 1.0;
  }

  lemma {:induction false} FilterAll<T>(xs: seq<T>, p: T -> bool)
    requires forall k :: 0 <= k < |xs| ==> p(xs[k])
    ensures Filter(xs, p) == xs
    decreases |xs|
  {
    if |xs| > 0 {
      FilterAll(xs[1..], p);
    }
  }
}
