/**
 * Which navigation item is highlighted: the teacher navbar
 * (components/dashboard/navbar.tsx) and the student navbar
 * (components/dashboard/navbar-student.tsx). Both compute, from the
 * current pathname, the items shown and which of them are active.
 */
module Navigation {
  import opened Text

  /** `pathname === p || pathname.startsWith(p + "/")`: `p` itself or a page below it. */
  predicate IsActive(pathname: string, p: string) {
    pathname == p || StartsWith(pathname, p + "/")
  }

  datatype NavItem = NavItem(href: string, title: string, active: bool)

  function Labels(items: seq<NavItem>): seq<string> {
    if |items| == 0 then [] else [items[0].title] + Labels(items[1..])
  }

  function ActiveCount(items: seq<NavItem>): nat {
    if |items| == 0 then 0 else (if items[0].active then 1 else 0) + ActiveCount(items[1..])
  }

  // ---------------------------------------------------------------------
  // the teacher navbar
  // ---------------------------------------------------------------------

  /** An item whose activity is a plain substring test on its last path segment. */
  function SegmentItem(pathname: string, segment: string, title: string): (i: NavItem)
    ensures i.href == "/dashboard" + segment && i.title == title
    ensures i.active <==> Contains(pathname, segment)
  {
    NavItem("/dashboard" + segment, title, Contains(pathname, segment))
  }

  /**
   * The items of the teacher navbar: Overview, active only on exactly
   * "/dashboard"; then Exams, Grading and Students for a teacher or Results
   * for anyone else; then Messages and Settings.
   */
  function DashboardItems(pathname: string, isTeacher: bool): (items: seq<NavItem>)
    ensures |items| > 0 && items[0] == NavItem("/dashboard", "Overview", pathname == "/dashboard")
    ensures Labels(items) == if isTeacher then ["Overview", "Exams", "Grading", "Students", "Messages", "Settings"]
                             else ["Overview", "Results", "Messages", "Settings"]
    ensures forall k :: 0 <= k < |items| ==> StartsWith(items[k].href, "/dashboard")
    ensures forall k :: 1 <= k < |items| ==>
              |items[k].href| >= 10 && (items[k].active <==> Contains(pathname, items[k].href[10..]))
  {
    var middle := if isTeacher then [SegmentItem(pathname, "/exams", "Exams"), SegmentItem(pathname, "/grading", "Grading"),
                                     SegmentItem(pathname, "/students", "Students")]
                  else [SegmentItem(pathname, "/results", "Results")];
    var items := [NavItem("/dashboard", "Overview", pathname == "/dashboard")] + middle
                 + [SegmentItem(pathname, "/messages", "Messages"), SegmentItem(pathname, "/settings", "Settings")];
    LabelsOf(items);
    items
  }

  /** `Labels` read element by element. */
  lemma {:induction false} LabelsOf(items: seq<NavItem>)
    ensures |Labels(items)| == |items|
    ensures forall k :: 0 <= k < |items| ==> Labels(items)[k] == items[k].title
    decreases |items|
  {
    if |items| > 0 {
      LabelsOf(items[1..]);
      forall k | 0 <= k < |items| ensures Labels(items)[k] == items[k].title {
        if k > 0 { assert items[k] == items[1..][k - 1]; }
      }
    }
  }

  /** Overview is highlighted on the dashboard root only, never below it. */
  lemma OverviewOnlyAtRoot(pathname: string, isTeacher: bool)
    ensures DashboardItems(pathname, isTeacher)[0].active <==> pathname == "/dashboard"
  {
  }

  /**
   * The substring test has no segment boundary: a page named
   * "/dashboard/exams-archive" highlights Exams, though it is not at or
   * below "/dashboard/exams".
   */
  lemma ExamsMatchesWithoutBoundary()
    ensures DashboardItems("/dashboard/exams-archive", true)[1].active
    ensures !IsActive("/dashboard/exams-archive", "/dashboard/exams")
  {
    var p := "/dashboard/exams-archive";
    assert OccursAt(p, "/exams", 10);
    assert p[..|"/dashboard/exams/"|][16] == '-';
  }

  // ---------------------------------------------------------------------
  // the student navbar
  // ---------------------------------------------------------------------

  /**
   * The items of the student navbar: Home on exactly "/student/dashboard";
   * Library at or below the vault or study pages; Insights at or below the
   * performance or analytics pages; Flashcards at or below its page.
   */
  function StudentItems(pathname: string): (items: seq<NavItem>)
    ensures |items| == 4 && Labels(items) == ["Home", "Library", "Insights", "Flashcards"]
    ensures items[0].active <==> pathname == "/student/dashboard"
    ensures items[1].active <==> IsActive(pathname, "/student/vault") || IsActive(pathname, "/student/study")
    ensures items[2].active <==> IsActive(pathname, "/student/performance") || IsActive(pathname, "/student/analytics")
    ensures items[3].active <==> IsActive(pathname, "/student/flashcards")
  {
    var items := [NavItem("/student/dashboard", "Home", pathname == "/student/dashboard"),
                  NavItem("/student/vault", "Library", IsActive(pathname, "/student/vault") || IsActive(pathname, "/student/study")),
                  NavItem("/student/performance", "Insights",
                          IsActive(pathname, "/student/performance") || IsActive(pathname, "/student/analytics")),
                  NavItem("/student/flashcards", "Flashcards", IsActive(pathname, "/student/flashcards"))];
    LabelsOf(items);
    items
  }

  /** The boundary is enforced: a sibling whose name merely extends the page's is not below it. */
  lemma VaultBoundary()
    ensures !StudentItems("/student/vaultx")[1].active
  {
    var p := "/student/vaultx";
    assert p[..|"/student/vault/"|][14] == 'x';
    assert p[..|"/student/study/"|][9] == 'v';
  }

  /** An active page's prefix is read character by character at the start of the pathname. */
  lemma ActivePrefix(pathname: string, a: string, i: nat)
    ensures IsActive(pathname, a) && i < |a| ==> i < |pathname| && pathname[i] == a[i]
  {
    if IsActive(pathname, a) && i < |a| && pathname != a {
      assert pathname[..|a + "/"|][i] == (a + "/")[i];
    }
  }

  /** Two page prefixes that disagree at some position cannot both be active. */
  lemma Diverging(pathname: string, a: string, b: string, i: nat)
    requires i < |a| && i < |b| && a[i] != b[i]
    ensures !(IsActive(pathname, a) && IsActive(pathname, b))
  {
    ActivePrefix(pathname, a, i);
    ActivePrefix(pathname, b, i);
  }

  /** The student navbar never highlights two items at once. */
  lemma StudentItemsExclusive(pathname: string)
    ensures ActiveCount(StudentItems(pathname)) <= 1
  {
    var items := StudentItems(pathname);
    // the pages differ at the tenth character: d(ashboard), v(ault), s(tudy), p(erformance), a(nalytics), f(lashcards)
    var d, v, st := "/student/dashboard", "/student/vault", "/student/study";
    var pf, an, fl := "/student/performance", "/student/analytics", "/student/flashcards";
    assert d[9] == 'd' && v[9] == 'v' && st[9] == 's' && pf[9] == 'p' && an[9] == 'a' && fl[9] == 'f';
    Diverging(pathname, d, v, 9);
    Diverging(pathname, d, st, 9);
    Diverging(pathname, d, pf, 9);
    Diverging(pathname, d, an, 9);
    Diverging(pathname, d, fl, 9);
    Diverging(pathname, v, pf, 9);
    Diverging(pathname, v, an, 9);
    Diverging(pathname, v, fl, 9);
    Diverging(pathname, st, pf, 9);
    Diverging(pathname, st, an, 9);
    Diverging(pathname, st, fl, 9);
    Diverging(pathname, pf, fl, 9);
    Diverging(pathname, an, fl, 9);
    assert items[0].active ==> IsActive(pathname, d);
    assert ActiveCount(items[3..]) == (if items[3].active then 1 else 0) by { assert items[3..][1..] == []; }
    assert ActiveCount(items[2..]) == (if items[2].active then 1 else 0) + ActiveCount(items[3..]) by {
      assert items[2..][1..] == items[3..];
    }
    assert ActiveCount(items[1..]) == (if items[1].active then 1 else 0) + ActiveCount(items[2..]) by {
      assert items[1..][1..] == items[2..];
    }
    assert ActiveCount(items) == (if items[0].active then 1 else 0) + (if items[1].active then 1 else 0)
                                + (if items[2].active then 1 else 0) + (if items[3].active then 1 else 0);
  }
}
