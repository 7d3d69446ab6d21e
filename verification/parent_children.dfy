/**
 * `GET` of app/api/parent/children/route.ts: the signed-in parent's linked
 * children, each with their figures, the number of their answer sheets and
 * their rounded average percentage.
 */
module ParentChildren {
  import opened Wrappers
  import opened Scores

  /** A linked student with the answer sheets joined to it. */
  datatype Student = Student(id: string, name: string, className: string, rollNumber: string,
                             xp: Option<int>, streak: Option<int>, level: Option<int>,
                             sheets: Option<seq<Sheet>>)

  /** A row of `parent_student_mapping`; the joined student may be missing. */
  datatype Mapping = Mapping(relation: string, student: Option<Student>)

  /** An entry of the response's `children`. */
  datatype Child = Child(id: string, name: string, className: string, rollNumber: string,
                         relation: string, xp: Option<int>, streak: Option<int>, level: Option<int>,
                         avgScore: int, examCount: nat)

  datatype Response =
    | NotAuthenticated            // 401
    | Children(children: seq<Child>)
    | ServerError                 // 500: reading a missing student throws

  function SheetsOf(s: Student): seq<Sheet> {
    s.sheets.GetOr([])
  }

  /** The entry built from one mapping whose student is present. */
  function ChildOf(m: Mapping): (c: Child)
    requires m.student.Some?
    ensures var s := m.student.value;
            c.id == s.id && c.name == s.name && c.className == s.className
            && c.rollNumber == s.rollNumber && c.relation == m.relation
            && c.xp == s.xp && c.streak == s.streak && c.level == s.level
            && c.examCount == |SheetsOf(s)|
            && c.avgScore == AverageScore(SheetsOf(s))
  {
    var s := m.student.value;
    Child(s.id, s.name, s.className, s.rollNumber, m.relation, s.xp, s.streak, s.level,
          AverageScore(SheetsOf(s)), |SheetsOf(s)|)
  }

  predicate AllStudentsPresent(ms: seq<Mapping>) {
    forall k :: 0 <= k < |ms| ==> ms[k].student.Some?
  }

  function ChildrenOf(ms: seq<Mapping>): (r: seq<Child>)
    requires AllStudentsPresent(ms)
    ensures |r| == |ms|
    ensures forall k :: 0 <= k < |ms| ==> r[k] == ChildOf(ms[k])
  {
    seq(|ms|, k requires 0 <= k < |ms| => ChildOf(ms[k]))
  }

  /**
   * The route: 401 without a user; no children without a parent record or
   * without mappings; otherwise one entry per mapping, or a 500 when a
   * mapping's student is missing.
   */
  function ListChildren(signedIn: bool, parentFound: bool, mappings: Option<seq<Mapping>>): (r: Response)
    ensures r == NotAuthenticated <==> !signedIn
    ensures signedIn && (!parentFound || mappings.None?) ==> r == Children([])
    ensures signedIn && parentFound && mappings.Some? && AllStudentsPresent(mappings.value) ==>
              r == Children(ChildrenOf(mappings.value))
    ensures r == ServerError ==> mappings.Some? && !AllStudentsPresent(mappings.value)
  {
    if !signedIn then NotAuthenticated
    else if !parentFound then Children([])
    else match mappings
      case None => Children([])
      case Some(ms) => if AllStudentsPresent(ms) then Children(ChildrenOf(ms)) else ServerError
  }

  /** A child without sheets shows no exams and an average of 0. */
  lemma NoSheetsNoAverage(m: Mapping)
    requires m.student.Some? && (m.student.value.sheets.None? || m.student.value.sheets == Some([]))
    ensures ChildOf(m).avgScore == 0 && ChildOf(m).examCount == 0
  {
  }

  /** A child whose sheets are scored within their marks has an average in 0..100. */
  lemma ChildAverageBounds(m: Mapping)
    requires m.student.Some?
    requires forall k :: 0 <= k < |SheetsOf(m.student.value)| ==> InRange(SheetsOf(m.student.value)[k])
    ensures 0 <= ChildOf(m).avgScore <= 100
  {
    AverageScoreBounds(SheetsOf(m.student.value));
  }
}
