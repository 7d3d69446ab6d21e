/**
 * A parent claiming a student (app/api/parent/claim/route.ts): the
 * signed-in user gets a parent record if they have none, the student is
 * found by roll number and date of birth, and a parent-student mapping is
 * written unless exactly one already exists. The tables are inputs; the
 * inserts are returned writes.
 */
module ParentClaim {
  import opened Wrappers
  import opened Text
  import Seqs

  datatype User = User(id: string, name: Option<string>, email: Option<string>)

  datatype ParentRow = ParentRow(id: string, userId: string)

  datatype StudentRow = StudentRow(id: string, name: string, className: string, rollNumber: string, dob: string)

  datatype MappingRow = MappingRow(parentId: string, studentId: string)

  datatype Write =
    | CreateParent(userId: string, name: string, email: Option<string>)
    | InsertMapping(parentId: string, studentId: string, relation: string)

  datatype Body =
    | Error(error: string)
    | Claimed(studentId: string, studentName: string, studentClass: string)

  datatype Outcome = Outcome(status: int, body: Body, writes: seq<Write>)

  const DefaultRelation: string := "guardian"
  const NotAuthenticated: string := "Not authenticated"
  const StudentNotFound: string := "Student not found. Please check Roll Number and Date of Birth."
  const AlreadyClaimed: string := "You have already claimed this student."

  /** The test of `.eq("user_id", user.id)`. */
  function OfUser(userId: string): ParentRow -> bool {
    (p: ParentRow) => p.userId == userId
  }

  /** The parent rows of a user: every row with that user id, in table order, and nothing else. */
  function ParentsOf(rows: seq<ParentRow>, userId: string): (r: seq<ParentRow>)
    ensures r == Seqs.Filter(rows, OfUser(userId))
    ensures forall k :: 0 <= k < |r| ==> r[k] in rows && r[k].userId == userId
    ensures forall k :: 0 <= k < |rows| && rows[k].userId == userId ==> rows[k] in r
  {
    if |rows| == 0 then []
    else (if rows[0].userId == userId then [rows[0]] else []) + ParentsOf(rows[1..], userId)
  }

  /** The student query: roll number equal to the trimmed input ignoring case, date of birth equal. */
  predicate StudentMatches(s: StudentRow, rollNumber: string, dob: string) {
    EqualsIgnoreCase(s.rollNumber, Trim(rollNumber)) && s.dob == dob
  }

  function StudentsMatching(rows: seq<StudentRow>, rollNumber: string, dob: string): (r: seq<StudentRow>)
    ensures forall k :: 0 <= k < |r| ==> r[k] in rows && StudentMatches(r[k], rollNumber, dob)
    ensures forall k :: 0 <= k < |rows| && StudentMatches(rows[k], rollNumber, dob) ==> rows[k] in r
  {
    if |rows| == 0 then []
    else (if StudentMatches(rows[0], rollNumber, dob) then [rows[0]] else []) + StudentsMatching(rows[1..], rollNumber, dob)
  }

  /** The test of `.eq("parent_id", …).eq("student_id", …)`. */
  function IsMapping(parentId: string, studentId: string): MappingRow -> bool {
    (m: MappingRow) => m == MappingRow(parentId, studentId)
  }

  /** The existing mappings of this parent to this student: every such row, and nothing else. */
  function MappingsOf(rows: seq<MappingRow>, parentId: string, studentId: string): (r: seq<MappingRow>)
    ensures r == Seqs.Filter(rows, IsMapping(parentId, studentId))
    ensures forall k :: 0 <= k < |r| ==> r[k] == MappingRow(parentId, studentId)
    ensures |r| <= |rows|
    ensures |r| == 0 <==> MappingRow(parentId, studentId) !in rows
  {
    if |rows| == 0 then []
    else (if rows[0] == MappingRow(parentId, studentId) then [rows[0]] else []) + MappingsOf(rows[1..], parentId, studentId)
  }

  /**
   * `POST`. Each lookup uses `.single()`, which yields a row only when
   * exactly one matched. `created` is the id the parent insert returns, or
   * its error.
   */
  function Claim(user: Option<User>, rollNumber: string, dob: string, relation: Option<string>,
                 parents: seq<ParentRow>, created: Result<string>,
                 students: seq<StudentRow>, mappings: seq<MappingRow>): (o: Outcome)
    ensures user.None? ==> o == Outcome(401, Error(NotAuthenticated), [])
    ensures o.status == 200 <==>
              user.Some? && (|ParentsOf(parents, user.value.id)| == 1 || created.Ok?)
              && |StudentsMatching(students, rollNumber, dob)| == 1
              && |MappingsOf(mappings, ParentIdOf(user.value, parents, created), StudentsMatching(students, rollNumber, dob)[0].id)| != 1
    ensures o.status == 200 ==>
              var s := StudentsMatching(students, rollNumber, dob)[0];
              o.body == Claimed(s.id, s.name, s.className)
              && |o.writes| > 0 && o.writes[|o.writes| - 1] == InsertMapping(ParentIdOf(user.value, parents, created), s.id,
                                                           if relation.Some? then relation.value else DefaultRelation)
    ensures o.status != 200 ==> forall k :: 0 <= k < |o.writes| ==> !o.writes[k].InsertMapping?
  {
    match user
    case None => Outcome(401, Error(NotAuthenticated), [])
    case Some(u) =>
      var found := ParentsOf(parents, u.id);
      var createWrite := if |found| == 1 then [] else [CreateParent(u.id, OrText(u.name, "Parent"), u.email)];
      if |found| != 1 && created.Err? then Outcome(500, Error(created.error), createWrite)
      else
        var parentId := ParentIdOf(u, parents, created);
        var matching := StudentsMatching(students, rollNumber, dob);
        if |matching| != 1 then Outcome(404, Error(StudentNotFound), createWrite)
        else
          var s := matching[0];
          if |MappingsOf(mappings, parentId, s.id)| == 1 then Outcome(400, Error(AlreadyClaimed), createWrite)
          else
            var rel := if relation.Some? then relation.value else DefaultRelation;
            Outcome(200, Claimed(s.id, s.name, s.className), createWrite + [InsertMapping(parentId, s.id, rel)])
  }

  /** The parent the mapping is written for: the one found, or the one just created. */
  function ParentIdOf(u: User, parents: seq<ParentRow>, created: Result<string>): (id: string)
    ensures |ParentsOf(parents, u.id)| == 1 ==> ParentRow(id, u.id) in parents
    ensures |ParentsOf(parents, u.id)| != 1 && created.Ok? ==> id == created.value
  {
    var found := ParentsOf(parents, u.id);
    if |found| == 1 then found[0].id else if created.Ok? then created.value else ""
  }

  /** A successful claim writes exactly one mapping, and a parent record only when none was found. */
  lemma ClaimWritesOneMapping(user: Option<User>, rollNumber: string, dob: string, relation: Option<string>,
                              parents: seq<ParentRow>, created: Result<string>,
                              students: seq<StudentRow>, mappings: seq<MappingRow>)
    requires Claim(user, rollNumber, dob, relation, parents, created, students, mappings).status == 200
    ensures var o := Claim(user, rollNumber, dob, relation, parents, created, students, mappings);
            |o.writes| == (if |ParentsOf(parents, user.value.id)| == 1 then 1 else 2)
            && forall k :: 0 <= k < |o.writes| - 1 ==> o.writes[k].CreateParent?
  {
    var u := user.value;
    var found := ParentsOf(parents, u.id);
    var createWrite := if |found| == 1 then [] else [CreateParent(u.id, OrText(u.name, "Parent"), u.email)];
    var o := Claim(user, rollNumber, dob, relation, parents, created, students, mappings);
    assert o.writes[..|o.writes| - 1] == createWrite;
  }

  /**
   * Claiming the same student twice: once the first mapping is stored, the
   * second claim is refused with 400 and writes no mapping (provided none
   * existed before).
   */
  lemma SecondClaimRefused(u: User, rollNumber: string, dob: string, relation: Option<string>,
                           parents: seq<ParentRow>, students: seq<StudentRow>, mappings: seq<MappingRow>)
    requires |ParentsOf(parents, u.id)| == 1
    requires Claim(Some(u), rollNumber, dob, relation, parents, Err("unused"), students, mappings).status == 200
    requires MappingsOf(mappings, ParentsOf(parents, u.id)[0].id, StudentsMatching(students, rollNumber, dob)[0].id) == []
    ensures var stored := mappings + [MappingRow(ParentsOf(parents, u.id)[0].id, StudentsMatching(students, rollNumber, dob)[0].id)];
            Claim(Some(u), rollNumber, dob, relation, parents, Err("unused"), students, stored).status == 400
  {
    var p := ParentsOf(parents, u.id)[0].id;
    var s := StudentsMatching(students, rollNumber, dob)[0].id;
    MappingsAppend(mappings, [MappingRow(p, s)], p, s);
    assert MappingsOf([MappingRow(p, s)], p, s) == [MappingRow(p, s)] by {
      assert [MappingRow(p, s)][1..] == [];
    }
  }

  lemma MappingsAppend(a: seq<MappingRow>, b: seq<MappingRow>, p: string, s: string)
    ensures MappingsOf(a + b, p, s) == MappingsOf(a, p, s) + MappingsOf(b, p, s)
  {
    Seqs.FilterAppend(a, b, IsMapping(p, s));
  }

  /** No student with that roll number and date of birth: 404, and no mapping. */
  lemma UnknownStudentNotFound(u: User, rollNumber: string, dob: string, relation: Option<string>,
                               parents: seq<ParentRow>, created: Result<string>,
                               students: seq<StudentRow>, mappings: seq<MappingRow>)
    requires |ParentsOf(parents, u.id)| == 1 || created.Ok?
    requires forall k :: 0 <= k < |students| ==> !StudentMatches(students[k], rollNumber, dob)
    ensures Claim(Some(u), rollNumber, dob, relation, parents, created, students, mappings).status == 404
  {
  }

  /** The roll number is matched after trimming and ignoring case. */
  lemma RollNumberTrimmed(s: StudentRow, typed: string)
    requires Trim(typed) == Lower(s.rollNumber)
    ensures StudentMatches(s, typed, s.dob)
  {
    LowerIdempotent(s.rollNumber);
  }
}
