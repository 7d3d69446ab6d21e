/**
 * Student self-registration (app/auth/student-signup/page.tsx): the
 * class and roll number must name exactly one student record, whose email
 * (when it has one) matches and which is not yet linked; only then is the
 * account created and linked to that record. The database and the auth
 * service are inputs; the link is a returned write.
 */
module StudentSignup {
  import opened Wrappers
  import opened Text

  /** A `students` row found by class and roll number. */
  datatype Record = Record(id: string, email: Option<string>, userId: Option<string>)

  const NotFound: string := "Student details not found. Please check your Class and Roll Number."
  const OtherEmail: string := "This student ID is already linked to a different email address. Please use the assigned email or contact your teacher."
  const AlreadyRegistered: string := "This student account is already registered. Please login."
  const LinkFailed: string := "Account created but failed to link to student profile. Contact support."
  const Dashboard: string := "/student/dashboard"

  /**
   * The checks before any account exists. `.single()` yields a record only
   * when the query matched exactly one row; the email check applies only
   * when the record has an email, and ignores case.
   */
  function Check(matches: seq<Record>, queryFailed: bool, email: string): (r: Result<Record>)
    ensures r.Ok? <==> !queryFailed && |matches| == 1
                       && (matches[0].email.None? || matches[0].email.value == "" || EqualsIgnoreCase(matches[0].email.value, email))
                       && (matches[0].userId.None? || matches[0].userId.value == "")
    ensures r.Ok? ==> r.value == matches[0]
    ensures (queryFailed || |matches| != 1) ==> r == Err(NotFound)
    ensures (!queryFailed && |matches| == 1 && matches[0].email.Some? && matches[0].email.value != ""
             && !EqualsIgnoreCase(matches[0].email.value, email)) ==> r == Err(OtherEmail)
    ensures (!queryFailed && |matches| == 1
             && (matches[0].email.None? || matches[0].email.value == "" || EqualsIgnoreCase(matches[0].email.value, email))
             && matches[0].userId.Some? && matches[0].userId.value != "") ==> r == Err(AlreadyRegistered)
  {
    if queryFailed || |matches| != 1 then Err(NotFound)
    else
      var s := matches[0];
      if s.email.Some? && s.email.value != "" && Lower(s.email.value) != Lower(email) then Err(OtherEmail)
      else if s.userId.Some? && s.userId.value != "" then Err(AlreadyRegistered)
      else Ok(s)
  }

  /** The auth service's answer to the sign-up call. */
  datatype SignUp = SignUpFailed(message: string) | NoUser | Created(userId: string)

  /** The link written onto the student record. */
  datatype Link = Link(recordId: string, userId: string, email: string)

  datatype Outcome = Outcome(error: Option<string>, accountRequested: bool, link: Option<Link>, navigate: Option<string>)

  /**
   * `handleSignUp`. A failed check stops before the account is requested.
   * After a created account, the link is written; a failed link shows a
   * fixed error, a successful one goes to the student dashboard.
   */
  function Register(matches: seq<Record>, queryFailed: bool, email: string, signUp: SignUp, linkFailed: bool): (o: Outcome)
    ensures Check(matches, queryFailed, email).Err? ==>
              o == Outcome(Some(Check(matches, queryFailed, email).error), false, None, None)
    ensures Check(matches, queryFailed, email).Ok? ==> o.accountRequested
    ensures o.link.Some? <==> Check(matches, queryFailed, email).Ok? && signUp.Created?
    ensures o.link.Some? ==> o.link.value == Link(matches[0].id, signUp.userId, email)
    ensures o.navigate.Some? <==> o.link.Some? && !linkFailed
    ensures o.navigate.Some? ==> o.navigate.value == Dashboard && o.error.None?
    ensures o.link.Some? && linkFailed ==> o.error == Some(LinkFailed)
  {
    match Check(matches, queryFailed, email)
    case Err(e) => Outcome(Some(e), false, None, None)
    case Ok(s) =>
      match signUp
      case SignUpFailed(m) => Outcome(Some(m), true, None, None)
      case NoUser => Outcome(None, true, None, None)
      case Created(uid) =>
        var link := Link(s.id, uid, email);
        if linkFailed then Outcome(Some(LinkFailed), true, Some(link), None)
        else Outcome(None, true, Some(link), Some(Dashboard))
  }

  /** A record already linked to an account is never linked again, whatever the email. */
  lemma LinkedRecordRejected(r: Record, email: string, signUp: SignUp, linkFailed: bool)
    requires r.userId.Some? && r.userId.value != ""
    ensures var o := Register([r], false, email, signUp, linkFailed);
            !o.accountRequested && o.link.None? && o.error.Some?
  {
  }

  /** The email test ignores case: two emails equal up to case pass or fail the checks alike. */
  lemma EmailCaseIgnored(matches: seq<Record>, queryFailed: bool, e1: string, e2: string)
    requires Lower(e1) == Lower(e2)
    ensures Check(matches, queryFailed, e1) == Check(matches, queryFailed, e2)
  {
  }

  /** A record without an email accepts any email. */
  lemma NoEmailAcceptsAny(r: Record, e: string)
    requires r.email.None? && r.userId.None?
    ensures Check([r], false, e) == Ok(r)
  {
  }
}
