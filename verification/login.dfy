/**
 * The login page's routing (app/page.tsx, `handleLogin`): after a
 * successful sign-in, the chosen tab and the account's metadata role
 * decide where the user goes or why they are signed out again. The auth
 * service and the student lookup are inputs.
 */
module Login {
  import opened Wrappers

  datatype Tab = AdminTab | StudentTab

  /** The auth service's answer: an error, no user, or a user with an optional metadata role. */
  datatype SignIn = Failed(message: string) | NoUser | User(role: Option<string>)

  datatype Outcome = Outcome(error: Option<string>, navigate: Option<string>, signedOut: bool)

  const TeacherOnStudentTab: string := "You are registered as a Teacher. Please login as Admin."
  const StudentOnAdminTab: string := "You are registered as a Student. Please login as Student."

  predicate RoleIs(u: SignIn, role: string)
    requires u.User?
  {
    u.role == Some(role)
  }

  /**
   * `handleLogin`. `linked` says the student lookup by user id returned
   * exactly one record.
   */
  function Route(tab: Tab, signIn: SignIn, linked: bool): (o: Outcome)
    ensures signIn.Failed? ==> o == Outcome(Some(signIn.message), None, false)
    ensures signIn.NoUser? ==> o == Outcome(None, None, false)
    ensures signIn.User? && tab == StudentTab ==>
              (if linked || !RoleIs(signIn, "teacher") then o == Outcome(None, Some("/student/dashboard"), false)
               else o == Outcome(Some(TeacherOnStudentTab), None, true))
    ensures signIn.User? && tab == AdminTab ==>
              (if RoleIs(signIn, "student") then o == Outcome(Some(StudentOnAdminTab), None, true)
               else o == Outcome(None, Some("/dashboard"), false))
  {
    match signIn
    case Failed(m) => Outcome(Some(m), None, false)
    case NoUser => Outcome(None, None, false)
    case User(role) =>
      match tab
      case StudentTab =>
        if linked then Outcome(None, Some("/student/dashboard"), false)
        else if role == Some("teacher") then Outcome(Some(TeacherOnStudentTab), None, true)
        else Outcome(None, Some("/student/dashboard"), false)
      case AdminTab =>
        if role == Some("student") then Outcome(Some(StudentOnAdminTab), None, true)
        else Outcome(None, Some("/dashboard"), false)
  }

  /** Every outcome either navigates or shows an error, never both; signing out comes only with an error. */
  lemma NavigateXorError(tab: Tab, signIn: SignIn, linked: bool)
    requires !signIn.NoUser?
    ensures var o := Route(tab, signIn, linked);
            (o.navigate.Some? <==> o.error.None?) && (o.signedOut ==> o.error.Some?)
  {
  }

  /** The admin tab never lands on the student dashboard, and the student tab never on the teacher one. */
  lemma TabsKeepTheirSide(signIn: SignIn, linked: bool)
    ensures Route(AdminTab, signIn, linked).navigate != Some("/student/dashboard")
    ensures Route(StudentTab, signIn, linked).navigate != Some("/dashboard")
  {
  }
}
