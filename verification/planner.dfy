/**
 * The study planner's server actions (app/actions/planner.ts) and the two
 * views that use them: the planner page (app/student/planner/planner-client.tsx)
 * and the dashboard's task widget (components/student/tasks-widget.tsx).
 */
module Planner {
  import opened Wrappers
  import opened Numbers
  import opened Text

  datatype Task = Task(id: string, title: string, status: string, priority: string, duration: Option<int>)

  const Pending: string := "pending"
  const Completed: string := "completed"

  /** `toggleTaskStatus`: a completed task goes back to pending, any other to completed. */
  function Toggle(status: string): (r: string)
    ensures r == Pending || r == Completed
    ensures r == Completed <==> status != Completed
  {
    if status == Completed then Pending else Completed
  }

  /** On the two statuses the planner itself writes, toggling twice is the identity. */
  lemma ToggleTwice(status: string)
    requires status == Pending || status == Completed
    ensures Toggle(Toggle(status)) == status
  {
  }

  /**
   * After one toggle a task only alternates between the two planner
   * statuses; any other status (such as `in_progress`) is never seen again.
   */
  lemma ToggleSettles(status: string)
    ensures Toggle(Toggle(Toggle(status))) == Toggle(status)
    ensures status != Pending && status != Completed ==>
              Toggle(Toggle(status)) == Pending && Toggle(Toggle(status)) != status
  {
  }

  // ---------------------------------------------------------------------
  // addTask
  // ---------------------------------------------------------------------

  /** The four fields of the add-task form. */
  datatype Form = Form(title: string, kind: string, duration: string, priority: string)

  /** The `student_tasks` row inserted for a new task. */
  datatype NewTask = NewTask(studentId: string, title: string, kind: string, estimatedDuration: Option<int>,
                             priority: string, status: string)

  datatype AddResult =
    | AddError(message: string)
    | Added(row: NewTask)

  const Unauthorized: string := "Unauthorized"
  const StudentNotFound: string := "Student not found"

  /** The row built from the form: status pending, duration read by `parseInt` (`None` for `NaN`). */
  function NewRow(studentId: string, form: Form): (r: NewTask)
    ensures r.status == Pending && r.studentId == studentId && r.title == form.title
    ensures r.estimatedDuration == ParseInt(form.duration)
  {
    NewTask(studentId, form.title, form.kind, ParseInt(form.duration), form.priority, Pending)
  }

  /**
   * `addTask`: no user, then no student record, refuse with a fixed
   * message; an insert error returns the database's message.
   */
  function AddTask(signedIn: bool, student: Option<string>, form: Form, insertError: Option<string>): (r: AddResult)
    ensures !signedIn ==> r == AddError(Unauthorized)
    ensures signedIn && student.None? ==> r == AddError(StudentNotFound)
    ensures signedIn && student.Some? && insertError.Some? ==> r == AddError(insertError.value)
    ensures r.Added? <==> signedIn && student.Some? && insertError.None?
    ensures r.Added? ==> r.row == NewRow(student.value, form)
  {
    if !signedIn then AddError(Unauthorized)
    else match student
      case None => AddError(StudentNotFound)
      case Some(sid) =>
        match insertError
        case Some(msg) => AddError(msg)
        case None => Added(NewRow(sid, form))
  }

  /** A duration typed as a whole number of minutes is stored as that number. */
  lemma DurationReadsBack(signedIn: bool, sid: string, form: Form, minutes: int)
    requires signedIn && form.duration == IntToString(minutes)
    ensures AddTask(signedIn, Some(sid), form, None).row.estimatedDuration == Some(minutes)
  {
    ParseIntToString(minutes);
  }

  // ---------------------------------------------------------------------
  // the optimistic toggle shared by both views
  // ---------------------------------------------------------------------

  /** `prev.map(t => t.id === id ? { ...t, status: Toggle(status) } : t)`. */
  function ToggleTask(tasks: seq<Task>, id: string, status: string): (r: seq<Task>)
    ensures |r| == |tasks|
    ensures forall k :: 0 <= k < |tasks| ==>
              r[k] == (if tasks[k].id == id then tasks[k].(status := Toggle(status)) else tasks[k])
  {
    seq(|tasks|, k requires 0 <= k < |tasks| => if tasks[k].id == id then tasks[k].(status := Toggle(status)) else tasks[k])
  }

  /** Toggling a pending or completed task twice, each time with the status it shows, restores the list. */
  lemma {:induction false} ToggleTaskTwice(tasks: seq<Task>, k: int)
    requires 0 <= k < |tasks|
    requires tasks[k].status == Pending || tasks[k].status == Completed
    requires forall j :: 0 <= j < |tasks| && tasks[j].id == tasks[k].id ==> tasks[j].status == tasks[k].status
    ensures var once := ToggleTask(tasks, tasks[k].id, tasks[k].status);
            ToggleTask(once, tasks[k].id, once[k].status) == tasks
  {
    var id := tasks[k].id;
    var once := ToggleTask(tasks, id, tasks[k].status);
    var twice := ToggleTask(once, id, once[k].status);
    forall j | 0 <= j < |tasks| ensures twice[j] == tasks[j] {
      ToggleTwice(tasks[k].status);
    }
  }

  // ---------------------------------------------------------------------
  // the planner page
  // ---------------------------------------------------------------------

  function CountCompleted(tasks: seq<Task>): (n: nat)
    ensures n <= |tasks|
  {
    if |tasks| == 0 then 0 else (if tasks[0].status == Completed then 1 else 0) + CountCompleted(tasks[1..])
  }

  /** The share of completed tasks, 0 with no tasks. */
  function Ratio(tasks: seq<Task>): (q: real)
    ensures 0.0 <= q <= 1.0
    ensures |tasks| == 0 ==> q == 0.0
    ensures |tasks| > 0 && CountCompleted(tasks) == |tasks| ==> q == 1.0
  {
    if |tasks| > 0 then CountCompleted(tasks) as real / |tasks| as real else 0.0
  }

  /** The number in the progress ring. */
  function ProgressPercent(tasks: seq<Task>): (p: int)
    ensures 0 <= p <= 100
    ensures |tasks| > 0 ==> p == Round(CountCompleted(tasks) as real / |tasks| as real * 100.0)
  {
    RoundBetween(Ratio(tasks) * 100.0, 0, 100);
    if |tasks| > 0 then Round(CountCompleted(tasks) as real / |tasks| as real * 100.0) else 0
  }

  /** Circumference of the progress ring's stroke. */
  const RingLength: real := 351.0

  /** `strokeDashoffset`: the part of the ring left undrawn. */
  function RingOffset(tasks: seq<Task>): (o: real)
    ensures 0.0 <= o <= RingLength
    ensures |tasks| == 0 ==> o == RingLength
    ensures |tasks| > 0 && CountCompleted(tasks) == |tasks| ==> o == 0.0
  {
    RingLength - RingLength * Ratio(tasks)
  }

  /** A new toggle to completed fills more of the ring. */
  lemma {:induction false} CompletingFillsRing(tasks: seq<Task>, k: int)
    requires 0 <= k < |tasks| && tasks[k].status != Completed
    requires forall j :: 0 <= j < |tasks| && j != k ==> tasks[j].id != tasks[k].id
    ensures RingOffset(ToggleTask(tasks, tasks[k].id, tasks[k].status)) < RingOffset(tasks)
  {
    var r := ToggleTask(tasks, tasks[k].id, tasks[k].status);
    CompletingCountsOne(tasks, k);
    ShareGrows(CountCompleted(tasks) as real, |tasks| as real);
  }

  lemma ShareGrows(c: real, n: real)
    requires n > 0.0
    ensures (c + 1.0) / n > c / n
  {
    assert (c + 1.0) / n == c / n + 1.0 / n;
  }

  /** Toggling one open task with a unique id completes exactly one more task. */
  lemma {:induction false} CompletingCountsOne(tasks: seq<Task>, k: int)
    requires 0 <= k < |tasks| && tasks[k].status != Completed
    requires forall j :: 0 <= j < |tasks| && j != k ==> tasks[j].id != tasks[k].id
    ensures CountCompleted(ToggleTask(tasks, tasks[k].id, tasks[k].status)) == CountCompleted(tasks) + 1
  {
    var r := ToggleTask(tasks, tasks[k].id, tasks[k].status);
    CompletedSplit(tasks, k);
    CompletedSplit(r, k);
    assert r[..k] == tasks[..k];
    assert r[k + 1..] == tasks[k + 1..] by {
      forall j | k + 1 <= j < |tasks| ensures r[j] == tasks[j] {
        assert tasks[j].id != tasks[k].id;
      }
    }
  }

  lemma {:induction false} CompletedSplit(tasks: seq<Task>, k: int)
    requires 0 <= k < |tasks|
    ensures CountCompleted(tasks) == CountCompleted(tasks[..k]) + (if tasks[k].status == Completed then 1 else 0)
                                     + CountCompleted(tasks[k + 1..])
  {
    CompletedAppend(tasks[..k], tasks[k..]);
    assert tasks == tasks[..k] + tasks[k..];
    assert tasks[k..][1..] == tasks[k + 1..];
  }

  lemma {:induction false} CompletedAppend(a: seq<Task>, b: seq<Task>)
    ensures CountCompleted(a + b) == CountCompleted(a) + CountCompleted(b)
    decreases |a|
  {
    if |a| == 0 {
      assert a + b == b;
    } else {
      assert (a + b)[1..] == a[1..] + b;
      CompletedAppend(a[1..], b);
    }
  }

  /** The add-task dialog: an error is alerted and the dialog stays open; success closes it. */
  datatype Dialog = Dialog(open: bool, loading: bool, alert: Option<string>)

  function AfterSubmit(d: Dialog, r: AddResult): (e: Dialog)
    ensures !e.loading
    ensures e.open <==> d.open && r.AddError?
    ensures e.alert.Some? <==> r.AddError?
    ensures r.AddError? ==> e.alert == Some(r.message)
  {
    match r
    case AddError(msg) => Dialog(d.open, false, Some(msg))
    case Added(_) => Dialog(false, false, None)
  }

  // ---------------------------------------------------------------------
  // the dashboard widget
  // ---------------------------------------------------------------------

  /** The widget shows at most this many tasks. */
  const WidgetSize: nat := 5

  /** The tasks that are not completed, in order. */
  function Open(tasks: seq<Task>): (r: seq<Task>)
    ensures |r| <= |tasks|
    ensures forall k :: 0 <= k < |r| ==> r[k].status != Completed
    ensures forall k :: 0 <= k < |tasks| && tasks[k].status != Completed ==> tasks[k] in r
  {
    if |tasks| == 0 then []
    else (if tasks[0].status != Completed then [tasks[0]] else []) + Open(tasks[1..])
  }

  /** `tasks.filter(t => t.status !== 'completed').slice(0, 5)`. */
  function Shown(tasks: seq<Task>): (r: seq<Task>)
    ensures |r| == if |Open(tasks)| < WidgetSize then |Open(tasks)| else WidgetSize
    ensures forall k :: 0 <= k < |r| ==> r[k].status != Completed
    ensures r == Open(tasks)[..|r|]
  {
    if |Open(tasks)| <= WidgetSize then Open(tasks) else Open(tasks)[..WidgetSize]
  }

  /** The empty state shows exactly when every task is completed. */
  lemma EmptyIffAllCompleted(tasks: seq<Task>)
    ensures |Shown(tasks)| == 0 <==> forall k :: 0 <= k < |tasks| ==> tasks[k].status == Completed
  {
    if |Shown(tasks)| > 0 {
      OpenFromTasks(tasks, 0);
    }
  }

  /** Every open task comes from the list. */
  lemma {:induction false} OpenFromTasks(tasks: seq<Task>, k: int)
    requires 0 <= k < |Open(tasks)|
    ensures Open(tasks)[k] in tasks
    decreases |tasks|
  {
    var head: seq<Task> := if tasks[0].status != Completed then [tasks[0]] else [];
    if k < |head| {
      assert Open(tasks)[k] == tasks[0];
    } else {
      assert Open(tasks)[k] == Open(tasks[1..])[k - |head|];
      OpenFromTasks(tasks[1..], k - |head|);
      var i :| 0 <= i < |tasks[1..]| && tasks[1..][i] == Open(tasks)[k];
      assert tasks[i + 1] == Open(tasks)[k];
    }
  }

  /** The overflow note: how many tasks of the whole list the widget leaves out of its count. */
  function Overflow(tasks: seq<Task>): (n: Option<nat>)
    ensures n.Some? <==> |tasks| > WidgetSize
    ensures n.Some? ==> n.value + WidgetSize == |tasks|
  {
    if |tasks| > WidgetSize then Some(|tasks| - WidgetSize) else None
  }

  /** The note counts completed tasks too: it can appear while fewer than five tasks are shown. */
  lemma OverflowCountsCompleted()
    ensures var tasks := seq(6, _ => Task("t", "", Completed, "Low", None));
            Overflow(tasks) == Some(1) && |Shown(tasks)| == 0
  {
    var tasks := seq(6, _ => Task("t", "", Completed, "Low", None));
    EmptyIffAllCompleted(tasks);
  }
}
