/**
 * The study-task board (components/student/kanban-board.tsx): three
 * status columns, an advance button that moves a task one column on, an
 * optimistic update and a rollback when the server refuses or cannot be
 * reached.
 */
module Kanban {
  import opened Wrappers
  import Seqs

  datatype Task = Task(id: string, title: string, status: string, priority: string, dueDate: Option<string>)

  const Pending: string := "pending"
  const InProgress: string := "in_progress"
  const Completed: string := "completed"

  /** The column ids, left to right. */
  const Columns: seq<string> := [Pending, InProgress, Completed]

  /** XP requested for finishing a task. */
  const CompletionXp: int := 50

  /** The test of `tasks.filter(t => t.status === col)`. */
  function InColumn(col: string): Task -> bool {
    (t: Task) => t.status == col
  }

  /** The tasks a column lists, in board order: exactly the board filtered by status. */
  function Column(tasks: seq<Task>, col: string): (r: seq<Task>)
    ensures r == Seqs.Filter(tasks, InColumn(col))
    ensures forall k :: 0 <= k < |r| ==> r[k].status == col
    ensures forall k :: 0 <= k < |tasks| && tasks[k].status == col ==> tasks[k] in r
  {
    if |tasks| == 0 then []
    else (if tasks[0].status == col then [tasks[0]] else []) + Column(tasks[1..], col)
  }

  /** The position of a column id on the board. */
  function Rank(col: string): (i: int)
    requires col in Columns
    ensures 0 <= i < |Columns| && Columns[i] == col
  {
    if col == Pending then 0 else if col == InProgress then 1 else 2
  }

  /** The status the card's button moves a task of column `col` to; the last column has no button. */
  function Advance(col: string): (r: Option<string>)
    requires col in Columns
    ensures r.None? <==> col == Completed
    ensures r.Some? ==> r.value in Columns && Rank(r.value) == Rank(col) + 1
  {
    if col == Pending then Some(InProgress)
    else if col == InProgress then Some(Completed)
    else None
  }

  /** `tasks.map(t => t.id === id ? { ...t, status } : t)`. */
  function SetStatus(tasks: seq<Task>, id: string, status: string): (r: seq<Task>)
    ensures |r| == |tasks|
    ensures forall k :: 0 <= k < |tasks| ==>
              r[k] == (if tasks[k].id == id then tasks[k].(status := status) else tasks[k])
  {
    seq(|tasks|, k requires 0 <= k < |tasks| => if tasks[k].id == id then tasks[k].(status := status) else tasks[k])
  }

  /** What the board asks of the server and shows after a move. */
  datatype Move = Move(tasks: seq<Task>, xpRequest: Option<XpRequest>)

  datatype XpRequest = XpRequest(amount: int, activity: string, description: string)

  /** The title of the first task with `id`, or "undefined" when there is none. */
  function TitleOf(tasks: seq<Task>, id: string): string {
    if |tasks| == 0 then "undefined"
    else if tasks[0].id == id then tasks[0].title
    else TitleOf(tasks[1..], id)
  }

  /**
   * `moveTask`: the PATCH outcome and, when finishing a task, whether the
   * XP request reached the server are inputs. A refused PATCH or a failed
   * XP request is caught and restores the list taken before the move.
   */
  function MoveTask(tasks: seq<Task>, id: string, newStatus: string, patchOk: bool, xpDelivered: bool): (m: Move)
    ensures m.xpRequest.Some? <==> patchOk && newStatus == Completed
    ensures m.xpRequest.Some? ==> m.xpRequest.value.amount == CompletionXp
    ensures m.tasks == tasks || m.tasks == SetStatus(tasks, id, newStatus)
    ensures !patchOk ==> m.tasks == tasks
    ensures patchOk && (newStatus != Completed || xpDelivered) ==> m.tasks == SetStatus(tasks, id, newStatus)
  {
    if !patchOk then Move(tasks, None)
    else if newStatus == Completed then
      var xp := XpRequest(CompletionXp, "task_completion", "Completed task: " + TitleOf(tasks, id));
      if xpDelivered then Move(SetStatus(tasks, id, newStatus), Some(xp)) else Move(tasks, Some(xp))
    else Move(SetStatus(tasks, id, newStatus), None)
  }

  /** A move touches only the tasks with the moved id, and only their status. */
  lemma MoveTouchesOnlyTarget(tasks: seq<Task>, id: string, newStatus: string, patchOk: bool, xpDelivered: bool, k: int)
    requires 0 <= k < |tasks|
    ensures var m := MoveTask(tasks, id, newStatus, patchOk, xpDelivered);
            |m.tasks| == |tasks|
            && (tasks[k].id != id ==> m.tasks[k] == tasks[k])
            && m.tasks[k].(status := tasks[k].status) == tasks[k]
  {
  }

  /** Moving a task back to the status it had undoes the move. */
  lemma {:induction false} MoveBackRestores(tasks: seq<Task>, id: string, s: string)
    requires forall k :: 0 <= k < |tasks| && tasks[k].id == id ==> tasks[k].status == s
    ensures forall t :: SetStatus(SetStatus(tasks, id, t), id, s) == tasks
  {
    forall t ensures SetStatus(SetStatus(tasks, id, t), id, s) == tasks {
      var r := SetStatus(SetStatus(tasks, id, t), id, s);
      assert forall k :: 0 <= k < |tasks| ==> r[k] == tasks[k];
    }
  }

  /** Number of tasks with the given status. */
  function CountStatus(tasks: seq<Task>, s: string): (n: nat)
    ensures n <= |tasks|
  {
    if |tasks| == 0 then 0 else (if tasks[0].status == s then 1 else 0) + CountStatus(tasks[1..], s)
  }

  /** Each column lists exactly the tasks of its status. */
  lemma {:induction false} ColumnCount(tasks: seq<Task>, col: string)
    ensures |Column(tasks, col)| == CountStatus(tasks, col)
  {
    if |tasks| > 0 {
      ColumnCount(tasks[1..], col);
    }
  }

  /**
   * The three columns together show every task whose status is a column id
   * and nothing else: a task with any other status is on no column.
   */
  lemma {:induction false} ColumnsCover(tasks: seq<Task>)
    ensures |Column(tasks, Pending)| + |Column(tasks, InProgress)| + |Column(tasks, Completed)|
            == |tasks| - CountOther(tasks)
  {
    if |tasks| > 0 {
      ColumnsCover(tasks[1..]);
    }
  }

  /** Number of tasks whose status is not a column id. */
  function CountOther(tasks: seq<Task>): (n: nat)
    ensures n <= |tasks|
  {
    if |tasks| == 0 then 0 else (if tasks[0].status in Columns then 0 else 1) + CountOther(tasks[1..])
  }

  /** Advancing a task with a unique id moves one card from its column to the next. */
  lemma {:induction false} AdvanceMovesOneCard(tasks: seq<Task>, k: int)
    requires 0 <= k < |tasks| && tasks[k].status == Pending
    requires forall j :: 0 <= j < |tasks| && j != k ==> tasks[j].id != tasks[k].id
    ensures CountStatus(SetStatus(tasks, tasks[k].id, InProgress), Pending) == CountStatus(tasks, Pending) - 1
    ensures CountStatus(SetStatus(tasks, tasks[k].id, InProgress), InProgress) == CountStatus(tasks, InProgress) + 1
  {
    CountSplit(tasks, k, Pending);
    CountSplit(tasks, k, InProgress);
    var r := SetStatus(tasks, tasks[k].id, InProgress);
    CountSplit(r, k, Pending);
    CountSplit(r, k, InProgress);
    assert r[..k] == tasks[..k] by {
      forall j | 0 <= j < k ensures r[..k][j] == tasks[..k][j] { assert r[j] == tasks[j]; }
    }
    assert r[k + 1..] == tasks[k + 1..] by {
      forall j | k + 1 <= j < |tasks| ensures r[j] == tasks[j] {
        assert tasks[j].id != tasks[k].id;
      }
    }
  }

  /** Counting around position `k`. */
  lemma {:induction false} CountSplit(tasks: seq<Task>, k: int, s: string)
    requires 0 <= k < |tasks|
    ensures CountStatus(tasks, s) == CountStatus(tasks[..k], s) + (if tasks[k].status == s then 1 else 0)
                                     + CountStatus(tasks[k + 1..], s)
  {
    CountAppend(tasks[..k], tasks[k..], s);
    assert tasks == tasks[..k] + tasks[k..];
    assert tasks[k..][1..] == tasks[k + 1..];
  }

  lemma {:induction false} CountAppend(a: seq<Task>, b: seq<Task>, s: string)
    ensures CountStatus(a + b, s) == CountStatus(a, s) + CountStatus(b, s)
    decreases |a|
  {
    if |a| == 0 {
      assert a + b == b;
    } else {
      assert (a + b)[1..] == a[1..] + b;
      CountAppend(a[1..], b, s);
    }
  }
}
