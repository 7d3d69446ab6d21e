/**
 * The batch upload of answer sheets (components/dashboard/batch-upload-dialog.tsx):
 * one upload item per student, a file or a Drive link for each, and a run
 * that takes every item through uploading to success or error in turn.
 * Storage, the database, the Drive route and the grading call are inputs:
 * each item's service replies are given with it.
 */
module BatchUpload {
  import opened Wrappers
  import opened Text
  import Seqs

  datatype Status = Pending | Uploading | Success | Failed

  datatype Student = Student(id: string, name: string)

  datatype Item = Item(studentId: string, studentName: string, status: Status, file: Option<string>,
                       error: Option<string>)

  datatype Mode = FileMode | DriveMode

  /** Before anything is chosen, every student has a pending item. */
  function Initial(students: seq<Student>): (items: seq<Item>)
    ensures |items| == |students|
    ensures forall k :: 0 <= k < |students| ==>
              items[k].studentId == students[k].id && items[k].status == Pending && items[k].file.None?
  {
    seq(|students|, k requires 0 <= k < |students| => Item(students[k].id, students[k].name, Pending, None, None))
  }

  /** Choosing a file for a student: that item takes the file and is pending again. */
  function SelectFile(items: seq<Item>, studentId: string, fileName: string): (r: seq<Item>)
    ensures |r| == |items|
    ensures forall k :: 0 <= k < |items| ==>
              r[k] == (if items[k].studentId == studentId
                       then items[k].(file := Some(fileName), status := Pending) else items[k])
  {
    seq(|items|, k requires 0 <= k < |items| =>
          if items[k].studentId == studentId then items[k].(file := Some(fileName), status := Pending) else items[k])
  }

  /** The test of `uploadItems.filter(i => i.file)`. */
  predicate HasFile(i: Item) {
    i.file.Some?
  }

  /** The number of items with a file chosen: the length of the filtered list. */
  function CountWithFile(items: seq<Item>): (n: nat)
    ensures n == |Seqs.Filter(items, HasFile)|
    ensures n == 0 <==> forall k :: 0 <= k < |items| ==> !HasFile(items[k])
  {
    if |items| == 0 then 0
    else
      assert forall k :: 0 <= k < |items| - 1 ==> items[1..][k] == items[k + 1];
      (if items[0].file.Some? then 1 else 0) + CountWithFile(items[1..])
  }

  /** The students whose Drive link has something other than whitespace. */
  function LinkedStudents(links: map<string, string>): (r: set<string>)
    ensures r <= links.Keys
    ensures forall id :: id in links ==> (id in r <==> Trim(links[id]) != "")
  {
    set id | id in links && Trim(links[id]) != ""
  }

  /**
   * The "ready" figure, which also enables the upload button when it is
   * not 0: the items with a file in file mode, the students whose link is
   * not blank in Drive mode.
   */
  function ReadyCount(mode: Mode, items: seq<Item>, links: map<string, string>): (n: nat)
    ensures mode == FileMode ==> n == |Seqs.Filter(items, HasFile)| && n <= |items|
    ensures mode == FileMode ==> (n == 0 <==> forall k :: 0 <= k < |items| ==> items[k].file.None?)
    ensures mode == DriveMode ==> n == |LinkedStudents(links)| && n <= |links|
    ensures mode == DriveMode ==> (n == 0 <==> forall id :: id in links ==> Trim(links[id]) == "")
  {
    if mode == FileMode then CountWithFile(items)
    else
      var linked := LinkedStudents(links);
      SubsetSize(linked, links.Keys);
      |linked|
  }

  /** A subset is no larger than the set it is taken from. */
  lemma {:induction false} SubsetSize<T>(a: set<T>, b: set<T>)
    requires a <= b
    ensures |a| <= |b|
    decreases |b|
  {
    if |a| > 0 {
      var x :| x in a;
      SubsetSize(a - {x}, b - {x});
    }
  }

  /** A whitespace-only link is not counted ready, though the run still tries it (the run only skips empty links). */
  lemma BlankLinkNotReady(links: map<string, string>, id: string)
    requires id in links && links[id] == " "
    ensures id !in LinkedStudents(links)
  {
    TrimEmptyIffBlank(" ");
    assert IsSpace(' ');
  }

  // ---------------------------------------------------------------------
  // one item of the run
  // ---------------------------------------------------------------------

  /** What the Drive route answered. */
  datatype DriveReply = DriveReply(ok: bool, error: Option<string>, previewUrl: string)

  /** The service replies met while processing one item; an error is its message. */
  datatype Services = Services(drive: DriveReply, uploadError: Option<string>, publicUrl: string,
                               insertError: Option<string>, gradeError: Option<string>)

  /** The object name an uploaded file is stored under. */
  function StoragePath(examId: string, studentId: string, fileName: string, ts: nat): (p: string)
    ensures EndsWith(p, "." + LastSegment(fileName, '.'))
    ensures StartsWith(p, examId + "/" + studentId + "-batch-")
  {
    var prefix := examId + "/" + studentId + "-batch-";
    var ext := "." + LastSegment(fileName, '.');
    var p := prefix + (NatToString(ts) + ext);
    ConcatEnds(prefix, NatToString(ts) + ext);
    ConcatEnds(NatToString(ts), ext);
    EndsOfEnds(prefix, NatToString(ts) + ext, ext);
    p
  }

  /** The storage name keeps the file's extension. */
  lemma PathKeepsExtension(examId: string, studentId: string, stem: string, ext: string, ts: nat)
    requires '.' !in ext
    ensures EndsWith(StoragePath(examId, studentId, stem + "." + ext, ts), "." + ext)
  {
    LastSegmentAfterSep(stem, ext);
  }

  /** The text after the last `.` of `stem.ext` is `ext`. */
  lemma LastSegmentAfterSep(stem: string, ext: string)
    requires '.' !in ext
    ensures LastSegment(stem + "." + ext, '.') == ext
  {
    var s := stem + "." + ext;
    var r := LastSegment(s, '.');
    assert s[|stem|] == '.';
    assert EndsWith(s, r) && '.' !in r;
    assert s[|s| - |ext|..] == ext;
  }

  /** The outcome of one item: its final status and error, and the records it wrote. */
  datatype Attempt = Attempt(status: Status, error: Option<string>, path: Option<string>, sheetUrl: Option<string>)

  const NoLink: string := "No Drive link provided"
  const NoFile: string := "No file selected"
  const DriveFailed: string := "Drive fetch failed"

  /**
   * The body of the loop for one item. In Drive mode an empty link is an
   * error; a refused fetch fails with the route's message. In file mode a
   * missing file is an error; otherwise the file is stored. Either way the
   * sheet record is then inserted and grading is requested; any error is
   * caught and becomes the item's message.
   */
  function Process(mode: Mode, item: Item, links: map<string, string>, svc: Services,
                   examId: string, ts: nat): (a: Attempt)
    ensures a.status == Success || a.status == Failed
    ensures a.status == Failed <==> a.error.Some?
    ensures mode == DriveMode && (item.studentId !in links || links[item.studentId] == "") ==>
              a == Attempt(Failed, Some(NoLink), None, None)
    ensures mode == FileMode && item.file.None? ==> a == Attempt(Failed, Some(NoFile), None, None)
    ensures mode == FileMode && item.file.Some? ==>
              a.path == Some(StoragePath(examId, item.studentId, item.file.value, ts))
    ensures a.status == Success ==> a.sheetUrl.Some? && svc.insertError.None? && svc.gradeError.None?
  {
    var located: Result<(Option<string>, string)> :=
      if mode == DriveMode then
        var link := if item.studentId in links then links[item.studentId] else "";
        if link == "" then Err(NoLink)
        else if !svc.drive.ok || (svc.drive.error.Some? && svc.drive.error.value != "") then
          Err(OrText(svc.drive.error, DriveFailed))
        else Ok((None, svc.drive.previewUrl))
      else
        match item.file
        case None => Err(NoFile)
        case Some(name) =>
          var path := StoragePath(examId, item.studentId, name, ts);
          if svc.uploadError.Some? then Err(svc.uploadError.value) else Ok((Some(path), svc.publicUrl));
    match located
    case Err(e) =>
      var path := if mode == FileMode && item.file.Some? then Some(StoragePath(examId, item.studentId, item.file.value, ts)) else None;
      Attempt(Failed, Some(e), path, None)
    case Ok((path, url)) =>
      if svc.insertError.Some? then Attempt(Failed, svc.insertError, path, None)
      else if svc.gradeError.Some? then Attempt(Failed, svc.gradeError, path, Some(url))
      else Attempt(Success, None, path, Some(url))
  }

  // ---------------------------------------------------------------------
  // the run
  // ---------------------------------------------------------------------

  /** `prev.map(i => i.studentId === id ? { ...i, status, error } : i)`. */
  function Settle(items: seq<Item>, id: string, a: Attempt): (r: seq<Item>)
    ensures |r| == |items|
    ensures forall k :: 0 <= k < |items| ==>
              r[k] == (if items[k].studentId == id then items[k].(status := a.status, error := a.error) else items[k])
  {
    seq(|items|, k requires 0 <= k < |items| =>
          if items[k].studentId == id then items[k].(status := a.status, error := a.error) else items[k])
  }

  /** Item ids are distinct: one item per student. */
  predicate DistinctIds(items: seq<Item>) {
    forall i, j :: 0 <= i < j < |items| ==> items[i].studentId != items[j].studentId
  }

  /**
   * The list after the run over the first `n` items of the snapshot
   * `batch`, each settled with its attempt. An item's transient
   * `uploading` status is overwritten when the item settles.
   */
  function RunPrefix(batch: seq<Item>, attempts: seq<Attempt>, n: nat): (r: seq<Item>)
    requires |attempts| == |batch| && n <= |batch|
    ensures |r| == |batch|
    decreases n
  {
    if n == 0 then batch
    else Settle(RunPrefix(batch, attempts, n - 1), batch[n - 1].studentId, attempts[n - 1])
  }

  /** The attempts of the run, item by item, from the given service replies. */
  function Attempts(mode: Mode, batch: seq<Item>, links: map<string, string>, svcs: seq<Services>,
                    examId: string, times: seq<nat>): (r: seq<Attempt>)
    requires |svcs| == |batch| && |times| == |batch|
    ensures |r| == |batch|
    ensures forall k :: 0 <= k < |batch| ==> r[k] == Process(mode, batch[k], links, svcs[k], examId, times[k])
  {
    seq(|batch|, k requires 0 <= k < |batch| => Process(mode, batch[k], links, svcs[k], examId, times[k]))
  }

  function Run(batch: seq<Item>, attempts: seq<Attempt>): (r: seq<Item>)
    requires |attempts| == |batch|
    ensures |r| == |batch|
  {
    RunPrefix(batch, attempts, |batch|)
  }

  /** After the run over `n` items, those items carry their attempt's outcome and the rest are as they were. */
  lemma {:induction false} RunPrefixSettles(batch: seq<Item>, attempts: seq<Attempt>, n: nat)
    requires |attempts| == |batch| && n <= |batch| && DistinctIds(batch)
    ensures forall k :: 0 <= k < n ==>
              RunPrefix(batch, attempts, n)[k] == batch[k].(status := attempts[k].status, error := attempts[k].error)
    ensures forall k :: n <= k < |batch| ==> RunPrefix(batch, attempts, n)[k] == batch[k]
    decreases n
  {
    if n > 0 {
      RunPrefixSettles(batch, attempts, n - 1);
      var prev := RunPrefix(batch, attempts, n - 1);
      forall k | 0 <= k < |batch|
        ensures prev[k].studentId == batch[k].studentId
      {
      }
    }
  }

  /** Every item of the run ends in success or error, as its own attempt decided. */
  lemma RunSettlesAll(batch: seq<Item>, attempts: seq<Attempt>)
    requires |attempts| == |batch| && DistinctIds(batch)
    requires forall k :: 0 <= k < |attempts| ==> attempts[k].status == Success || attempts[k].status == Failed
    ensures forall k :: 0 <= k < |batch| ==>
              Run(batch, attempts)[k].status == attempts[k].status
              && (Run(batch, attempts)[k].status == Success || Run(batch, attempts)[k].status == Failed)
  {
    RunPrefixSettles(batch, attempts, |batch|);
  }

  // ---------------------------------------------------------------------
  // the closing toast
  // ---------------------------------------------------------------------

  function CountSuccess(items: seq<Item>): (n: nat)
    ensures n <= |items|
  {
    if |items| == 0 then 0 else (if items[0].status == Success then 1 else 0) + CountSuccess(items[1..])
  }

  function ToastText(successes: nat, students: nat): string {
    "Batch upload complete: " + NatToString(successes) + "/" + NatToString(students) + " successful"
  }

  /**
   * The count as written: the handler reads the item list it closed over
   * when the run began, so none of the run's own outcomes are seen.
   */
  function ReportedAsWritten(batch: seq<Item>, attempts: seq<Attempt>): (n: nat)
    requires |attempts| == |batch|
    ensures (forall k :: 0 <= k < |batch| ==> batch[k].status != Success) ==> n == 0
  {
    NoSuccessCountsZero(batch);
    CountSuccess(batch)
  }

  lemma {:induction false} NoSuccessCountsZero(items: seq<Item>)
    ensures (forall k :: 0 <= k < |items| ==> items[k].status != Success) ==> CountSuccess(items) == 0
  {
    if |items| > 0 {
      NoSuccessCountsZero(items[1..]);
      assert forall k :: 0 <= k < |items| - 1 ==> items[1..][k] == items[k + 1];
    }
  }

  /** The count the message means: the items that ended the run in success. */
  function Reported(batch: seq<Item>, attempts: seq<Attempt>): (n: nat)
    requires |attempts| == |batch|
    ensures n <= |batch|
  {
    CountSuccess(Run(batch, attempts))
  }

  /** A first run in which every upload succeeds is reported as 0 successes. */
  lemma StaleCountReportsZero()
    ensures var batch := [Item("s1", "Asha", Pending, Some("a.pdf"), None)];
            var attempts := [Attempt(Success, None, Some("e/s1-batch-1.pdf"), Some("u"))];
            ReportedAsWritten(batch, attempts) == 0 && Reported(batch, attempts) == 1
  {
    var batch := [Item("s1", "Asha", Pending, Some("a.pdf"), None)];
    var attempts := [Attempt(Success, None, Some("e/s1-batch-1.pdf"), Some("u"))];
    RunPrefixSettles(batch, attempts, 1);
    assert Run(batch, attempts)[1..] == [];
  }

  /** The corrected count is the number of attempts that succeeded. */
  lemma {:induction false} ReportedCountsSuccesses(batch: seq<Item>, attempts: seq<Attempt>)
    requires |attempts| == |batch| && DistinctIds(batch)
    ensures Reported(batch, attempts) == CountAttempts(attempts)
  {
    RunPrefixSettles(batch, attempts, |batch|);
    SameStatusesCount(Run(batch, attempts), attempts);
  }

  function CountAttempts(attempts: seq<Attempt>): (n: nat)
    ensures n <= |attempts|
  {
    if |attempts| == 0 then 0 else (if attempts[0].status == Success then 1 else 0) + CountAttempts(attempts[1..])
  }

  lemma {:induction false} SameStatusesCount(items: seq<Item>, attempts: seq<Attempt>)
    requires |items| == |attempts|
    requires forall k :: 0 <= k < |items| ==> items[k].status == attempts[k].status
    ensures CountSuccess(items) == CountAttempts(attempts)
    decreases |items|
  {
    if |items| > 0 {
      SameStatusesCount(items[1..], attempts[1..]);
    }
  }
}
