/**
 * Uploading a study material (app/actions/study.ts,
 * `uploadStudyMaterial`): the guards in order, the storage path, whether
 * the file's text is read, and the record inserted. The clock, the random
 * suffix, the file's text and the storage and database replies are
 * inputs; the upload and insert are returned writes.
 */
module StudyUpload {
  import opened Wrappers
  import opened Text

  datatype File = File(name: string, mimeType: string)

  datatype Write =
    | Upload(path: string)
    | InsertMaterial(studentId: string, title: string, fileUrl: string, fileType: string, extractedText: string)

  datatype Reply = Failed(error: string) | Succeeded

  datatype Outcome = Outcome(reply: Reply, writes: seq<Write>, revalidated: bool)

  const Placeholder: string := "[PDF/Image content extraction pending]"

  /** Text is read for a plain-text type or a name ending in `.txt` or `.md` (case as written). */
  predicate ReadsText(f: File) {
    f.mimeType == "text/plain" || EndsWith(f.name, ".txt") || EndsWith(f.name, ".md")
  }

  /** The extension recorded: the last `.`-separated piece of the name (the whole name when it has no dot). */
  function Extension(f: File): (e: string)
    ensures '.' !in e && EndsWith(f.name, e)
    ensures '.' !in f.name ==> e == f.name
    ensures '.' in f.name ==> |e| < |f.name| && f.name[|f.name| - |e| - 1] == '.'
  {
    LastSegment(f.name, '.')
  }

  /** The object path: the student's folder, then `{time}-{random}.{extension}`. */
  function ObjectPath(studentId: string, ts: nat, rand: string, ext: string): (p: string)
    ensures StartsWith(p, studentId + "/") && EndsWith(p, "." + ext)
  {
    var tail := NatToString(ts) + "-" + rand;
    var p := (studentId + "/") + (tail + ("." + ext));
    ConcatEnds(studentId + "/", tail + ("." + ext));
    ConcatEnds(tail, "." + ext);
    EndsOfEnds(studentId + "/", tail + ("." + ext), "." + ext);
    p
  }

  /**
   * The guards run in order — no user, no student, no file — and nothing is
   * written before they pass. A failed upload returns its message and
   * inserts nothing; otherwise the record is inserted with the text read or
   * the placeholder, and a failed insert returns the database's message.
   */
  function UploadMaterial(signedIn: bool, studentId: Option<string>, file: Option<File>, ts: nat, rand: string,
                          uploadError: Option<string>, publicUrl: string, fileText: string,
                          dbError: Option<string>): (o: Outcome)
    ensures !signedIn ==> o == Outcome(Failed("Unauthorized"), [], false)
    ensures signedIn && studentId.None? ==> o == Outcome(Failed("Student not found"), [], false)
    ensures signedIn && studentId.Some? && file.None? ==> o == Outcome(Failed("No file provided"), [], false)
    ensures signedIn && studentId.Some? && file.Some? ==>
              |o.writes| >= 1 && o.writes[0] == Upload(ObjectPath(studentId.value, ts, rand, Extension(file.value)))
    ensures signedIn && studentId.Some? && file.Some? && uploadError.Some? ==>
              o == Outcome(Failed("Upload failed: " + uploadError.value), o.writes, false) && |o.writes| == 1
    ensures |o.writes| == 2 ==>
              o.writes[1] == InsertMaterial(studentId.value, file.value.name, publicUrl, Extension(file.value),
                                            if ReadsText(file.value) then fileText else Placeholder)
    ensures o.reply.Succeeded? <==> o.revalidated
    ensures o.reply.Succeeded? <==> signedIn && studentId.Some? && file.Some? && uploadError.None? && dbError.None?
  {
    if !signedIn then Outcome(Failed("Unauthorized"), [], false)
    else if studentId.None? then Outcome(Failed("Student not found"), [], false)
    else if file.None? then Outcome(Failed("No file provided"), [], false)
    else
      var f := file.value;
      var ext := Extension(f);
      var upload := Upload(ObjectPath(studentId.value, ts, rand, ext));
      if uploadError.Some? then Outcome(Failed("Upload failed: " + uploadError.value), [upload], false)
      else
        var text := if ReadsText(f) then fileText else Placeholder;
        var insert := InsertMaterial(studentId.value, f.name, publicUrl, ext, text);
        if dbError.Some? then Outcome(Failed(dbError.value), [upload, insert], false)
        else Outcome(Succeeded, [upload, insert], true)
  }

  /** The stored object's name reads back the recorded extension as its last `.`-piece. */
  lemma ObjectPathExtension(studentId: string, ts: nat, rand: string, f: File)
    ensures LastSegment(ObjectPath(studentId, ts, rand, Extension(f)), '.') == Extension(f)
  {
    LastSegmentAfterDot(ObjectPath(studentId, ts, rand, Extension(f)), Extension(f));
  }

  /** A dot-free ending right after a dot is the last `.`-piece. */
  lemma LastSegmentAfterDot(p: string, e: string)
    requires '.' !in e && EndsWith(p, "." + e)
    ensures LastSegment(p, '.') == e
  {
    var r := LastSegment(p, '.');
    var n := |p|;
    assert p[n - |e| - 1] == ("." + e)[0] == '.';
    assert '.' in p;
    assert |r| == |e|;
    assert r == p[n - |r|..] && e == p[n - |e|..];
  }

  /** The suffix test is case-sensitive: an upper-case `.TXT` with another type gets the placeholder. */
  lemma UpperCaseSuffixNotRead(stem: string)
    ensures !ReadsText(File(stem + ".TXT", "application/octet-stream"))
  {
    var n := stem + ".TXT";
    assert n[|n| - 4..] == ".TXT";
    assert n[|n| - 3..] == "TXT";
  }

  /** Markdown files are read whatever type the browser reports. */
  lemma MarkdownRead(stem: string, mime: string)
    ensures ReadsText(File(stem + ".md", mime))
  {
    var n := stem + ".md";
    assert n[|n| - 3..] == ".md";
  }
}
