/**
 * Importing a Google Drive file (app/api/drive/fetch/route.ts): the
 * preconditions in order, the storage bucket and object path, and the
 * study-material record. The Drive metadata and download, the clock, and
 * the storage and database replies are inputs; uploads and inserts are
 * returned writes.
 */
module DriveFetch {
  import opened Wrappers
  import opened Text
  import GoogleDrive

  datatype Metadata = Metadata(name: string, mimeType: string, size: string)

  datatype Write =
    | Upload(bucket: string, path: string, contentType: string)
    | InsertMaterial(studentId: string, title: string, fileUrl: string, fileType: string, extractedText: string)

  datatype Body =
    | Plain(text: string)
    | Error(error: string)
    | Fetched(fileId: string, fileName: string, mimeType: string, size: string, url: string)

  datatype Outcome = Outcome(status: int, body: Body, writes: seq<Write>)

  const AnswerSheets: string := "answer-sheets"
  const StudyMaterials: string := "study_materials"
  const Pending: string := "[Google Drive import - text extraction pending]"

  /** The bucket: answer sheets for type `answer_sheet`, study materials for anything else. */
  function Bucket(kind: string): (b: string)
    ensures b == AnswerSheets <==> kind == "answer_sheet"
    ensures b == AnswerSheets || b == StudyMaterials
  {
    if kind == "answer_sheet" then AnswerSheets else StudyMaterials
  }

  /** The extension: the last `.`-separated piece of the name, or `bin` when that piece is empty. */
  function Extension(name: string): (e: string)
    ensures '.' !in e && e != ""
    ensures '.' !in name && name != "" ==> e == name
    ensures var last := LastSegment(name, '.'); last != "" ==> e == last
  {
    OrText(Some(LastSegment(name, '.')), "bin")
  }

  /** A name ending in a dot, or an empty one, is stored as `bin`. */
  lemma TrailingDotIsBin(stem: string)
    ensures Extension(stem + ".") == "bin"
  {
    var s := stem + ".";
    assert '.' in s by { assert s[|s| - 1] == '.'; }
  }

  /** The object path: the user's folder, the time, a fixed tag and the extension. */
  function ObjectPath(userId: string, ts: nat, ext: string): (p: string)
    ensures StartsWith(p, userId + "/") && EndsWith(p, "-gdrive." + ext)
  {
    var p := (userId + "/") + (NatToString(ts) + ("-gdrive." + ext));
    ConcatEnds(userId + "/", NatToString(ts) + ("-gdrive." + ext));
    ConcatEnds(NatToString(ts), "-gdrive." + ext);
    EndsOfEnds(userId + "/", NatToString(ts) + ("-gdrive." + ext), "-gdrive." + ext);
    p
  }

  /**
   * `POST`. In order: no API key is 500, no user 401, no file id in the
   * link 400; a failing metadata read or download is 500 with its message;
   * a failed upload is 500 "Upload failed: …". After an upload, a study
   * material with a known student also gets a record, whose insert error
   * does not fail the request.
   */
  function Fetch(apiKey: bool, userId: Option<string>, driveUrl: string, kind: string,
                 metadata: Result<Metadata>, download: Result<bool>, ts: nat,
                 uploadError: Option<string>, publicUrl: string, studentId: Option<string>): (o: Outcome)
    ensures !apiKey ==> o == Outcome(500, Plain("Google API key not configured"), [])
    ensures apiKey && userId.None? ==> o == Outcome(401, Plain("Unauthorized"), [])
    ensures apiKey && userId.Some? && GoogleDrive.ExtractFileId(driveUrl).None? ==>
              o == Outcome(400, Error("Invalid Google Drive URL"), [])
    ensures o.status == 200 <==>
              apiKey && userId.Some? && GoogleDrive.ExtractFileId(driveUrl).Some? && metadata.Ok? && download.Ok?
              && uploadError.None?
    ensures o.status == 200 ==>
              |o.writes| >= 1
              && o.writes[0] == Upload(Bucket(kind), ObjectPath(userId.value, ts, Extension(metadata.value.name)), metadata.value.mimeType)
              && (|o.writes| == 2 <==> kind == "study_material" && studentId.Some?)
    ensures |o.writes| <= 2
    ensures |o.writes| >= 1 ==> o.writes[0].Upload? && o.writes[0].bucket == Bucket(kind)
    ensures |o.writes| == 2 ==> o.writes[1].InsertMaterial? && kind == "study_material"
    ensures apiKey && userId.Some? && GoogleDrive.ExtractFileId(driveUrl).Some? && metadata.Ok? && download.Ok?
            && uploadError.Some? ==>
              o.status == 500 && o.body == Error("Upload failed: " + uploadError.value) && |o.writes| == 1
  {
    if !apiKey then Outcome(500, Plain("Google API key not configured"), [])
    else if userId.None? then Outcome(401, Plain("Unauthorized"), [])
    else
      match GoogleDrive.ExtractFileId(driveUrl)
      case None => Outcome(400, Error("Invalid Google Drive URL"), [])
      case Some(fileId) =>
        if metadata.Err? then Outcome(500, Error(metadata.error), [])
        else if download.Err? then Outcome(500, Error(download.error), [])
        else Store(userId.value, fileId, kind, metadata.value, ts, uploadError, publicUrl, studentId)
  }

  /**
   * After the download: the upload into the bucket for the type, then, for
   * a study material with a known student, the record.
   */
  function Store(userId: string, fileId: string, kind: string, m: Metadata, ts: nat,
                 uploadError: Option<string>, publicUrl: string, studentId: Option<string>): (o: Outcome)
    ensures 1 <= |o.writes| <= 2
    ensures o.writes[0] == Upload(Bucket(kind), ObjectPath(userId, ts, Extension(m.name)), m.mimeType)
    ensures o.status == 200 <==> uploadError.None?
    ensures uploadError.Some? ==> o == Outcome(500, Error("Upload failed: " + uploadError.value), o.writes) && |o.writes| == 1
    ensures |o.writes| == 2 <==> uploadError.None? && kind == "study_material" && studentId.Some?
    ensures |o.writes| == 2 ==> o.writes[1].InsertMaterial?
  {
    var ext := Extension(m.name);
    var upload := Upload(Bucket(kind), ObjectPath(userId, ts, ext), m.mimeType);
    if uploadError.Some? then Outcome(500, Error("Upload failed: " + uploadError.value), [upload])
    else
      var record := if kind == "study_material" && studentId.Some?
                    then [InsertMaterial(studentId.value, m.name, publicUrl, ext, Pending)] else [];
      Outcome(200, Fetched(fileId, m.name, m.mimeType, m.size, publicUrl), [upload] + record)
  }

  /** An answer sheet never creates a study-material record. */
  lemma AnswerSheetHasNoRecord(apiKey: bool, userId: Option<string>, driveUrl: string,
                               metadata: Result<Metadata>, download: Result<bool>, ts: nat,
                               uploadError: Option<string>, publicUrl: string, studentId: Option<string>)
    ensures var o := Fetch(apiKey, userId, driveUrl, "answer_sheet", metadata, download, ts, uploadError, publicUrl, studentId);
            forall k :: 0 <= k < |o.writes| ==> o.writes[k].Upload? && o.writes[k].bucket == AnswerSheets
  {
    var o := Fetch(apiKey, userId, driveUrl, "answer_sheet", metadata, download, ts, uploadError, publicUrl, studentId);
    assert |o.writes| <= 1;
    assert Bucket("answer_sheet") == AnswerSheets;
  }
}
