/**
 * Creating a flashcard by hand (components/student/custom-card-dialog.tsx):
 * the comma-separated tag field becomes a list of clean tags, the new card
 * starts at level 1 due now, and the form is cleared only when the insert
 * succeeds.
 */
module CustomCard {
  import opened Wrappers
  import opened Text
  import Seqs

  datatype Form = Form(question: string, answer: string, subject: string, tags: string)

  const EmptyForm: Form := Form("", "", "", "")

  /** The row inserted into `flashcards`. */
  datatype CardInsert = CardInsert(studentId: string, question: string, answer: string,
                                   subject: string, tags: seq<string>, level: int,
                                   nextReviewAt: string)

  datatype Dialog = Dialog(open: bool, loading: bool, form: Form, alert: Option<string>)

  /** A tag as the dialog stores it: non-empty, no comma, no surrounding whitespace. */
  predicate IsCleanTag(t: string) {
    t != [] && ',' !in t && Trim(t) == t
  }

  /** `pieces.map(t => t.trim())`. */
  function TrimAll(pieces: seq<string>): (r: seq<string>)
    ensures |r| == |pieces|
    ensures forall k :: 0 <= k < |pieces| ==> r[k] == Trim(pieces[k])
  {
    if |pieces| == 0 then [] else [Trim(pieces[0])] + TrimAll(pieces[1..])
  }

  /** The test of `.filter(t => t !== "")`. */
  predicate NotEmpty(t: string) {
    t != ""
  }

  /** Trims every piece and drops the pieces that become empty, keeping their order. */
  function CleanPieces(pieces: seq<string>): (r: seq<string>)
    requires forall k :: 0 <= k < |pieces| ==> ',' !in pieces[k]
    ensures |r| <= |pieces|
    ensures forall k :: 0 <= k < |r| ==> IsCleanTag(r[k])
  {
    if |pieces| == 0 then []
    else
      var t := Trim(pieces[0]);
      TrimKeepsAbsentChar(pieces[0], ',');
      TrimIdempotent(pieces[0]);
      (if t == "" then [] else [t]) + CleanPieces(pieces[1..])
  }

  /** The cleaning is exactly `pieces.map(trim).filter(t => t !== "")`. */
  lemma {:induction false} CleanPiecesIsFilter(pieces: seq<string>)
    requires forall k :: 0 <= k < |pieces| ==> ',' !in pieces[k]
    ensures CleanPieces(pieces) == Seqs.Filter(TrimAll(pieces), NotEmpty)
    decreases |pieces|
  {
    if |pieces| > 0 {
      CleanPiecesIsFilter(pieces[1..]);
      assert TrimAll(pieces)[1..] == TrimAll(pieces[1..]);
    }
  }

  /**
   * `tags ? tags.split(",").map(t => t.trim()).filter(t => t !== "") : []`.
   */
  function ParseTags(tags: string): (r: seq<string>)
    ensures tags == "" ==> r == []
    ensures tags != "" ==> r == Seqs.Filter(TrimAll(Split(tags, ',')), NotEmpty)
    ensures forall k :: 0 <= k < |r| ==> IsCleanTag(r[k])
  {
    if tags == "" then []
    else
      CleanPiecesIsFilter(Split(tags, ','));
      CleanPieces(Split(tags, ','))
  }

  /** A field of only whitespace and nothing else gives no tags. */
  lemma BlankFieldHasNoTags(tags: string)
    requires IsBlank(tags)
    ensures ParseTags(tags) == []
  {
    if tags != "" {
      BlankHasNoTags(tags);
    }
  }

  lemma BlankHasNoTags(tags: string)
    requires tags != "" && IsBlank(tags)
    ensures CleanPieces(Split(tags, ',')) == []
  {
    assert ',' !in tags;
    assert Split(tags, ',') == [tags];
    TrimEmptyIffBlank(tags);
  }

  lemma {:induction false} CleanPiecesOfClean(tags: seq<string>)
    requires forall k :: 0 <= k < |tags| ==> IsCleanTag(tags[k])
    requires forall k :: 0 <= k < |tags| ==> ',' !in tags[k]
    ensures CleanPieces(tags) == tags
    decreases |tags|
  {
    if |tags| > 0 {
      CleanPiecesKeepsClean(tags);
      CleanPiecesOfClean(tags[1..]);
      assert tags == [tags[0]] + tags[1..];
    }
  }

  /** A clean first piece is kept as it is. */
  lemma CleanPiecesKeepsClean(pieces: seq<string>)
    requires |pieces| > 0 && IsCleanTag(pieces[0])
    requires forall k :: 0 <= k < |pieces| ==> ',' !in pieces[k]
    ensures CleanPieces(pieces) == [pieces[0]] + CleanPieces(pieces[1..])
  {
  }

  /** Writing clean tags separated by commas and parsing the field gives the tags back. */
  lemma ParseTagsRoundTrip(tags: seq<string>)
    requires forall k :: 0 <= k < |tags| ==> IsCleanTag(tags[k])
    ensures ParseTags(Join(tags, [','])) == tags
  {
    if |tags| == 0 {
      assert Join(tags, [',']) == [];
    } else {
      NonEmptyRoundTrip(tags);
    }
  }

  lemma NonEmptyRoundTrip(tags: seq<string>)
    requires |tags| > 0
    requires forall k :: 0 <= k < |tags| ==> IsCleanTag(tags[k])
    ensures ParseTags(Join(tags, [','])) == tags
  {
    JoinNonEmpty(tags);
    SplitOfJoinedTags(tags);
    ParseOfSplitTags(Join(tags, [',']), tags);
  }

  lemma SplitOfJoinedTags(tags: seq<string>)
    requires |tags| > 0
    requires forall k :: 0 <= k < |tags| ==> IsCleanTag(tags[k])
    ensures Split(Join(tags, [',']), ',') == tags
  {
    assert forall k :: 0 <= k < |tags| ==> ',' !in tags[k];
    SplitJoin(tags, ',');
  }

  lemma ParseOfSplitTags(field: string, tags: seq<string>)
    requires field != [] && Split(field, ',') == tags
    requires forall k :: 0 <= k < |tags| ==> IsCleanTag(tags[k])
    ensures ParseTags(field) == tags
  {
    assert forall k :: 0 <= k < |tags| ==> ',' !in tags[k];
    CleanPiecesOfClean(tags);
  }

  lemma JoinNonEmpty(tags: seq<string>)
    requires |tags| > 0 && tags[0] != []
    ensures Join(tags, [',']) != ""
  {
    if |tags| > 1 {
      assert |Join(tags, [','])| >= |tags[0]|;
    }
  }

  /** The row the dialog inserts: the form's fields, the parsed tags, level 1, due now. */
  function NewCard(studentId: string, form: Form, now: string): (c: CardInsert)
    ensures c.level == 1 && c.nextReviewAt == now && c.tags == ParseTags(form.tags)
    ensures c.question == form.question && c.answer == form.answer && c.subject == form.subject
  {
    CardInsert(studentId, form.question, form.answer, form.subject, ParseTags(form.tags), 1, now)
  }

  const FailureAlert: string := "Failed to create flashcard. Please try again."

  /**
   * The dialog after a submission: on success it closes with an empty form;
   * on failure it alerts and keeps what was typed. Loading ends either way.
   */
  function AfterSubmit(d: Dialog, insertSucceeded: bool): (r: Dialog)
    ensures !r.loading
    ensures insertSucceeded ==> !r.open && r.form == EmptyForm && r.alert == d.alert
    ensures !insertSucceeded ==> r.open == d.open && r.form == d.form && r.alert == Some(FailureAlert)
  {
    if insertSucceeded then d.(open := false, loading := false, form := EmptyForm)
    else d.(loading := false, alert := Some(FailureAlert))
  }
}
