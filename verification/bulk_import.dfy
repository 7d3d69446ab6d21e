/**
 * The bulk student import (app/dashboard/students/bulk-import-dialog.tsx):
 * spreadsheet rows mapped to student records, rows without a name, roll
 * number or class dropped, and the survivors upserted on (roll number,
 * class). Reading the workbook is not modelled; its rows are the input.
 */
module BulkImport {
  import opened Wrappers
  import opened Text
  import opened Seqs

  /** A spreadsheet cell as the sheet reader returns it. */
  datatype Value = Missing | Txt(s: string) | Number(n: int)

  /** JavaScript truthiness: a missing cell, "" and 0 are false. */
  predicate Truthy(v: Value) {
    match v
    case Missing => false
    case Txt(s) => s != ""
    case Number(n) => n != 0
  }

  /** `a || b`. */
  function OrValue(a: Value, b: Value): (r: Value)
    ensures Truthy(a) ==> r == a
    ensures !Truthy(a) ==> r == b
  {
    if Truthy(a) then a else b
  }

  /** `String(v)` of a cell that is `""` when missing. */
  function AsText(v: Value): string {
    match v
    case Missing => ""
    case Txt(s) => s
    case Number(n) => IntToString(n)
  }

  /** A row, with the two spellings of each column the dialog accepts. */
  datatype Row = Row(nameTitle: Value, nameLower: Value, rollTitle: Value, rollLower: Value,
                     classTitle: Value, classLower: Value, sectionTitle: Value, sectionLower: Value)

  /** A student record; the name is kept as the cell's value, the other fields as text. */
  datatype Record = Record(name: Value, rollNumber: string, className: string, section: string,
                           teacherId: string)

  /**
   * `Title || lower || ""`: the first spelling whose cell is truthy, else
   * the empty string.
   */
  function Spelling(title: Value, lower: Value): (v: Value)
    ensures Truthy(title) ==> v == title
    ensures !Truthy(title) && Truthy(lower) ==> v == lower
    ensures !Truthy(title) && !Truthy(lower) ==> v == Txt("")
  {
    OrValue(OrValue(title, lower), Txt(""))
  }

  /**
   * `Name || name || ""`, and `String(... || "")` for the roll number,
   * class and section, so that a falsy cell (including the number 0)
   * becomes the empty string.
   */
  function MapRow(row: Row, teacher: string): (r: Record)
    ensures r.teacherId == teacher
    ensures r.name == Spelling(row.nameTitle, row.nameLower)
    ensures r.rollNumber == AsText(Spelling(row.rollTitle, row.rollLower))
    ensures r.className == AsText(Spelling(row.classTitle, row.classLower))
    ensures r.section == AsText(Spelling(row.sectionTitle, row.sectionLower))
    ensures Truthy(row.nameTitle) ==> r.name == row.nameTitle
    ensures !Truthy(row.nameTitle) && Truthy(row.nameLower) ==> r.name == row.nameLower
    ensures !Truthy(row.nameTitle) && !Truthy(row.nameLower) ==> r.name == Txt("")
  {
    Record(Spelling(row.nameTitle, row.nameLower),
           AsText(Spelling(row.rollTitle, row.rollLower)),
           AsText(Spelling(row.classTitle, row.classLower)),
           AsText(Spelling(row.sectionTitle, row.sectionLower)),
           teacher)
  }

  /** A record is kept when its name, roll number and class are all present. */
  predicate IsValid(r: Record) {
    Truthy(r.name) && r.rollNumber != "" && r.className != ""
  }

  function MapRows(rows: seq<Row>, teacher: string): (r: seq<Record>)
    ensures |r| == |rows| && forall k :: 0 <= k < |rows| ==> r[k] == MapRow(rows[k], teacher)
  {
    seq(|rows|, k requires 0 <= k < |rows| => MapRow(rows[k], teacher))
  }

  function ValidRecords(rows: seq<Row>, teacher: string): (r: seq<Record>)
    ensures |r| <= |rows|
    ensures forall k :: 0 <= k < |r| ==> IsValid(r[k]) && r[k].teacherId == teacher
    ensures forall k :: 0 <= k < |rows| && IsValid(MapRow(rows[k], teacher)) ==> MapRow(rows[k], teacher) in r
  {
    Filter(MapRows(rows, teacher), IsValid)
  }

  /** The conflict key of the upsert. */
  const ConflictColumns: string := "roll_number,class"

  function Key(r: Record): (string, string) {
    (r.rollNumber, r.className)
  }

  datatype Outcome =
    | NothingChosen
    | ImportFailed                          // "Failed to import students"
    | EmptyFile                             // "The file is empty"
    | NoValidRows                           // "No valid student data found in file"
    | Upsert(records: seq<Record>)

  /** The dialog's decision, from the chosen file, the signed-in teacher and the rows read. */
  function Import(fileChosen: bool, teacher: Option<string>, rows: seq<Row>): (o: Outcome)
    ensures o.Upsert? <==> fileChosen && teacher.Some? && |ValidRecords(rows, teacher.value)| > 0
    ensures o.Upsert? ==> o.records == ValidRecords(rows, teacher.value)
    ensures o == EmptyFile <==> fileChosen && teacher.Some? && |rows| == 0
    ensures o == NoValidRows <==> fileChosen && teacher.Some? && |rows| > 0 && |ValidRecords(rows, teacher.value)| == 0
  {
    if !fileChosen then NothingChosen
    else match teacher
      case None => ImportFailed
      case Some(t) =>
        if |rows| == 0 then EmptyFile
        else
          var records := ValidRecords(rows, t);
          if |records| == 0 then NoValidRows else Upsert(records)
  }

  function SuccessText(o: Outcome): string
    requires o.Upsert?
  {
    "Successfully imported " + IntToString(|o.records|) + " students"
  }

  /** A roll number of 0 is falsy, so the row is dropped. */
  lemma ZeroRollIsDropped(row: Row, teacher: string)
    requires row.rollTitle == Number(0) && !Truthy(row.rollLower)
    ensures !IsValid(MapRow(row, teacher))
  {
  }

  /** Importing more rows never keeps fewer records, and the order follows the file. */
  lemma MoreRowsKeepMore(a: seq<Row>, b: seq<Row>, teacher: string)
    ensures ValidRecords(a + b, teacher) == ValidRecords(a, teacher) + ValidRecords(b, teacher)
  {
    MapRowsAppend(a, b, teacher);
    FilterAppend(MapRows(a, teacher), MapRows(b, teacher), IsValid);
  }

  lemma MapRowsAppend(a: seq<Row>, b: seq<Row>, teacher: string)
    ensures MapRows(a + b, teacher) == MapRows(a, teacher) + MapRows(b, teacher)
  {
    var l := MapRows(a + b, teacher);
    var r := MapRows(a, teacher) + MapRows(b, teacher);
    assert |l| == |r|;
    forall k | 0 <= k < |l|
      ensures l[k] == r[k]
    {
      if k < |a| {
        assert (a + b)[k] == a[k];
      } else {
        assert (a + b)[k] == b[k - |a|];
      }
    }
  }

  /** The table after the upsert: each record replaces any with the same key. */
  function UpsertAll(table: map<(string, string), Record>, records: seq<Record>): (t: map<(string, string), Record>)
    decreases |records|
  {
    if |records| == 0 then table
    else UpsertAll(table[Key(records[0]) := records[0]], records[1..])
  }

  /** Keys not written by the upsert keep their rows. */
  lemma {:induction false} UpsertKeepsOthers(table: map<(string, string), Record>, records: seq<Record>,
                                              key: (string, string))
    requires forall k :: 0 <= k < |records| ==> Key(records[k]) != key
    ensures key in table ==> key in UpsertAll(table, records) && UpsertAll(table, records)[key] == table[key]
    ensures key !in table ==> key !in UpsertAll(table, records)
    decreases |records|
  {
    if |records| > 0 {
      UpsertKeepsOthers(table[Key(records[0]) := records[0]], records[1..], key);
    }
  }

  /** Applying the batch record by record: a record that no later record shares a key with is what the table holds for its key. */
  lemma {:induction false} UpsertLastWins(table: map<(string, string), Record>, records: seq<Record>, k: nat)
    requires k < |records|
    requires forall j :: k < j < |records| ==> Key(records[j]) != Key(records[k])
    ensures Key(records[k]) in UpsertAll(table, records)
    ensures UpsertAll(table, records)[Key(records[k])] == records[k]
    decreases |records|
  {
    var next := table[Key(records[0]) := records[0]];
    if k == 0 {
      UpsertKeepsOthers(next, records[1..], Key(records[0]));
    } else {
      UpsertLastWins(next, records[1..], k - 1);
    }
  }
  /** Two records of one batch share the conflict key. */
  predicate HasDuplicateKey(records: seq<Record>) {
    exists i, j :: 0 <= i < j < |records| && Key(records[i]) == Key(records[j])
  }

  /** A batch without a repeated key stores each of its records under its key. */
  lemma UpsertStoresEach(table: map<(string, string), Record>, records: seq<Record>)
    requires !HasDuplicateKey(records)
    ensures forall k :: 0 <= k < |records| ==>
              Key(records[k]) in UpsertAll(table, records) && UpsertAll(table, records)[Key(records[k])] == records[k]
  {
    forall k | 0 <= k < |records|
      ensures Key(records[k]) in UpsertAll(table, records) && UpsertAll(table, records)[Key(records[k])] == records[k]
    {
      UpsertLastWins(table, records, k);
    }
  }

  /** What the import leaves behind: the students table, and the success toast when one is shown. */
  datatype Stored = Stored(table: map<(string, string), Record>, toast: Option<string>)

  /**
   * The upsert as the database runs it. It is one statement, so it writes
   * every record or none. PostgreSQL refuses a batch that proposes one
   * conflict key twice (an `ON CONFLICT DO UPDATE` may not change a row a
   * second time), and `failed` stands for any other refusal. The dialog
   * rethrows the error inside the reader's callback, outside its `try`, so
   * the table stays as it was and no toast appears.
   */
  function Upserted(table: map<(string, string), Record>, records: seq<Record>, failed: bool): (r: Stored)
    ensures failed || HasDuplicateKey(records) ==> r == Stored(table, None)
    ensures !failed && !HasDuplicateKey(records) ==> r.toast == Some(SuccessText(Upsert(records)))
    ensures !failed && !HasDuplicateKey(records) ==>
              forall k :: 0 <= k < |records| ==> Key(records[k]) in r.table && r.table[Key(records[k])] == records[k]
    ensures forall key :: key in table && (forall k :: 0 <= k < |records| ==> Key(records[k]) != key) ==>
              key in r.table && r.table[key] == table[key]
  {
    if failed || HasDuplicateKey(records) then Stored(table, None)
    else
      UpsertStoresEach(table, records);
      assert forall key :: key in table && (forall k :: 0 <= k < |records| ==> Key(records[k]) != key) ==>
               key in UpsertAll(table, records) && UpsertAll(table, records)[key] == table[key] by {
        forall key | key in table && (forall k :: 0 <= k < |records| ==> Key(records[k]) != key)
          ensures key in UpsertAll(table, records) && UpsertAll(table, records)[key] == table[key]
        {
          UpsertKeepsOthers(table, records, key);
        }
      }
      Stored(UpsertAll(table, records), Some(SuccessText(Upsert(records))))
  }

  /** A sheet that lists one valid student twice imports nothing and shows no toast. */
  lemma RepeatedRowImportsNothing(row: Row, teacher: string, table: map<(string, string), Record>, failed: bool)
    requires IsValid(MapRow(row, teacher))
    ensures var o := Import(true, Some(teacher), [row, row]);
            o.Upsert? && Upserted(table, o.records, failed) == Stored(table, None)
  {
    var m := MapRow(row, teacher);
    assert MapRows([row, row], teacher) == [m, m];
    assert ValidRecords([row, row], teacher) == [m, m] by {
      assert [m, m][1..] == [m];
      assert [m][1..] == [];
    }
    assert HasDuplicateKey([m, m]) by {
      assert Key([m, m][0]) == Key([m, m][1]);
    }
  }
}
