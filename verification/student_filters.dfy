/**
 * The student-list filters (app/dashboard/students/student-filters.tsx):
 * each edit copies the current query parameters, sets or deletes one of
 * `search`, `class` and `section`, and navigates to the student list with
 * the result. The debounce delay is left out: the debounced value is an
 * input.
 */
module StudentFilters {
  import opened Wrappers
  import opened Text
  import opened FormEncoding

  const ListPath: string := "/dashboard/students?"

  /**
   * The search box's first value: the `search` parameter when the query has
   * a non-empty one, otherwise empty.
   */
  function InitialSearch(ps: Params): (s: string)
    ensures s != "" ==> Get(ps, "search") == Some(s)
    ensures s == "" ==> Get(ps, "search") in {None, Some("")}
  {
    OrText(Get(ps, "search"), "")
  }

  /**
   * Sets `name` to `value` when `keep` holds and deletes it otherwise: the
   * shape shared by the three handlers.
   */
  function SetOrDelete(ps: Params, name: string, value: string, keep: bool): (r: Params)
    ensures keep ==> Get(r, name) == Some(value) && Named(r, name) == [Param(name, value)]
    ensures !keep ==> Get(r, name).None?
  {
    if keep then
      SetLeavesOnePair(ps, name, value);
      Set(ps, name, value)
    else
      DeleteLeavesNone(ps, name);
      Delete(ps, name)
  }

  /** The debounced search: a non-empty text sets `search`, an empty one deletes it. */
  function EditSearch(ps: Params, debounced: string): (r: Params)
    ensures debounced != "" ==> Get(r, "search") == Some(debounced)
    ensures debounced == "" ==> Get(r, "search").None?
  {
    SetOrDelete(ps, "search", debounced, debounced != "")
  }

  /** The class picker: "all" or empty deletes `class`, anything else sets it. */
  function EditClass(ps: Params, value: string): (r: Params)
    ensures value != "" && value != "all" ==> Get(r, "class") == Some(value)
    ensures value == "" || value == "all" ==> Get(r, "class").None?
  {
    SetOrDelete(ps, "class", value, value != "" && value != "all")
  }

  /** The section picker: empty deletes `section`, anything else sets it. */
  function EditSection(ps: Params, value: string): (r: Params)
    ensures value != "" ==> Get(r, "section") == Some(value)
    ensures value == "" ==> Get(r, "section").None?
  {
    SetOrDelete(ps, "section", value, value != "")
  }

  /** Where each edit navigates: the student list with the serialised parameters as its query. */
  function Target(ps: Params): (url: string)
    ensures StartsWith(url, ListPath)
    ensures url[|ListPath|..] == Serialize(ps)
  {
    ListPath + Serialize(ps)
  }

  /**
   * The query of the target reads back: split on `&` it has one piece per
   * parameter, each piece splits on `=` into two, and these decode to the
   * parameter's name and value (as UTF-8 bytes).
   */
  lemma TargetReadsBack(ps: Params, k: nat)
    requires k < |ps|
    ensures var pieces := Split(Target(ps)[|ListPath|..], '&');
            |pieces| == |ps| &&
            var nv := Split(pieces[k], '=');
            |nv| == 2 && Decode(nv[0]) == Utf8String(ps[k].name) && Decode(nv[1]) == Utf8String(ps[k].value)
  {
    SplitSerialized(ps);
    PieceOf(ps, k);
    SplitPiece(ps[k]);
    DecodeEncode(ps[k].name);
    DecodeEncode(ps[k].value);
  }

  datatype Filter = Search | Class | Section

  function NameOf(f: Filter): string {
    match f
    case Search => "search"
    case Class => "class"
    case Section => "section"
  }

  function Edit(ps: Params, f: Filter, value: string): Params {
    match f
    case Search => EditSearch(ps, value)
    case Class => EditClass(ps, value)
    case Section => EditSection(ps, value)
  }

  /** An edit keeps every other parameter's pairs as they were, in order. */
  lemma EditKeepsOthers(ps: Params, f: Filter, value: string, other: string)
    requires other != NameOf(f)
    ensures Named(Edit(ps, f, value), other) == Named(ps, other)
  {
    var n := NameOf(f);
    var sets := match f
      case Search => value != ""
      case Class => value != "" && value != "all"
      case Section => value != "";
    assert Edit(ps, f, value) == SetOrDelete(ps, n, value, sets);
    if sets {
      SetKeepsOthers(ps, n, value, other);
    } else {
      DeleteKeepsOthers(ps, n, other);
    }
  }

  /** Picking "all" after a class forgets the class and nothing else. */
  lemma AllClassesUndoes(ps: Params, c: string, other: string)
    requires c != "" && c != "all" && other != "class"
    ensures Get(EditClass(EditClass(ps, c), "all"), "class").None?
    ensures Named(EditClass(EditClass(ps, c), "all"), other) == Named(ps, other)
  {
    EditKeepsOthers(ps, Class, c, other);
    EditKeepsOthers(EditClass(ps, c), Class, "all", other);
  }
}
