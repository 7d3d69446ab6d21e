/**
 * Google Drive link handling (lib/google-drive.ts): recognising a file id
 * in any of the five supported link shapes, and building the preview and
 * thumbnail links for an id. Fetching metadata and downloading content are
 * network calls and are not part of this module.
 */
module GoogleDrive {
  import opened Wrappers
  import opened Text

  /** A character of a Drive id: the class `[a-zA-Z0-9_-]`. */
  predicate IsIdChar(c: char) {
    'a' <= c <= 'z' || 'A' <= c <= 'Z' || '0' <= c <= '9' || c == '_' || c == '-'
  }

  /** A non-empty run of id characters: what the capture group can match. */
  predicate IsValidId(id: string) {
    |id| > 0 && forall i :: 0 <= i < |id| ==> IsIdChar(id[i])
  }

  /** The scheme every link shape begins with. */
  const Scheme: string := "https:"

  /** The literal part of each recognised link shape, tried in this order. */
  const Prefixes: seq<string> := [
    Scheme + "//drive.google.com/file/d/",
    Scheme + "//drive.google.com/open?id=",
    Scheme + "//docs.google.com/document/d/",
    Scheme + "//docs.google.com/spreadsheets/d/",
    Scheme + "//docs.google.com/presentation/d/"
  ]

  /** The greedy capture `[a-zA-Z0-9_-]+` at the start of `s` (maybe empty). */
  function IdRun(s: string): (r: string)
    ensures StartsWith(s, r)
    ensures forall i :: 0 <= i < |r| ==> IsIdChar(r[i])
    ensures |r| < |s| ==> !IsIdChar(s[|r|])
  {
    if |s| > 0 && IsIdChar(s[0]) then [s[0]] + IdRun(s[1..]) else []
  }

  /** The pattern `prefix([a-zA-Z0-9_-]+)` matches starting at index `j`. */
  predicate MatchesAt(url: string, prefix: string, j: int) {
    OccursAt(url, prefix, j) && j + |prefix| < |url| && IsIdChar(url[j + |prefix|])
  }

  /** The leftmost match of the pattern at or after index `i`. */
  function FindMatch(url: string, prefix: string, i: nat): (r: Option<nat>)
    ensures r.Some? ==> i <= r.value && MatchesAt(url, prefix, r.value)
    ensures r.Some? ==> forall j :: i <= j < r.value ==> !MatchesAt(url, prefix, j)
    ensures r.None? ==> forall j :: i <= j ==> !MatchesAt(url, prefix, j)
    decreases |url| - i
  {
    if i >= |url| then None
    else if MatchesAt(url, prefix, i) then Some(i)
    else FindMatch(url, prefix, i + 1)
  }

  /** `url.match(pattern)?.[1]` for one link shape. */
  function MatchPrefix(url: string, prefix: string): (r: Option<string>)
    ensures r.Some? ==> IsValidId(r.value)
    ensures r.None? <==> forall j :: 0 <= j ==> !MatchesAt(url, prefix, j)
  {
    match FindMatch(url, prefix, 0)
    case Some(j) => Some(IdRun(url[j + |prefix|..]))
    case None => None
  }

  /** The index of the first shape, from index `k` on, that occurs in `url`. */
  function MatchingShape(url: string, k: nat): (r: Option<nat>)
    requires k <= |Prefixes|
    ensures r.Some? ==> k <= r.value < |Prefixes| && MatchPrefix(url, Prefixes[r.value]).Some?
    ensures r.Some? ==> forall m :: k <= m < r.value ==> MatchPrefix(url, Prefixes[m]).None?
    ensures r.None? ==> forall m :: k <= m < |Prefixes| ==> MatchPrefix(url, Prefixes[m]).None?
    decreases |Prefixes| - k
  {
    if k == |Prefixes| then None
    else if MatchPrefix(url, Prefixes[k]).Some? then Some(k)
    else MatchingShape(url, k + 1)
  }

  /**
   * `extractFileId`: the id captured by the first link shape that occurs
   * anywhere in `url`, or `null` when none does.
   */
  function ExtractFileId(url: string): (r: Option<string>)
    ensures r.Some? ==> IsValidId(r.value)
    ensures r.None? <==> forall m :: 0 <= m < |Prefixes| ==> MatchPrefix(url, Prefixes[m]).None?
    ensures forall m :: 0 <= m < |Prefixes| ==>
      (MatchPrefix(url, Prefixes[m]).Some? && (forall k :: 0 <= k < m ==> MatchPrefix(url, Prefixes[k]).None?)
       ==> r == MatchPrefix(url, Prefixes[m]))
  {
    match MatchingShape(url, 0)
    case Some(m) => FirstShapeIsUnique(url, m); MatchPrefix(url, Prefixes[m])
    case None => None
  }

  /** Only one shape can be the first that occurs. */
  lemma FirstShapeIsUnique(url: string, m: nat)
    requires m < |Prefixes| && MatchPrefix(url, Prefixes[m]).Some?
    requires forall k :: 0 <= k < m ==> MatchPrefix(url, Prefixes[k]).None?
    ensures forall n :: (0 <= n < |Prefixes| && MatchPrefix(url, Prefixes[n]).Some?
                         && (forall k :: 0 <= k < n ==> MatchPrefix(url, Prefixes[k]).None?)) ==> n == m
  {
  }

  /** `getPreviewUrl`. */
  function PreviewUrl(id: string): string {
    Scheme + "//drive.google.com/file/d/" + id + "/preview"
  }

  /** `getThumbnailUrl`. */
  function ThumbnailUrl(id: string): string {
    Scheme + ("//drive.google.com/thumbnail?id=" + id + "&sz=w400")
  }

  /** The greedy capture stops at the first character that is not an id character. */
  lemma {:induction false} IdRunStops(id: string, rest: string)
    requires forall i :: 0 <= i < |id| ==> IsIdChar(id[i])
    requires |rest| == 0 || !IsIdChar(rest[0])
    ensures IdRun(id + rest) == id
    decreases |id|
  {
    var s := id + rest;
    if |id| == 0 {
      assert s == rest;
    } else {
      assert s[0] == id[0] && IsIdChar(s[0]);
      assert s[1..] == id[1..] + rest;
      IdRunStops(id[1..], rest);
      assert IdRun(s) == [id[0]] + id[1..];
    }
  }

  /** A link shape whose first colon is its sixth character, as all of them are. */
  predicate ColonAtFive(p: string) {
    |p| > 5 && p[5] == ':' && forall k :: 0 <= k < 5 ==> p[k] != ':'
  }

  lemma PrefixesColonAtFive(m: nat)
    requires m < |Prefixes|
    ensures ColonAtFive(Prefixes[m])
  {
    if m == 0 {
      SchemeColon("//drive.google.com/file/d/");
    } else if m == 1 {
      SchemeColon("//drive.google.com/open?id=");
    } else if m == 2 {
      SchemeColon("//docs.google.com/document/d/");
    } else if m == 3 {
      SchemeColon("//docs.google.com/spreadsheets/d/");
    } else {
      SchemeColon("//docs.google.com/presentation/d/");
    }
  }

  /** After the scheme, a colon-free rest leaves the scheme's colon, at index 5, as the only one. */
  lemma SchemeColon(rest: string)
    ensures ColonAtFive(Scheme + rest)
    ensures ':' !in rest ==> forall k :: 0 <= k < |Scheme + rest| && k != 5 ==> (Scheme + rest)[k] != ':'
  {
    var s := Scheme + rest;
    assert s[..6] == Scheme;
    forall k | 0 <= k < |s| && k != 5 && ':' !in rest
      ensures s[k] != ':'
    {
      if k < 5 {
        assert s[k] == Scheme[k];
      } else {
        assert s[k] == rest[k - 6];
      }
    }
  }

  /** A match of such a shape needs a colon five characters after its start. */
  lemma MatchNeedsColon(url: string, p: string, j: int)
    requires ColonAtFive(p)
    ensures MatchesAt(url, p, j) ==> url[j + 5] == ':'
  {
    if MatchesAt(url, p, j) {
      assert url[j..j + |p|][5] == p[5];
    }
  }

  /** When `pre` has no colon, no match of the shape starts inside `pre`. */
  lemma NoMatchInColonFree(pre: string, p: string, rest: string)
    requires ColonAtFive(p) && ':' !in pre && StartsWith(rest, p)
    ensures forall j :: 0 <= j < |pre| ==> !MatchesAt(pre + rest, p, j)
  {
    var url := pre + rest;
    forall j | 0 <= j < |pre|
      ensures !MatchesAt(url, p, j)
    {
      MatchNeedsColon(url, p, j);
      if j + 5 < |pre| {
        assert url[j + 5] == pre[j + 5];
      } else if j + 5 < |url| {
        assert url[j + 5] == rest[j + 5 - |pre|] == p[j + 5 - |pre|];
      }
    }
  }

  /** The leftmost match is found by the search from the start. */
  lemma FindMatchFirst(url: string, prefix: string, j: nat)
    requires MatchesAt(url, prefix, j)
    requires forall k :: 0 <= k < j ==> !MatchesAt(url, prefix, k)
    ensures FindMatch(url, prefix, 0) == Some(j)
  {
  }

  /** The shape `p` followed by a valid id is captured, given nothing earlier matches. */
  lemma CaptureAfter(pre: string, p: string, id: string, post: string)
    requires IsValidId(id)
    requires |post| == 0 || !IsIdChar(post[0])
    requires forall j :: 0 <= j < |pre| ==> !MatchesAt(pre + (p + id + post), p, j)
    ensures MatchPrefix(pre + (p + id + post), p) == Some(id)
  {
    var url := pre + (p + id + post);
    MatchAtJoint(pre, p, id, post);
    FindMatchFirst(url, p, |pre|);
    IdRunStops(id, post);
  }

  /** The shape placed after `pre` matches there, and the text after it is the id and what follows. */
  lemma MatchAtJoint(pre: string, p: string, id: string, post: string)
    requires IsValidId(id)
    ensures MatchesAt(pre + (p + id + post), p, |pre|)
    ensures (pre + (p + id + post))[|pre| + |p|..] == id + post
  {
    var url := pre + (p + id + post);
    var start := |pre|;
    assert url[start..start + |p|] == p;
    assert url[start + |p|] == id[0];
    assert url[start + |p|..] == id + post;
  }

  /**
   * A file link is recognised wherever it appears, provided the text before
   * it has no colon (so no other shape can start there) and the id is not
   * followed by another id character.
   */
  lemma EmbeddedFileLink(pre: string, id: string, post: string)
    requires ':' !in pre
    requires IsValidId(id)
    requires |post| == 0 || !IsIdChar(post[0])
    ensures ExtractFileId(pre + (Prefixes[0] + id + post)) == Some(id)
  {
    var p := Prefixes[0];
    PrefixesColonAtFive(0);
    assert StartsWith(p + id + post, p);
    NoMatchInColonFree(pre, p, p + id + post);
    CaptureAfter(pre, p, id, post);
  }

  /** A preview link gives back the id it was built from. */
  lemma PreviewUrlRoundTrip(id: string)
    requires IsValidId(id)
    ensures ExtractFileId(PreviewUrl(id)) == Some(id)
  {
    assert PreviewUrl(id) == [] + (Prefixes[0] + id + "/preview");
    EmbeddedFileLink([], id, "/preview");
  }

  /** In a string whose only colon is at index 5, a shape can only match at 0. */
  lemma OnlyMatchAtStart(url: string, p: string, j: int)
    requires ColonAtFive(p)
    requires forall k :: 0 <= k < |url| && k != 5 ==> url[k] != ':'
    ensures MatchesAt(url, p, j) ==> j == 0
  {
    MatchNeedsColon(url, p, j);
  }

  /** A string that differs from `p` at index `k` does not start with `p`. */
  lemma DiffersAt(url: string, p: string, k: nat)
    requires k < |p| && k < |url| && url[k] != p[k]
    ensures !OccursAt(url, p, 0)
  {
  }

  lemma ThumbnailColons(id: string)
    requires IsValidId(id)
    ensures var url := ThumbnailUrl(id);
            forall k :: 0 <= k < |url| && k != 5 ==> url[k] != ':'
  {
    assert ':' !in id;
    SchemeColon("//drive.google.com/thumbnail?id=" + id + "&sz=w400");
  }

  /** A thumbnail link is none of the recognised shapes. */
  lemma ThumbnailUrlNotRecognised(id: string)
    requires IsValidId(id)
    ensures ExtractFileId(ThumbnailUrl(id)) == None
  {
    var url := ThumbnailUrl(id);
    ThumbnailColons(id);
    assert url[9] == 'r' && url[25] == 't';
    forall m, j | 0 <= m < |Prefixes| && 0 <= j
      ensures !MatchesAt(url, Prefixes[m], j)
    {
      var p := Prefixes[m];
      PrefixesColonAtFive(m);
      OnlyMatchAtStart(url, p, j);
      if m <= 1 {
        DiffersAt(url, p, 25);
      } else {
        DiffersAt(url, p, 9);
      }
    }
  }
}
