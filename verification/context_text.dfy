/**
 * Preparing document text for the AI context window (lib/utils.ts) and
 * recognising PDF uploads (lib/pdf-extract.ts).
 */
module ContextText {
  import opened Wrappers
  import opened Text

  /** What the AI is given instead of a document with no readable text. */
  const NoTextFallback: string :=
    "I am answering from general knowledge as your file is still being processed or has no readable text."

  /** Appended to a document cut at the length limit. */
  const TruncationMarker: string := "\n...[Content Truncated due to length]..."

  /** The default length limit of `truncateContext`. */
  const DefaultMaxLength: int := 10000

  /**
   * `truncateContext(text, maxLength)`: missing or blank text becomes the
   * fallback sentence; text within the limit is kept whole; longer text is
   * cut to its first `maxLength` characters and marked as truncated.
   */
  function TruncateContext(text: Option<string>, maxLength: int): (r: string)
    ensures text.None? || IsBlank(text.value) ==> r == NoTextFallback
    ensures text.Some? && !IsBlank(text.value) && |text.value| <= maxLength ==> r == text.value
    ensures text.Some? && !IsBlank(text.value) && |text.value| > maxLength ==>
              EndsWith(r, TruncationMarker)
              && |r| - |TruncationMarker| == (if maxLength < 0 then 0 else maxLength)
              && StartsWith(text.value, r[..|r| - |TruncationMarker|])
  {
    if text.None? then NoTextFallback
    else
      var t := text.value;
      TrimEmptyIffBlank(t);
      if t == [] || |Trim(t)| == 0 then NoTextFallback
      else if |t| <= maxLength then t
      else
        var r := Take(t, maxLength) + TruncationMarker;
        assert r[..|r| - |TruncationMarker|] == Take(t, maxLength);
        r
  }

  /** The marker is not blank, so a truncated text is never blank. */
  lemma MarkerNotBlank(s: string)
    ensures !IsBlank(s + TruncationMarker)
  {
    assert (s + TruncationMarker)[|s| + 1] == '.';
  }

  /** The result is never empty: the AI always gets some context. */
  lemma TruncateNeverEmpty(text: Option<string>, maxLength: int)
    ensures |TruncateContext(text, maxLength)| > 0
  {
    if text.Some? && !IsBlank(text.value) && |text.value| <= maxLength {
      assert text.value != [];
    }
  }

  /** Truncating an already truncated document with the same limit changes nothing. */
  lemma TruncateIdempotent(t: string, maxLength: int)
    requires maxLength >= 0 && !IsBlank(t)
    ensures var r := TruncateContext(Some(t), maxLength);
            TruncateContext(Some(r), maxLength) == r
  {
    var r := TruncateContext(Some(t), maxLength);
    if |t| > maxLength {
      var prefix := r[..|r| - |TruncationMarker|];
      assert r == prefix + TruncationMarker;
      MarkerNotBlank(prefix);
      assert Take(r, maxLength) == prefix;
    }
  }

  /**
   * `isPDF(fileName, mimeType)`: the `application/pdf` type, or a name
   * ending in `.pdf` in any letter case.
   */
  predicate IsPdf(fileName: string, mimeType: Option<string>) {
    mimeType == Some("application/pdf") || EndsWith(Lower(fileName), ".pdf")
  }

  /** The name test of `IsPdf`, character by character: `.`, then `p`, `d`, `f` in either case. */
  lemma IsPdfByName(fileName: string, mimeType: Option<string>)
    requires mimeType != Some("application/pdf")
    ensures IsPdf(fileName, mimeType) <==>
              var n := |fileName|;
              n >= 4 && fileName[n - 4] == '.'
              && (fileName[n - 3] == 'p' || fileName[n - 3] == 'P')
              && (fileName[n - 2] == 'd' || fileName[n - 2] == 'D')
              && (fileName[n - 1] == 'f' || fileName[n - 1] == 'F')
  {
    var n := |fileName|;
    var low := Lower(fileName);
    if n >= 4 {
      assert EndsWith(low, ".pdf") <==>
               low[n - 4] == '.' && low[n - 3] == 'p' && low[n - 2] == 'd' && low[n - 1] == 'f' by {
        if EndsWith(low, ".pdf") {
          assert low[n - 4..][0] == '.' && low[n - 4..][1] == 'p';
          assert low[n - 4..][2] == 'd' && low[n - 4..][3] == 'f';
        }
        if low[n - 4] == '.' && low[n - 3] == 'p' && low[n - 2] == 'd' && low[n - 1] == 'f' {
          assert low[n - 4..] == ".pdf";
        }
      }
    }
  }
}
