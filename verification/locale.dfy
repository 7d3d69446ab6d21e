/**
 * Interface language selection (i18n/routing.ts, i18n/request.ts,
 * components/language-switcher.tsx): the language code travels in the
 * `MARK_AI_LOCALE` cookie; the server validates it against the supported
 * codes and the switcher writes and reads it in the browser.
 */
module Locale {
  import opened Wrappers
  import opened Text

  /** The supported interface languages: English, Hindi and Tamil. */
  const Locales: seq<string> := ["en", "hi", "ta"]

  const DefaultLocale: string := "en"

  const CookieName: string := "MARK_AI_LOCALE"

  /** One year, in seconds. */
  const CookieMaxAgeSeconds: int := 31536000

  /**
   * The language a request is rendered in: the cookie's value when it is a
   * supported code, English otherwise (no cookie, an empty value or an
   * unknown code).
   */
  function ResolveLocale(cookieValue: Option<string>): (r: string)
    ensures r in Locales
    ensures cookieValue.Some? && cookieValue.value in Locales ==> r == cookieValue.value
    ensures !(cookieValue.Some? && cookieValue.value in Locales) ==> r == DefaultLocale
  {
    var locale := if cookieValue.Some? && cookieValue.value != "" then cookieValue.value else DefaultLocale;
    if locale in Locales then locale else DefaultLocale
  }

  /** Resolving an already resolved code changes nothing. */
  lemma ResolveIdempotent(cookieValue: Option<string>)
    ensures ResolveLocale(Some(ResolveLocale(cookieValue))) == ResolveLocale(cookieValue)
  {
  }

  /** The cookie string the switcher assigns to `document.cookie`. */
  function LocaleCookie(code: string): string {
    CookieName + "=" + code + ";path=/;max-age=31536000;samesite=lax"
  }

  /** The key the switcher's pattern `MARK_AI_LOCALE=([^;]+)` looks for. */
  const CookieKey: string := "MARK_AI_LOCALE="

  /** The pattern matches at `i`: the key, then at least one character that is not `;`. */
  predicate KeyAt(s: string, i: int) {
    OccursAt(s, CookieKey, i) && i + |CookieKey| < |s| && s[i + |CookieKey|] != ';'
  }

  /** The greedy capture `[^;]+`: the characters up to the first `;`. */
  function ValueRun(s: string): (r: string)
    ensures StartsWith(s, r) && ';' !in r
    ensures |r| < |s| ==> s[|r|] == ';'
  {
    if |s| > 0 && s[0] != ';' then [s[0]] + ValueRun(s[1..]) else []
  }

  /** The leftmost match at or after `i`. */
  function FindKey(s: string, i: nat): (r: Option<nat>)
    ensures r.Some? ==> i <= r.value && KeyAt(s, r.value)
    ensures r.Some? ==> forall j :: i <= j < r.value ==> !KeyAt(s, j)
    ensures r.None? ==> forall j :: i <= j ==> !KeyAt(s, j)
    decreases |s| - i
  {
    if i >= |s| then None
    else if KeyAt(s, i) then Some(i)
    else FindKey(s, i + 1)
  }

  /**
   * `getCurrentLocale`: English when there is no document; otherwise the
   * text after the first `MARK_AI_LOCALE=` that is followed by something
   * other than `;`, up to the next `;`, or English when there is none.
   */
  function CurrentLocale(documentCookie: Option<string>): (r: string)
    ensures r != [] && ';' !in r
    ensures documentCookie.None? ==> r == DefaultLocale
    ensures documentCookie.Some? && (forall j :: 0 <= j ==> !KeyAt(documentCookie.value, j)) ==> r == DefaultLocale
  {
    if documentCookie.None? then DefaultLocale
    else
      var s := documentCookie.value;
      match FindKey(s, 0)
      case None => DefaultLocale
      case Some(i) =>
        var v := ValueRun(s[i + |CookieKey|..]);
        assert v[0] == s[i + |CookieKey|];
        v
  }

  lemma ValueRunStops(v: string, rest: string)
    requires ';' !in v
    requires |rest| == 0 || rest[0] == ';'
    ensures ValueRun(v + rest) == v
  {
    if |v| > 0 {
      assert (v + rest)[1..] == v[1..] + rest;
      ValueRunStops(v[1..], rest);
    }
  }

  /**
   * When the cookie string begins with the locale pair, the switcher reads
   * back that pair's value.
   */
  lemma CurrentLocaleOfLeadingPair(v: string, rest: string)
    requires v != [] && ';' !in v
    requires |rest| == 0 || rest[0] == ';'
    ensures CurrentLocale(Some(CookieKey + v + rest)) == v
  {
    var s := CookieKey + v + rest;
    assert s[..|CookieKey|] == CookieKey;
    assert s[|CookieKey|] == v[0];
    assert KeyAt(s, 0);
    assert s[|CookieKey|..] == v + rest;
    ValueRunStops(v, rest);
  }

  /**
   * Wherever the locale pair stands in the cookie string, the switcher reads
   * the value of the first `MARK_AI_LOCALE=` followed by something other
   * than `;`, up to the next `;`.
   */
  lemma CurrentLocaleOfPair(s: string, i: nat, v: string, rest: string)
    requires KeyAt(s, i) && forall j :: 0 <= j < i ==> !KeyAt(s, j)
    requires i + |CookieKey| <= |s| && s[i + |CookieKey|..] == v + rest
    requires ';' !in v && (|rest| == 0 || rest[0] == ';')
    ensures CurrentLocale(Some(s)) == v
  {
    assert FindKey(s, 0) == Some(i);
    ValueRunStops(v, rest);
  }

  /** A locale pair after another cookie is found, not only a leading one. */
  lemma CurrentLocaleAfterOtherCookie()
    ensures CurrentLocale(Some("a=b; MARK_AI_LOCALE=hi")) == "hi"
  {
    var s := "a=b; MARK_AI_LOCALE=hi";
    assert s == "a=b; " + CookieKey + "hi";
    forall j | 0 <= j < 5
      ensures !KeyAt(s, j)
    {
      assert s[j] != CookieKey[0];
    }
    assert s[5..5 + |CookieKey|] == CookieKey;
    assert s[5 + |CookieKey|..] == "hi" + "";
    CurrentLocaleOfPair(s, 5, "hi", "");
  }

  /** Reading the cookie the switcher wrote gives back the chosen language. */
  lemma CookieRoundTrip(code: string)
    requires code != [] && ';' !in code
    ensures CurrentLocale(Some(LocaleCookie(code))) == code
  {
    var rest := ";path=/;max-age=31536000;samesite=lax";
    assert LocaleCookie(code) == CookieKey + code + rest;
    CurrentLocaleOfLeadingPair(code, rest);
  }

  /** Every language the switcher offers survives the round trip and the server's check. */
  lemma OfferedLanguagesRoundTrip(code: string)
    requires code in Locales
    ensures CurrentLocale(Some(LocaleCookie(code))) == code
    ensures ResolveLocale(Some(CurrentLocale(Some(LocaleCookie(code))))) == code
  {
    CookieRoundTrip(code);
  }

  /**
   * The pattern is not anchored to a cookie-name boundary: a cookie whose
   * name merely ends in `MARK_AI_LOCALE` is read as the language.
   */
  lemma UnanchoredName()
    ensures CurrentLocale(Some("XMARK_AI_LOCALE=fr")) == "fr"
  {
    var s := "XMARK_AI_LOCALE=fr";
    assert s == "X" + (CookieKey + "fr" + "");
    assert !KeyAt(s, 0) by { assert s[0] != CookieKey[0]; }
    assert s[1..] == CookieKey + "fr";
    assert s[1..1 + |CookieKey|] == CookieKey;
    assert KeyAt(s, 1);
    assert s[1 + |CookieKey|..] == "fr" + "";
    ValueRunStops("fr", "");
  }
}
