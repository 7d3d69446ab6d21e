/**
 * `URLSearchParams` as the student filters use it: a list of name-value
 * pairs with `get`, `set` and `delete`, and `toString`, the
 * application/x-www-form-urlencoded serializer of the WHATWG URL Standard
 * (section 5.2). Characters are Unicode scalar values, encoded as UTF-8.
 */
module FormEncoding {
  import opened Wrappers
  import opened Text

  datatype Param = Param(name: string, value: string)

  type Params = seq<Param>

  /** `params.get(name)`: the value of the first pair with that name. */
  function Get(ps: Params, name: string): (r: Option<string>)
    ensures r.None? <==> forall k :: 0 <= k < |ps| ==> ps[k].name != name
    ensures r.Some? ==> Param(name, r.value) in ps
  {
    if |ps| == 0 then None
    else if ps[0].name == name then Some(ps[0].value)
    else Get(ps[1..], name)
  }

  /** `params.delete(name)`: every pair with that name is removed. */
  function Delete(ps: Params, name: string): (r: Params)
    ensures |r| <= |ps|
    ensures forall k :: 0 <= k < |r| ==> r[k].name != name && r[k] in ps
  {
    if |ps| == 0 then []
    else (if ps[0].name == name then [] else [ps[0]]) + Delete(ps[1..], name)
  }

  /**
   * `params.set(name, value)`: the first pair with that name takes the new
   * value and the later ones are removed; with no such pair, one is
   * appended.
   */
  function Set(ps: Params, name: string, value: string): (r: Params)
  {
    if |ps| == 0 then [Param(name, value)]
    else if ps[0].name == name then [Param(name, value)] + Delete(ps[1..], name)
    else [ps[0]] + Set(ps[1..], name, value)
  }

  /** The pairs named `name`, in order. */
  function Named(ps: Params, name: string): (r: Params)
    ensures forall k :: 0 <= k < |r| ==> r[k].name == name
  {
    if |ps| == 0 then []
    else (if ps[0].name == name then [ps[0]] else []) + Named(ps[1..], name)
  }

  /** After `set`, the name has exactly the one new pair. */
  lemma {:induction false} SetLeavesOnePair(ps: Params, name: string, value: string)
    ensures Named(Set(ps, name, value), name) == [Param(name, value)]
    ensures Get(Set(ps, name, value), name) == Some(value)
    decreases |ps|
  {
    if |ps| > 0 {
      if ps[0].name == name {
        DeleteLeavesNone(ps[1..], name);
        var r := [Param(name, value)] + Delete(ps[1..], name);
        assert r[1..] == Delete(ps[1..], name);
      } else {
        SetLeavesOnePair(ps[1..], name, value);
        assert ([ps[0]] + Set(ps[1..], name, value))[1..] == Set(ps[1..], name, value);
      }
    }
  }

  lemma {:induction false} DeleteLeavesNone(ps: Params, name: string)
    ensures Named(Delete(ps, name), name) == []
    decreases |ps|
  {
    if |ps| > 0 {
      DeleteLeavesNone(ps[1..], name);
      var rest := Delete(ps[1..], name);
      if ps[0].name != name {
        var r := [ps[0]] + rest;
        assert Delete(ps, name) == r && r[0] == ps[0] && r[1..] == rest;
        assert Named(r, name) == Named(rest, name);
      } else {
        assert Delete(ps, name) == [] + rest == rest;
      }
    }
  }

  /** Deleting one name keeps every other name's pairs, in order. */
  lemma {:induction false} DeleteKeepsOthers(ps: Params, name: string, other: string)
    requires other != name
    ensures Named(Delete(ps, name), other) == Named(ps, other)
    decreases |ps|
  {
    if |ps| > 0 {
      DeleteKeepsOthers(ps[1..], name, other);
      var rest := Delete(ps[1..], name);
      if ps[0].name != name {
        var r := [ps[0]] + rest;
        assert Delete(ps, name) == r && r[0] == ps[0] && r[1..] == rest;
        assert Named(r, other) == (if ps[0].name == other then [ps[0]] else []) + Named(rest, other);
      } else {
        assert Delete(ps, name) == [] + rest == rest;
      }
    }
  }

  /** Setting one name keeps every other name's pairs, in order. */
  lemma {:induction false} SetKeepsOthers(ps: Params, name: string, value: string, other: string)
    requires other != name
    ensures Named(Set(ps, name, value), other) == Named(ps, other)
    decreases |ps|
  {
    if |ps| > 0 {
      if ps[0].name == name {
        DeleteKeepsOthers(ps[1..], name, other);
        var r := [Param(name, value)] + Delete(ps[1..], name);
        assert r[1..] == Delete(ps[1..], name);
      } else {
        SetKeepsOthers(ps[1..], name, value, other);
        assert ([ps[0]] + Set(ps[1..], name, value))[1..] == Set(ps[1..], name, value);
      }
    } else {
      assert [Param(name, value)][1..] == [];
    }
  }

  // ---------------------------------------------------------------------
  // serializing
  // ---------------------------------------------------------------------

  /** The characters the serializer leaves as they are: ASCII alphanumerics and `*-._`. */
  predicate Unreserved(c: char) {
    ('0' <= c <= '9') || ('A' <= c <= 'Z') || ('a' <= c <= 'z') || c == '*' || c == '-' || c == '.' || c == '_'
  }

  /** The UTF-8 encoding of a scalar value. */
  function Utf8(c: char): (bs: seq<int>)
    ensures 1 <= |bs| <= 4
    ensures forall k :: 0 <= k < |bs| ==> 0 <= bs[k] < 256
    ensures c as int < 0x80 ==> bs == [c as int]
  {
    var n := c as int;
    if n < 0x80 then [n]
    else if n < 0x800 then [0xC0 + n / 64, 0x80 + n % 64]
    else if n < 0x1_0000 then [0xE0 + n / 4096, 0x80 + (n / 64) % 64, 0x80 + n % 64]
    else [0xF0 + n / 262144, 0x80 + (n / 4096) % 64, 0x80 + (n / 64) % 64, 0x80 + n % 64]
  }

  function Utf8String(s: string): seq<int> {
    if |s| == 0 then [] else Utf8(s[0]) + Utf8String(s[1..])
  }

  /** An upper-case hexadecimal digit. */
  function Hex(d: int): (c: char)
    requires 0 <= d < 16
    ensures IsHex(c) && HexValue(c) == d
  {
    if d < 10 then ('0' as int + d) as char else ('A' as int + d - 10) as char
  }

  predicate IsHex(c: char) {
    ('0' <= c <= '9') || ('A' <= c <= 'F') || ('a' <= c <= 'f')
  }

  function HexValue(c: char): int
    requires IsHex(c)
  {
    if '0' <= c <= '9' then c as int - '0' as int
    else if 'A' <= c <= 'F' then c as int - 'A' as int + 10
    else c as int - 'a' as int + 10
  }

  /** `%XX` for each byte. */
  function Percent(bs: seq<int>): (s: string)
    requires forall k :: 0 <= k < |bs| ==> 0 <= bs[k] < 256
    ensures |s| == 3 * |bs|
  {
    if |bs| == 0 then "" else ['%', Hex(bs[0] / 16), Hex(bs[0] % 16)] + Percent(bs[1..])
  }

  /** One character, serialized: kept, a space as `+`, anything else percent-encoded as UTF-8. */
  function EncodeChar(c: char): string {
    if Unreserved(c) then [c] else if c == ' ' then "+" else Percent(Utf8(c))
  }

  function Encode(s: string): string {
    if |s| == 0 then "" else EncodeChar(s[0]) + Encode(s[1..])
  }

  /** `params.toString()`: `name=value` pairs, encoded, joined by `&`. */
  function Serialize(ps: Params): string {
    Join(Pieces(ps), "&")
  }

  function Pieces(ps: Params): (r: seq<string>)
    ensures |r| == |ps|
  {
    if |ps| == 0 then [] else [Encode(ps[0].name) + "=" + Encode(ps[0].value)] + Pieces(ps[1..])
  }

  /** The characters the serializer can emit: unreserved ones, `+`, `%` and hex digits. */
  predicate Emitted(c: char) {
    Unreserved(c) || c == '+' || c == '%'
  }

  lemma {:induction false} PercentEmits(bs: seq<int>)
    requires forall k :: 0 <= k < |bs| ==> 0 <= bs[k] < 256
    ensures forall k :: 0 <= k < |Percent(bs)| ==> Emitted(Percent(bs)[k])
    decreases |bs|
  {
    if |bs| > 0 {
      PercentEmits(bs[1..]);
      var head := ['%', Hex(bs[0] / 16), Hex(bs[0] % 16)];
      assert Percent(bs) == head + Percent(bs[1..]);
      forall k | 0 <= k < |Percent(bs)| ensures Emitted(Percent(bs)[k]) {
        if k >= 3 { assert Percent(bs)[k] == Percent(bs[1..])[k - 3]; }
      }
    }
  }

  /** An encoded text contains neither `&` nor `=`, so the separators of the query are unambiguous. */
  lemma {:induction false} EncodeEmits(s: string)
    ensures AllEmitted(Encode(s))
    ensures '&' !in Encode(s) && '=' !in Encode(s)
    decreases |s|
  {
    if |s| > 0 {
      EncodeEmits(s[1..]);
      EncodeCharEmits(s[0]);
      assert Encode(s) == EncodeChar(s[0]) + Encode(s[1..]);
      ConcatEmitted(EncodeChar(s[0]), Encode(s[1..]));
    }
    NoSeparators(Encode(s));
  }

  predicate AllEmitted(s: string) {
    forall k :: 0 <= k < |s| ==> Emitted(s[k])
  }

  lemma EncodeCharEmits(c: char)
    ensures AllEmitted(EncodeChar(c))
  {
    if !Unreserved(c) && c != ' ' {
      PercentEmits(Utf8(c));
    }
  }

  lemma ConcatEmitted(a: string, b: string)
    requires AllEmitted(a) && AllEmitted(b)
    ensures AllEmitted(a + b)
  {
    forall k | 0 <= k < |a + b| ensures Emitted((a + b)[k]) {
      if k >= |a| { assert (a + b)[k] == b[k - |a|]; }
    }
  }

  lemma NoSeparators(s: string)
    requires AllEmitted(s)
    ensures '&' !in s && '=' !in s
  {
  }

  // ---------------------------------------------------------------------
  // parsing back
  // ---------------------------------------------------------------------

  /**
   * The byte sequence the urlencoded parser (section 5.1 of the same
   * standard) recovers from one name or value: `+` is a space, `%XX` a
   * byte, and any other character its UTF-8 bytes.
   */
  function Decode(s: string): seq<int>
    decreases |s|
  {
    if |s| == 0 then []
    else if s[0] == '+' then [0x20] + Decode(s[1..])
    else if s[0] == '%' && |s| >= 3 && IsHex(s[1]) && IsHex(s[2]) then [HexValue(s[1]) * 16 + HexValue(s[2])] + Decode(s[3..])
    else Utf8(s[0]) + Decode(s[1..])
  }

  lemma {:induction false} DecodePercent(bs: seq<int>, rest: string)
    requires forall k :: 0 <= k < |bs| ==> 0 <= bs[k] < 256
    ensures Decode(Percent(bs) + rest) == bs + Decode(rest)
    decreases |bs|
  {
    if |bs| > 0 {
      var head := ['%', Hex(bs[0] / 16), Hex(bs[0] % 16)];
      var s := Percent(bs) + rest;
      assert s == head + (Percent(bs[1..]) + rest);
      assert s[1] == Hex(bs[0] / 16) && s[2] == Hex(bs[0] % 16);
      assert s[3..] == Percent(bs[1..]) + rest;
      assert s[0] == '%' && IsHex(s[1]) && IsHex(s[2]);
      assert HexValue(s[1]) * 16 + HexValue(s[2]) == bs[0];
      assert Decode(s) == [bs[0]] + Decode(s[3..]);
      DecodePercent(bs[1..], rest);
      calc {
        Decode(s);
        [bs[0]] + Decode(Percent(bs[1..]) + rest);
        [bs[0]] + (bs[1..] + Decode(rest));
        { assert bs == [bs[0]] + bs[1..]; }
        bs + Decode(rest);
      }
    } else {
      assert Percent(bs) + rest == rest;
    }
  }

  lemma DecodeChar(c: char, rest: string)
    ensures Decode(EncodeChar(c) + rest) == Utf8(c) + Decode(rest)
  {
    if Unreserved(c) {
      assert ([c] + rest)[1..] == rest;
    } else if c == ' ' {
      assert ("+" + rest)[1..] == rest;
    } else {
      DecodePercent(Utf8(c), rest);
    }
  }

  /** Parsing an encoded text gives back exactly its UTF-8 bytes. */
  lemma {:induction false} DecodeEncode(s: string)
    ensures Decode(Encode(s)) == Utf8String(s)
    decreases |s|
  {
    if |s| > 0 {
      DecodeChar(s[0], Encode(s[1..]));
      DecodeEncode(s[1..]);
    }
  }

  /** Splitting the query on `&` gives back one encoded `name=value` piece per pair, in order. */
  lemma SplitSerialized(ps: Params)
    requires |ps| >= 1
    ensures Split(Serialize(ps), '&') == Pieces(ps)
  {
    forall k | 0 <= k < |ps| ensures '&' !in Pieces(ps)[k] {
      PieceOf(ps, k);
      EncodeEmits(ps[k].name);
      EncodeEmits(ps[k].value);
    }
    SplitJoin(Pieces(ps), '&');
  }

  lemma {:induction false} PieceOf(ps: Params, k: nat)
    requires k < |ps|
    ensures Pieces(ps)[k] == Encode(ps[k].name) + "=" + Encode(ps[k].value)
    decreases k
  {
    if k > 0 {
      PieceOf(ps[1..], k - 1);
    }
  }

  /** Each piece splits on `=` into the encoded name and the encoded value. */
  lemma SplitPiece(p: Param)
    ensures Split(Encode(p.name) + "=" + Encode(p.value), '=') == [Encode(p.name), Encode(p.value)]
  {
    EncodeEmits(p.name);
    EncodeEmits(p.value);
    assert Join([Encode(p.name), Encode(p.value)], "=") == Encode(p.name) + "=" + Encode(p.value);
    SplitJoin([Encode(p.name), Encode(p.value)], '=');
  }
}
