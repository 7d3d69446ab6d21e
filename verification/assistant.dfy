/**
 * The voice assistant route (app/api/assistant/route.ts): a transcript is
 * turned into a prompt, the model's reply is cut down to its outermost
 * JSON object and parsed, and the result is sent back marked as a
 * success. The model call and `JSON.parse` are inputs: the reply as a
 * `Result` and the parser as a function.
 */
module Assistant {
  import opened Wrappers
  import opened Text

  /** A JSON value. */
  datatype Json =
    | JNull
    | JBool(b: bool)
    | JNum(n: int)
    | JStr(s: string)
    | JArr(items: seq<Json>)
    | JObj(fields: map<string, Json>)

  /** The position of the last `c` in `s`. */
  function LastIndexOf(s: string, c: char): (r: nat)
    requires c in s
    ensures r < |s| && s[r] == c && c !in s[r + 1..]
    decreases |s|
  {
    if s[|s| - 1] == c then |s| - 1
    else
      var r := LastIndexOf(s[..|s| - 1], c);
      assert s[r + 1..] == s[..|s| - 1][r + 1..] + [s[|s| - 1]];
      r
  }

  /**
   * `reply.match(/\{[\s\S]*\}/)`: the leftmost match starts at the first
   * `{` and, being greedy, ends at the last `}`; there is a match only
   * when that `}` comes after that `{`.
   */
  function JsonSpan(reply: string): (r: Option<string>)
  {
    if '{' in reply && '}' in reply && IndexOf(reply, '{') < LastIndexOf(reply, '}') then
      Some(reply[IndexOf(reply, '{')..LastIndexOf(reply, '}') + 1])
    else None
  }

  /** `s` holds a `{` at `i` and a `}` at `j` further on. */
  predicate Braces(s: string, i: int, j: int) {
    0 <= i < j < |s| && s[i] == '{' && s[j] == '}'
  }

  /** The span is found exactly when some `{` precedes some `}`. */
  lemma SpanIffBraces(reply: string)
    ensures JsonSpan(reply).Some? <==> exists i, j :: Braces(reply, i, j)
  {
    if exists i, j :: Braces(reply, i, j) {
      var i, j :| Braces(reply, i, j);
      assert reply[i] == '{' && reply[j] == '}';
    }
    if JsonSpan(reply).Some? {
      assert Braces(reply, IndexOf(reply, '{'), LastIndexOf(reply, '}'));
    }
  }

  /**
   * The span is the longest leftmost match: it runs from a `{` to a `}`, no
   * `{` comes before it, and no `}` after it.
   */
  lemma SpanIsOutermost(reply: string)
    requires JsonSpan(reply).Some?
    ensures exists i, j :: Braces(reply, i, j) && JsonSpan(reply).value == reply[i..j + 1]
              && '{' !in reply[..i] && '}' !in reply[j + 1..]
  {
    var i := IndexOf(reply, '{');
    var j := LastIndexOf(reply, '}');
    assert Braces(reply, i, j) && JsonSpan(reply).value == reply[i..j + 1];
  }

  /** The reply spoken back when the model's text holds no parsable JSON. */
  function Fallback(reply: string): (m: map<string, Json>)
  {
    map["understood" := JBool(true),
        "actions" := JArr([JObj(map["type" := JStr("speak"), "message" := JStr(reply)])]),
        "response" := JStr(reply)]
  }

  /** The object answered for a reply: the parsed span, or the fallback when there is none or it does not parse. */
  function Parsed(reply: string, parse: string -> Option<map<string, Json>>): (m: map<string, Json>)
    ensures JsonSpan(reply).None? ==> m == Fallback(reply)
    ensures JsonSpan(reply).Some? && parse(JsonSpan(reply).value).Some? ==> m == parse(JsonSpan(reply).value).value
    ensures JsonSpan(reply).Some? && parse(JsonSpan(reply).value).None? ==> m == Fallback(reply)
  {
    match JsonSpan(reply)
    case None => Fallback(reply)
    case Some(span) =>
      match parse(span)
      case None => Fallback(reply)
      case Some(m) => m
  }

  const ApologyText: string := "Sorry, I couldn't understand that. Could you please try again?"
  const DefaultError: string := "Failed to process command"
  const NoTranscript: string := "No transcript provided"

  datatype Response = Response(status: int, body: map<string, Json>)

  /**
   * The route. A missing or empty transcript answers 400; a failed model
   * call answers 500 with the error's message (or a default) and the
   * apology; otherwise the parsed object is spread over `success: true`.
   */
  function Reply(transcript: Option<string>, model: Result<string>,
                 parse: string -> Option<map<string, Json>>): (r: Response)
    ensures r.status == 400 <==> transcript.None? || transcript.value == ""
    ensures r.status == 400 ==> r.body == map["error" := JStr(NoTranscript)]
    ensures r.status == 500 <==> transcript.Some? && transcript.value != "" && model.Err?
    ensures r.status == 500 ==>
              r.body == map["success" := JBool(false), "error" := JStr(if model.error == "" then DefaultError else model.error),
                            "response" := JStr(ApologyText)]
    ensures r.status == 200 ==> model.Ok? && r.body == map["success" := JBool(true)] + Parsed(model.value, parse)
  {
    if transcript.None? || transcript.value == "" then Response(400, map["error" := JStr(NoTranscript)])
    else match model
      case Err(e) =>
        Response(500, map["success" := JBool(false), "error" := JStr(if e == "" then DefaultError else e),
                          "response" := JStr(ApologyText)])
      case Ok(text) => Response(200, map["success" := JBool(true)] + Parsed(text, parse))
  }

  /**
   * The keys of the parsed object take precedence: a model reply holding
   * its own `success` field decides that field; every other parsed key is
   * answered as parsed.
   */
  lemma ParsedKeysWin(transcript: string, text: string, parse: string -> Option<map<string, Json>>, key: string)
    requires transcript != ""
    requires key in Parsed(text, parse)
    ensures var r := Reply(Some(transcript), Ok(text), parse);
            r.status == 200 && key in r.body && r.body[key] == Parsed(text, parse)[key]
  {
  }

  /** Without its own `success` field, the answer is marked successful, and no key appears that the parse did not give. */
  lemma SuccessUnlessOverridden(transcript: string, text: string, parse: string -> Option<map<string, Json>>)
    requires transcript != ""
    requires "success" !in Parsed(text, parse)
    ensures var r := Reply(Some(transcript), Ok(text), parse);
            r.body["success"] == JBool(true)
            && r.body.Keys == Parsed(text, parse).Keys + {"success"}
  {
  }

  /** A reply with no braces is spoken back as it came. */
  lemma PlainReplyIsSpoken(transcript: string, text: string, parse: string -> Option<map<string, Json>>)
    requires transcript != "" && '{' !in text
    ensures var r := Reply(Some(transcript), Ok(text), parse);
            r.status == 200 && r.body["response"] == JStr(text)
            && r.body["actions"] == JArr([JObj(map["type" := JStr("speak"), "message" := JStr(text)])])
  {
  }
}
