/**
 * Voice dictation into text fields: the result aggregation and toggle of
 * the microphone button (components/ui/voice-input.tsx), the
 * `useVoiceInput` hook, and the append rule of the voice-enabled text
 * fields (components/ui/voice-textarea.tsx, components/ui/textarea.tsx).
 * The speech recogniser's events are inputs.
 */
module VoiceInput {
  import opened Wrappers
  import opened Text

  /** One recognition result: its best transcript and whether it is final. */
  datatype Result = Result(transcript: string, isFinal: bool)

  /** The final transcripts of `results[from..]`, concatenated in order. */
  function Finals(results: seq<Result>, from: nat): string
    decreases |results| - from
  {
    if from >= |results| then ""
    else (if results[from].isFinal then results[from].transcript else "") + Finals(results, from + 1)
  }

  /** The interim transcripts of `results[from..]`, concatenated in order. */
  function Interims(results: seq<Result>, from: nat): string
    decreases |results| - from
  {
    if from >= |results| then ""
    else (if results[from].isFinal then "" else results[from].transcript) + Interims(results, from + 1)
  }

  /**
   * The `onresult` loop: from `resultIndex` to the end, finals and interims
   * are accumulated separately.
   */
  method Aggregate(results: seq<Result>, resultIndex: nat) returns (finals: string, interims: string)
    ensures finals == Finals(results, resultIndex)
    ensures interims == Interims(results, resultIndex)
  {
    finals, interims := "", "";
    if resultIndex >= |results| {
      return;
    }
    var i := resultIndex;
    while i < |results|
      invariant resultIndex <= i <= |results|
      invariant finals + Finals(results, i) == Finals(results, resultIndex)
      invariant interims + Interims(results, i) == Interims(results, resultIndex)
    {
      if results[i].isFinal {
        finals := finals + results[i].transcript;
      } else {
        interims := interims + results[i].transcript;
      }
      i := i + 1;
    }
  }

  /** A transcript handed to the field: its text and whether it is final. */
  datatype Transcript = Transcript(text: string, isFinal: bool)

  /** What one `onresult` event hands on: the finals when there are any, else the interims, else nothing. */
  function Emitted(results: seq<Result>, resultIndex: nat): (t: Option<Transcript>)
    ensures Finals(results, resultIndex) != "" ==> t == Some(Transcript(Finals(results, resultIndex), true))
    ensures t.Some? && !t.value.isFinal ==> Finals(results, resultIndex) == "" && t.value.text == Interims(results, resultIndex)
    ensures t.None? <==> Finals(results, resultIndex) == "" && Interims(results, resultIndex) == ""
  {
    var f := Finals(results, resultIndex);
    var i := Interims(results, resultIndex);
    if f != "" then Some(Transcript(f, true))
    else if i != "" then Some(Transcript(i, false))
    else None
  }

  /** Results before `resultIndex` are never read again. */
  lemma {:induction false} EarlierResultsIgnored(older: seq<Result>, results: seq<Result>, from: nat)
    ensures Finals(older + results, |older| + from) == Finals(results, from)
    ensures Interims(older + results, |older| + from) == Interims(results, from)
    decreases |results| - from
  {
    if from < |results| {
      assert (older + results)[|older| + from] == results[from];
      EarlierResultsIgnored(older, results, from + 1);
    }
  }

  /** With no final result in the range, what is handed on is the interims, marked not final. */
  lemma {:induction false} NoFinalsGiveInterims(results: seq<Result>, from: nat)
    requires forall k :: from <= k < |results| ==> !results[k].isFinal
    ensures Finals(results, from) == ""
    ensures Interims(results, from) != "" ==> Emitted(results, from) == Some(Transcript(Interims(results, from), false))
    decreases |results| - from
  {
    if from < |results| {
      NoFinalsGiveInterims(results, from + 1);
    }
  }

  // ---------------------------------------------------------------------
  // the microphone button
  // ---------------------------------------------------------------------

  /** The button's state: whether a recogniser exists, is supported, and is listening. */
  datatype Button = Button(hasRecognizer: bool, supported: bool, listening: bool)

  /** Browser support as found on mount. */
  function Mount(recognizerAvailable: bool): (b: Button)
    ensures b.supported == recognizerAvailable && b.hasRecognizer == recognizerAvailable && !b.listening
  {
    Button(recognizerAvailable, recognizerAvailable, false)
  }

  /** `onerror`: listening stops; a refused microphone hides the button for good. */
  function OnError(b: Button, error: string): (r: Button)
    ensures !r.listening
    ensures r.supported <==> b.supported && error != "not-allowed"
  {
    Button(b.hasRecognizer, b.supported && error != "not-allowed", false)
  }

  function OnEnd(b: Button): (r: Button)
    ensures !r.listening && r.supported == b.supported
  {
    b.(listening := false)
  }

  /** `toggleListening`: stop when listening; otherwise start, unless starting throws. */
  function Toggle(b: Button, startThrows: bool): (r: Button)
    ensures !b.hasRecognizer ==> r == b
    ensures b.hasRecognizer && b.listening ==> !r.listening
    ensures b.hasRecognizer && !b.listening ==> (r.listening <==> !startThrows)
    ensures r.supported == b.supported && r.hasRecognizer == b.hasRecognizer
  {
    if !b.hasRecognizer then b
    else if b.listening then b.(listening := false)
    else if startThrows then b
    else b.(listening := true)
  }

  /** Two presses that both succeed bring the button back to where it was. */
  lemma ToggleTwice(b: Button)
    requires b.hasRecognizer
    ensures Toggle(Toggle(b, false), false) == b
  {
  }

  // ---------------------------------------------------------------------
  // the `useVoiceInput` hook
  // ---------------------------------------------------------------------

  /** `handleTranscript`: a final transcript is appended after a space; an interim one changes nothing. */
  function HookHandle(transcript: string, t: Transcript): (r: string)
    ensures t.isFinal ==> r == transcript + " " + t.text
    ensures !t.isFinal ==> r == transcript
  {
    if t.isFinal then transcript + " " + t.text else transcript
  }

  /** The hook's transcript after a run of transcripts, starting from cleared. */
  function HookRun(transcript: string, ts: seq<Transcript>): string
    decreases |ts|
  {
    if |ts| == 0 then transcript else HookRun(HookHandle(transcript, ts[0]), ts[1..])
  }

  /** `clearTranscript`. */
  const Cleared: string := ""

  function FinalTexts(ts: seq<Transcript>): seq<string> {
    if |ts| == 0 then [] else (if ts[0].isFinal then [ts[0].text] else []) + FinalTexts(ts[1..])
  }

  /** `" " + text` for each text, in order. */
  function Spaced(texts: seq<string>): string {
    if |texts| == 0 then "" else " " + texts[0] + Spaced(texts[1..])
  }

  lemma {:induction false} SpacedAppend(a: seq<string>, b: seq<string>)
    ensures Spaced(a + b) == Spaced(a) + Spaced(b)
    decreases |a|
  {
    if |a| == 0 {
      assert a + b == b;
    } else {
      assert (a + b)[1..] == a[1..] + b;
      SpacedAppend(a[1..], b);
    }
  }

  /** After clearing, the transcript is each final text in turn, each after a space; interims leave no trace. */
  lemma {:induction false} HookKeepsOnlyFinals(transcript: string, ts: seq<Transcript>)
    ensures HookRun(transcript, ts) == transcript + Spaced(FinalTexts(ts))
    decreases |ts|
  {
    if |ts| > 0 {
      HookKeepsOnlyFinals(HookHandle(transcript, ts[0]), ts[1..]);
      var here := if ts[0].isFinal then [ts[0].text] else [];
      SpacedAppend(here, FinalTexts(ts[1..]));
      assert FinalTexts(ts) == here + FinalTexts(ts[1..]);
      if ts[0].isFinal {
        assert Spaced(here) == " " + ts[0].text + Spaced([]);
      } else {
        assert Spaced(here) == "";
      }
    }
  }

  // ---------------------------------------------------------------------
  // the voice-enabled fields
  // ---------------------------------------------------------------------

  /** The new value of a field after a final transcript: appended after a space when the field has text, then trimmed. */
  function Append(value: string, text: string): (r: string)
    ensures |r| <= |value| + 1 + |text|
    ensures |r| > 0 ==> !IsSpace(r[0]) && !IsSpace(r[|r| - 1])
  {
    Trim(if value != "" then value + " " + text else text)
  }

  /** Dictating into trimmed text adds the trimmed words after exactly one space. */
  lemma AppendJoinsWithOneSpace(value: string, text: string)
    requires value != "" && text != ""
    requires Trim(value) == value && Trim(text) == text
    ensures Append(value, text) == value + " " + text
  {
    TrimOfTrimmed(value + " " + text);
  }

  /** Dictating into an empty field gives the trimmed text. */
  lemma AppendToEmpty(text: string)
    ensures Append("", text) == Trim(text)
  {
  }

  /** A field's value and its interim preview. */
  datatype Field = Field(value: string, interim: string)

  /** The change a field reports to its owner, if any, and the new preview. */
  datatype Effect = Effect(change: Option<string>, interim: string)

  /** `VoiceTextarea`: a final transcript reports the appended value and clears the preview; an interim one only shows as the preview. */
  function TextareaTranscript(f: Field, t: Transcript): (e: Effect)
    ensures t.isFinal ==> e == Effect(Some(Append(f.value, t.text)), "")
    ensures !t.isFinal ==> e == Effect(None, t.text)
  {
    if t.isFinal then Effect(Some(Append(f.value, t.text)), "") else Effect(None, t.text)
  }

  /** `VoiceInputField`: the same append rule for finals; interims are dropped and there is no preview. */
  function InputFieldTranscript(value: string, t: Transcript): (change: Option<string>)
    ensures t.isFinal <==> change.Some?
    ensures t.isFinal ==> change == Some(Append(value, t.text))
  {
    if t.isFinal then Some(Append(value, t.text)) else None
  }

  /**
   * The plain `Textarea` with voice enabled: nothing at all without an
   * `onChange` handler; otherwise the same rule, a missing value counting as
   * empty.
   */
  function PlainTranscript(value: Option<string>, interim: string, hasOnChange: bool, t: Transcript): (e: Effect)
    ensures !hasOnChange ==> e == Effect(None, interim)
    ensures hasOnChange && t.isFinal ==> e == Effect(Some(Append(OrText(value, ""), t.text)), "")
    ensures hasOnChange && !t.isFinal ==> e == Effect(None, t.text)
  {
    if !hasOnChange then Effect(None, interim)
    else if t.isFinal then Effect(Some(Append(OrText(value, ""), t.text)), "")
    else Effect(None, t.text)
  }

  /** The three fields agree on what a final transcript does to a value. */
  lemma FieldsAgree(value: string, interim: string, t: Transcript)
    requires t.isFinal
    ensures TextareaTranscript(Field(value, interim), t).change == InputFieldTranscript(value, t)
    ensures PlainTranscript(Some(value), interim, true, t) == TextareaTranscript(Field(value, interim), t)
  {
  }
}
