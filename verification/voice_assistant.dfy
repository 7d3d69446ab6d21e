/**
 * The voice-assistant provider
 * (components/voice-assistant/voice-assistant-provider.tsx): the registry
 * of form-field setters, the lookup of a field named by the assistant, the
 * bounded conversation history, and what one processed command changes.
 * Speech recognition and synthesis, navigation and the route's reply are
 * inputs or returned intents; a setter is named by an opaque id.
 */
module VoiceAssistant {
  import opened Wrappers
  import opened Text

  /** An opaque name for a registered setter function. */
  type Setter = string

  datatype Entry = Entry(name: string, setter: Setter)

  /** The setter map, as entries in insertion order (a JS `Map` iterates that way). */
  type Registry = seq<Entry>

  predicate UniqueNames(reg: Registry) {
    forall i, j :: 0 <= i < j < |reg| ==> reg[i].name != reg[j].name
  }

  /** `map.get(name)`. */
  function Get(reg: Registry, name: string): (r: Option<Setter>)
    ensures r.Some? <==> exists k :: 0 <= k < |reg| && reg[k].name == name
    ensures r.Some? ==> Entry(name, r.value) in reg
  {
    if |reg| == 0 then None
    else if reg[0].name == name then Some(reg[0].setter)
    else Get(reg[1..], name)
  }

  /**
   * `registerFormSetter`: `map.set(name, setter)`. A name already present
   * keeps its place and gets the new setter; a new name goes last.
   */
  function Register(reg: Registry, name: string, setter: Setter): (r: Registry)
    ensures |r| == if Get(reg, name).Some? then |reg| else |reg| + 1
    ensures forall k :: 0 <= k < |reg| ==> r[k].name == reg[k].name
  {
    if |reg| == 0 then [Entry(name, setter)]
    else if reg[0].name == name then [Entry(name, setter)] + reg[1..]
    else [reg[0]] + Register(reg[1..], name, setter)
  }

  /** `unregisterFormSetter`: `map.delete(name)`. */
  function Unregister(reg: Registry, name: string): (r: Registry)
    ensures |r| <= |reg|
    ensures forall k :: 0 <= k < |r| ==> r[k] in reg && r[k].name != name
  {
    if |reg| == 0 then []
    else (if reg[0].name == name then [] else [reg[0]]) + Unregister(reg[1..], name)
  }

  /** After registering, the name looks up to the new setter; every other name is as before. */
  lemma {:induction false} RegisterOverwrites(reg: Registry, name: string, setter: Setter, other: string)
    ensures Get(Register(reg, name, setter), name) == Some(setter)
    ensures other != name ==> Get(Register(reg, name, setter), other) == Get(reg, other)
    decreases |reg|
  {
    if |reg| > 0 && reg[0].name != name {
      RegisterOverwrites(reg[1..], name, setter, other);
    }
  }

  /** After unregistering, the name is gone; every other name is as before. */
  lemma {:induction false} UnregisterRemoves(reg: Registry, name: string, other: string)
    ensures Get(Unregister(reg, name), name).None?
    ensures other != name ==> Get(Unregister(reg, name), other) == Get(reg, other)
    decreases |reg|
  {
    if |reg| > 0 {
      UnregisterRemoves(reg[1..], name, other);
      var rest := Unregister(reg[1..], name);
      if reg[0].name == name {
        assert Unregister(reg, name) == rest;
      } else {
        var u := [reg[0]] + rest;
        assert Unregister(reg, name) == u;
        assert u[1..] == rest;
        assert Get(u, name) == Get(rest, name);
      }
    }
  }

  /** The registry never holds one name twice. */
  lemma {:induction false} RegisterKeepsUnique(reg: Registry, name: string, setter: Setter)
    requires UniqueNames(reg)
    ensures UniqueNames(Register(reg, name, setter))
    decreases |reg|
  {
    if |reg| > 0 {
      assert UniqueNames(reg[1..]) by {
        forall i, j | 0 <= i < j < |reg| - 1 ensures reg[1..][i].name != reg[1..][j].name {
          assert reg[i + 1].name != reg[j + 1].name;
        }
      }
      if reg[0].name != name {
        RegisterKeepsUnique(reg[1..], name, setter);
        var rest := Register(reg[1..], name, setter);
        var r := [reg[0]] + rest;
        assert reg[0].name != name;
        forall k | 0 <= k < |rest| ensures rest[k].name != reg[0].name {
          if k < |reg| - 1 {
            assert rest[k].name == reg[k + 1].name;
          } else {
            RegisterNewLast(reg[1..], name, setter, k);
          }
        }
        forall i, j | 0 <= i < j < |r| ensures r[i].name != r[j].name {
          if i == 0 { assert r[j] == rest[j - 1]; } else { assert r[i] == rest[i - 1] && r[j] == rest[j - 1]; }
        }
      } else {
        var r := [Entry(name, setter)] + reg[1..];
        forall i, j | 0 <= i < j < |r| ensures r[i].name != r[j].name {
          assert r[i].name == reg[i].name && r[j].name == reg[j].name;
        }
      }
    }
  }

  /** An entry past the old ones is the one just registered. */
  lemma {:induction false} RegisterNewLast(reg: Registry, name: string, setter: Setter, k: nat)
    requires k < |Register(reg, name, setter)| && k >= |reg|
    ensures Register(reg, name, setter)[k].name == name
    decreases |reg|
  {
    if |reg| > 0 {
      RegisterNewLast(reg[1..], name, setter, k - 1);
    }
  }

  /**
   * The field lookup of a `fill_fields` action: the exact name first;
   * failing that, the first registered name equal to it ignoring case.
   */
  function Lookup(reg: Registry, field: string): (r: Option<Setter>)
    ensures Get(reg, field).Some? ==> r == Get(reg, field)
    ensures Get(reg, field).None? ==>
              (r.None? <==> forall k :: 0 <= k < |reg| ==> !EqualsIgnoreCase(reg[k].name, field))
    ensures Get(reg, field).None? && r.Some? ==>
              exists k :: 0 <= k < |reg| && EqualsIgnoreCase(reg[k].name, field) && reg[k].setter == r.value
                          && forall j :: 0 <= j < k ==> !EqualsIgnoreCase(reg[j].name, field)
  {
    if Get(reg, field).Some? then Get(reg, field) else FirstIgnoringCase(reg, field)
  }

  function FirstIgnoringCase(reg: Registry, field: string): (r: Option<Setter>)
    ensures r.None? <==> forall k :: 0 <= k < |reg| ==> !EqualsIgnoreCase(reg[k].name, field)
    ensures r.Some? ==> exists k :: 0 <= k < |reg| && EqualsIgnoreCase(reg[k].name, field) && reg[k].setter == r.value
                                     && forall j :: 0 <= j < k ==> !EqualsIgnoreCase(reg[j].name, field)
  {
    if |reg| == 0 then None
    else if EqualsIgnoreCase(reg[0].name, field) then Some(reg[0].setter)
    else
      var r := FirstIgnoringCase(reg[1..], field);
      if r.Some? then
        var k :| 0 <= k < |reg[1..]| && EqualsIgnoreCase(reg[1..][k].name, field) && reg[1..][k].setter == r.value
                  && forall j :: 0 <= j < k ==> !EqualsIgnoreCase(reg[1..][j].name, field);
        assert forall j :: 0 <= j < k + 1 ==> !EqualsIgnoreCase(reg[j].name, field) by {
          forall j | 0 <= j < k + 1 ensures !EqualsIgnoreCase(reg[j].name, field) {
            if j > 0 { assert reg[j] == reg[1..][j - 1]; }
          }
        }
        assert reg[k + 1] == reg[1..][k];
        r
      else r
  }

  /** A field finds no setter exactly when no registered name matches it, even ignoring case. */
  lemma UnmatchedIgnored(reg: Registry, field: string)
    ensures Lookup(reg, field).None? <==> forall k :: 0 <= k < |reg| ==> !EqualsIgnoreCase(reg[k].name, field)
  {
    if Get(reg, field).Some? {
      var k :| 0 <= k < |reg| && reg[k].name == field;
      assert EqualsIgnoreCase(reg[k].name, field);
    }
  }

  // ---------------------------------------------------------------------
  // history
  // ---------------------------------------------------------------------

  const HistoryLimit: nat := 1000
  const SentLimit: nat := 500

  /** The history after an answered command: the exchange appended, then cut to the last 1000 characters. */
  function Extend(history: string, transcript: string, response: JsText): (h: string)
    ensures |h| <= HistoryLimit
    ensures var n := |history + "\nUser: " + transcript + "\nAssistant: " + Interpolate(response)|;
            |h| == if n <= HistoryLimit then n else HistoryLimit
    ensures EndsWith(history + "\nUser: " + transcript + "\nAssistant: " + Interpolate(response), h)
    ensures |history + "\nUser: " + transcript + "\nAssistant: " + Interpolate(response)| <= HistoryLimit ==>
              h == history + "\nUser: " + transcript + "\nAssistant: " + Interpolate(response)
  {
    KeepLast(history + "\nUser: " + transcript + "\nAssistant: " + Interpolate(response), HistoryLimit)
  }

  /** The newest exchange survives the cut whenever it fits in the limit by itself. */
  lemma NewestExchangeKept(history: string, transcript: string, response: JsText)
    requires |"\nUser: " + transcript + "\nAssistant: " + Interpolate(response)| <= HistoryLimit
    ensures EndsWith(Extend(history, transcript, response), "\nUser: " + transcript + "\nAssistant: " + Interpolate(response))
  {
    var ex := "\nUser: " + transcript + "\nAssistant: " + Interpolate(response);
    var full := history + "\nUser: " + transcript + "\nAssistant: " + Interpolate(response);
    Exchange(history, transcript, Interpolate(response));
    ConcatEnds(history, ex);
    SuffixOfSuffix(full, Extend(history, transcript, response), ex);
  }

  lemma Exchange(history: string, transcript: string, response: string)
    ensures history + "\nUser: " + transcript + "\nAssistant: " + response
            == history + ("\nUser: " + transcript + "\nAssistant: " + response)
  {
  }

  // ---------------------------------------------------------------------
  // processing a command
  // ---------------------------------------------------------------------

  /** One value the assistant asked to be filled in, by field name. */
  datatype Field = Field(name: string, value: string)

  datatype Action =
    | Navigate(path: Option<string>)
    | FillFields(fields: Option<seq<Field>>)
    | Speak
    | AskFollowup
    | Unknown(kind: string)

  /** The assistant route's answer, or a failure before any answer was read. */
  datatype Reply =
    | Thrown(message: string)
    | Answered(success: bool, error: Option<string>, response: JsText, actions: Option<seq<Action>>)

  datatype Request = Request(transcript: string, currentPath: string, formContext: Option<string>, history: string)

  /** A setter called with a value. */
  datatype Call = Call(setter: Setter, value: string)

  datatype State = State(history: string, lastResponse: Option<string>, error: Option<string>)

  datatype Outcome = Outcome(state: State, navigations: seq<string>, calls: seq<Call>)

  const Apology: string := "Sorry, I encountered an error. Please try again."
  const DefaultError: string := "Failed to process command"

  /** What `processCommand` sends: the history cut to its last 500 characters. */
  function RequestFor(s: State, transcript: string, path: string, formContext: Option<string>): (q: Request)
    ensures |q.history| <= SentLimit && EndsWith(s.history, q.history)
    ensures q.transcript == transcript && q.currentPath == path && q.formContext == formContext
  {
    Request(transcript, path, formContext, KeepLast(s.history, SentLimit))
  }

  /** The setter calls of a `fill_fields` action, in field order; unmatched fields call nothing. */
  function Fill(reg: Registry, fields: seq<Field>): (calls: seq<Call>)
    ensures |calls| <= |fields|
  {
    if |fields| == 0 then []
    else
      var here := match Lookup(reg, fields[0].name)
                  case None => []
                  case Some(s) => [Call(s, fields[0].value)];
      here + Fill(reg, fields[1..])
  }

  /** When every field has a setter, each field is filled once, in order, with its own value. */
  lemma {:induction false} FillAllMatched(reg: Registry, fields: seq<Field>)
    requires forall k :: 0 <= k < |fields| ==> Lookup(reg, fields[k].name).Some?
    ensures |Fill(reg, fields)| == |fields|
    ensures forall k :: 0 <= k < |fields| ==> Fill(reg, fields)[k] == Call(Lookup(reg, fields[k].name).value, fields[k].value)
    decreases |fields|
  {
    if |fields| > 0 {
      FillAllMatched(reg, fields[1..]);
      var here := Call(Lookup(reg, fields[0].name).value, fields[0].value);
      assert Fill(reg, fields) == [here] + Fill(reg, fields[1..]);
      forall k | 0 <= k < |fields| ensures Fill(reg, fields)[k] == Call(Lookup(reg, fields[k].name).value, fields[k].value) {
        if k > 0 { assert fields[k] == fields[1..][k - 1]; }
      }
    }
  }

  /** Every call made by `Fill` is the lookup of some field, with that field's value. */
  lemma {:induction false} FillShape(reg: Registry, fields: seq<Field>)
    ensures forall c :: c in Fill(reg, fields) ==>
              exists j :: 0 <= j < |fields| && Lookup(reg, fields[j].name) == Some(c.setter) && fields[j].value == c.value
    decreases |fields|
  {
    if |fields| > 0 {
      FillShape(reg, fields[1..]);
      forall c | c in Fill(reg, fields)
        ensures exists j :: 0 <= j < |fields| && Lookup(reg, fields[j].name) == Some(c.setter) && fields[j].value == c.value
      {
        if c !in Fill(reg, fields[1..]) {
        } else {
          var j :| 0 <= j < |fields[1..]| && Lookup(reg, fields[1..][j].name) == Some(c.setter) && fields[1..][j].value == c.value;
          assert fields[j + 1] == fields[1..][j];
        }
      }
    }
  }

  /** A `navigate` action with a path that is not empty: the router is pushed to it. */
  predicate Navigates(a: Action) {
    a.Navigate? && a.path.Some? && a.path.value != ""
  }

  /** A `fill_fields` action that carries its fields. */
  predicate Fills(a: Action) {
    a.FillFields? && a.fields.Some?
  }

  /** The paths pushed: the non-empty path of each `navigate` action, and nothing else. */
  function Navigations(actions: seq<Action>): (r: seq<string>)
    ensures |r| <= |actions|
    ensures forall k :: 0 <= k < |r| ==> r[k] != "" && Navigate(Some(r[k])) in actions
    ensures forall j :: 0 <= j < |actions| && Navigates(actions[j]) ==> actions[j].path.value in r
  {
    if |actions| == 0 then []
    else (if Navigates(actions[0]) then [actions[0].path.value] else []) + Navigations(actions[1..])
  }

  /** The setter calls: each call comes from the `Fill` of some `fill_fields` action. */
  function Calls(reg: Registry, actions: seq<Action>): (r: seq<Call>)
    ensures forall c :: c in r ==> exists j :: 0 <= j < |actions| && Fills(actions[j]) && c in Fill(reg, actions[j].fields.value)
  {
    if |actions| == 0 then []
    else
      var here := if Fills(actions[0]) then Fill(reg, actions[0].fields.value) else [];
      var rest := Calls(reg, actions[1..]);
      assert forall c :: c in rest ==> exists j :: 0 <= j < |actions| && Fills(actions[j]) && c in Fill(reg, actions[j].fields.value) by {
        forall c | c in rest
          ensures exists j :: 0 <= j < |actions| && Fills(actions[j]) && c in Fill(reg, actions[j].fields.value)
        {
          var j :| 0 <= j < |actions[1..]| && Fills(actions[1..][j]) && c in Fill(reg, actions[1..][j].fields.value);
          assert actions[j + 1] == actions[1..][j];
        }
      }
      here + rest
  }

  /** The paths of two runs of actions are those of the first, then those of the second. */
  lemma {:induction false} NavigationsInOrder(a: seq<Action>, b: seq<Action>)
    ensures Navigations(a + b) == Navigations(a) + Navigations(b)
    decreases |a|
  {
    if |a| == 0 {
      assert a + b == b;
    } else {
      assert (a + b)[1..] == a[1..] + b;
      NavigationsInOrder(a[1..], b);
    }
  }

  /** The setter calls of two runs of actions are those of the first, then those of the second. */
  lemma {:induction false} CallsInOrder(reg: Registry, a: seq<Action>, b: seq<Action>)
    ensures Calls(reg, a + b) == Calls(reg, a) + Calls(reg, b)
    decreases |a|
  {
    if |a| == 0 {
      assert a + b == b;
    } else {
      assert (a + b)[1..] == a[1..] + b;
      CallsInOrder(reg, a[1..], b);
    }
  }

  /**
   * One action on its own: a `navigate` with a path pushes it, a
   * `fill_fields` makes the calls of its `Fill`, and any other action does
   * neither.
   */
  lemma OneAction(reg: Registry, x: Action)
    ensures Navigations([x]) == if Navigates(x) then [x.path.value] else []
    ensures Calls(reg, [x]) == if Fills(x) then Fill(reg, x.fields.value) else []
  {
    assert [x][1..] == [];
  }

  /**
   * `processCommand`: a thrown request or an unsuccessful reply sets the
   * error (the reply's own, else the default) and the fixed apology, and
   * leaves the history alone. A successful reply extends the history,
   * carries out its navigate and fill actions, and becomes the last
   * response when it has text.
   */
  function Process(s: State, reg: Registry, transcript: string, reply: Reply): (o: Outcome)
    ensures reply.Thrown? ==> o == Outcome(State(s.history, Some(Apology), Some(reply.message)), [], [])
    ensures reply.Answered? && !reply.success ==>
              o == Outcome(State(s.history, Some(Apology), Some(OrText(reply.error, DefaultError))), [], [])
    ensures reply.Answered? && reply.success ==>
              o.state.history == Extend(s.history, transcript, reply.response) && o.state.error.None?
              && o.state.lastResponse == (if reply.response.JsString? && reply.response.text != "" then Some(reply.response.text) else s.lastResponse)
    ensures reply.Answered? && reply.success ==>
              var acts := if reply.actions.Some? then reply.actions.value else [];
              o.navigations == Navigations(acts) && o.calls == Calls(reg, acts)
  {
    match reply
    case Thrown(m) => Outcome(State(s.history, Some(Apology), Some(m)), [], [])
    case Answered(ok, err, response, actions) =>
      if !ok then Outcome(State(s.history, Some(Apology), Some(OrText(err, DefaultError))), [], [])
      else
        var acts := if actions.Some? then actions.value else [];
        Outcome(State(Extend(s.history, transcript, response),
                      if response.JsString? && response.text != "" then Some(response.text) else s.lastResponse, None),
                Navigations(acts), Calls(reg, acts))
  }

  /** A failed command changes nothing but the message shown: no navigation, no field filled, same history. */
  lemma FailureTouchesNothing(s: State, reg: Registry, transcript: string, reply: Reply)
    requires reply.Thrown? || !reply.success
    ensures var o := Process(s, reg, transcript, reply);
            o.navigations == [] && o.calls == [] && o.state.history == s.history && o.state.lastResponse == Some(Apology)
  {
  }

  /** However long the conversation, the history kept stays within 1000 characters and what is sent within 500. */
  lemma {:induction false} HistoryStaysBounded(s: State, reg: Registry, transcript: string, reply: Reply,
                                               path: string, form: Option<string>)
    requires |s.history| <= HistoryLimit
    ensures |Process(s, reg, transcript, reply).state.history| <= HistoryLimit
    ensures |RequestFor(Process(s, reg, transcript, reply).state, transcript, path, form).history| <= SentLimit
  {
  }
}
