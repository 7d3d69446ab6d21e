/**
 * The student library (components/student/library-client.tsx): source
 * selection, the synthesis shortcuts, and the chat box. The chat route's
 * reply is an input.
 */
module Library {
  import opened Wrappers
  import opened Text
  import Selection

  datatype Tab = Missions | AiStudio | Other(name: string)

  /** The tab shown first: the `tab` query parameter when present and not empty, else the missions tab. */
  function InitialTab(tabParam: Option<string>): (t: Tab)
    ensures tabParam.None? || tabParam.value == "" ==> t == Missions
    ensures tabParam.Some? && tabParam.value == "ai_studio" ==> t == AiStudio
  {
    match tabParam
    case None => Missions
    case Some(p) =>
      if p == "" || p == "missions" then Missions
      else if p == "ai_studio" then AiStudio
      else Other(p)
  }

  datatype State = State(files: seq<string>, exams: seq<string>, messages: seq<Message>, input: string)

  datatype Role = User | Ai
  datatype Message = Message(role: Role, text: string)

  const Welcome: string := "Hello! I'm your AI Study Guide. Select any notes or exams from your library to add them to my context, then we can synthesize them into something new."

  function Initial(): (s: State)
    ensures s.files == [] && s.exams == [] && s.input == "" && |s.messages| == 1
  {
    State([], [], [Message(Ai, Welcome)], "")
  }

  function ToggleFile(s: State, id: string): (r: State)
    ensures r.files == Selection.Toggle(s.files, id) && r.exams == s.exams && r.messages == s.messages
  {
    s.(files := Selection.Toggle(s.files, id))
  }

  function ToggleExam(s: State, id: string): (r: State)
    ensures r.exams == Selection.Toggle(s.exams, id) && r.files == s.files && r.messages == s.messages
  {
    s.(exams := Selection.Toggle(s.exams, id))
  }

  /** The number of sources the input's placeholder reports. */
  function SourceCount(s: State): nat {
    |s.files| + |s.exams|
  }

  function Placeholder(s: State): (p: string)
    ensures SourceCount(s) == 0 ==> p == "Select sources from the sidebar to start deep work..."
    ensures SourceCount(s) > 0 ==> p == "Analyzing " + NatToString(SourceCount(s)) + " sources..."
  {
    if SourceCount(s) > 0 then "Analyzing " + NatToString(SourceCount(s)) + " sources..."
    else "Select sources from the sidebar to start deep work..."
  }

  /** Selecting a new file adds one to the placeholder's count. */
  lemma SelectingCountsOne(s: State, id: string)
    requires id !in s.files && Selection.NoDuplicates(s.files)
    ensures SourceCount(ToggleFile(s, id)) == SourceCount(s) + 1
  {
  }

  datatype Synthesis = Faq | Glossary | Guide

  function Prompt(kind: Synthesis): string {
    match kind
    case Faq => "Generate 5 high-impact FAQs with answers based on these sources."
    case Glossary => "Create a glossary of the 10 most important terms found across these materials."
    case Guide => "Synthesize these sources into a cohesive 1-page study guide."
  }

  /** What the chat route answered: a network failure, or a reply that may lack its text. */
  datatype ChatReply = NetworkError | Replied(reply: Option<string>)

  /** A request to the chat route. */
  datatype ChatRequest = ChatRequest(message: string, fileIds: seq<string>, examIds: seq<string>,
                                     synthesis: Option<Synthesis>)

  datatype Step = Step(state: State, alert: Option<string>, request: Option<ChatRequest>)

  const NoSource: string := "Please select at least one source for synthesis."
  const SynthesisFailed: string := "Synthesis failed. Check connection."

  /**
   * `handleSynthesis`: refused with an alert when nothing is selected;
   * otherwise the fixed prompt is posted with both selections, and a reply
   * with text is appended (a reply without text adds nothing).
   */
  function Synthesize(s: State, kind: Synthesis, reply: ChatReply): (t: Step)
    ensures |s.files| == 0 && |s.exams| == 0 ==> t == Step(s, Some(NoSource), None)
    ensures |s.files| > 0 || |s.exams| > 0 ==>
              t.alert.None? && t.request == Some(ChatRequest(Prompt(kind), s.files, s.exams, Some(kind)))
              && t.state == s.(messages := t.state.messages)
    ensures |s.files| > 0 || |s.exams| > 0 ==>
              var asked := s.messages + [Message(User, Prompt(kind))];
              (reply.NetworkError? ==> t.state.messages == asked + [Message(Ai, SynthesisFailed)])
              && (reply.Replied? && reply.reply.Some? && reply.reply.value != "" ==>
                    t.state.messages == asked + [Message(Ai, reply.reply.value)])
              && (reply.Replied? && (reply.reply.None? || reply.reply.value == "") ==>
                    t.state.messages == asked)
  {
    if |s.files| == 0 && |s.exams| == 0 then Step(s, Some(NoSource), None)
    else
      var asked := s.messages + [Message(User, Prompt(kind))];
      var answer: seq<Message> :=
        match reply
        case NetworkError => [Message(Ai, SynthesisFailed)]
        case Replied(r) => if r.Some? && r.value != "" then [Message(Ai, r.value)] else [];
      Step(s.(messages := asked + answer), None, Some(ChatRequest(Prompt(kind), s.files, s.exams, Some(kind))))
  }

  /**
   * `handleSend`: input with nothing but whitespace is not sent. Otherwise
   * the input is appended as typed, cleared, and the reply (or a fixed
   * error line) follows it.
   */
  function Send(s: State, reply: ChatReply): (t: Step)
    ensures Trim(s.input) == "" ==> t == Step(s, None, None)
    ensures Trim(s.input) != "" ==>
              t.request == Some(ChatRequest(s.input, s.files, s.exams, None)) && t.state.input == ""
              && t.state.messages == s.messages + [Message(User, s.input), Message(Ai, ReplyText(reply))]
  {
    if Trim(s.input) == "" then Step(s, None, None)
    else
      Step(s.(messages := s.messages + [Message(User, s.input), Message(Ai, ReplyText(reply))], input := ""),
           None, Some(ChatRequest(s.input, s.files, s.exams, None)))
  }

  /** The line the assistant adds after a sent message. */
  function ReplyText(reply: ChatReply): (t: string)
    ensures reply.NetworkError? ==> t == "Network error."
    ensures reply.Replied? && (reply.reply.None? || reply.reply.value == "") ==> t == "Error encountered."
    ensures reply.Replied? && reply.reply.Some? && reply.reply.value != "" ==> t == reply.reply.value
  {
    match reply
    case NetworkError => "Network error."
    case Replied(r) => OrText(r, "Error encountered.")
  }

  /** Whitespace-only input is never sent, whatever the selection. */
  lemma BlankNotSent(s: State, reply: ChatReply)
    requires IsBlank(s.input)
    ensures Send(s, reply).request.None? && Send(s, reply).state == s
  {
    TrimEmptyIffBlank(s.input);
  }
}
