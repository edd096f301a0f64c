/**
 * App.tsx: the chat screen. `handleSubmit` trims the input, ignores it when it is blank
 * or a request is in flight, refuses it past 1000 characters, and otherwise appends the
 * user's message, clears the input and starts the Gemini lookup; when the lookup settles
 * exactly one assistant message is appended and loading ends. The two halves, around the
 * `await`, are `Begin` and `Settle` on a `Session` value, and the `ChatApp` class holds
 * the component's state and runs them as methods. `Date.now()` readings are parameters.
 */
module ChatSession {
  import opened Base
  import opened JsString
  import opened Types
  import opened GeminiService

  const MaxQueryLength: nat := 1000
  /** `MAX_QUERY_LENGTH * 0.7`, which is exactly 700 in double arithmetic. */
  const CounterThreshold: nat := 700
  const Apology: string := "I apologize, but I encountered an error. Please try again."
  const DetailsPrefix: string := "Details for: "

  datatype ModelOption = ModelOption(id: string, name: string, desc: string)

  const Models: seq<ModelOption> := [
    ModelOption("gemini-2.5-flash-lite", "Gemini 2.5 Flash Lite", "Ultra-Low Latency"),
    ModelOption("gemini-3-flash-preview", "Gemini 3 Flash", "Speed Synthesis"),
    ModelOption("gemini-3-pro-preview", "Gemini 3 Pro", "Complex Reasoning")
  ]

  const EmptyStateSuggestions: seq<string> :=
    ["BGP neighbor configuration", "OSPF areas on IOS XR", "VLAN interface setup", "Show spanning-tree details"]

  /** The component state the submit logic uses. `isLoading` is `pending.Some?`, and
      `pending` holds the query the suspended handler is waiting on. */
  datatype Session = Session(messages: seq<ChatMessage>, input: string, pending: Option<string>, model: ModelOption)

  /** The first render. */
  function Initial(): Session {
    Session([], "", None, Models[0])
  }

  /** What a call of `handleSubmit` did: nothing, the too-long alert, or a lookup started
      with this request. */
  datatype Start = Ignored | TooLong | Started(request: GenerateRequest)

  /** The guard of `handleSubmit`, which is also what disables the submit button. */
  predicate SubmitDisabled(s: Session) {
    Trim(s.input) == "" || s.pending.Some?
  }

  /** `handleSubmit` up to the `await`: the new state and what it started. A blank input
      or a request in flight changes nothing, and neither does a trimmed query of more
      than 1000 characters; otherwise exactly one user message holding the trimmed input
      is appended, the input is cleared and loading starts. */
  function Begin(s: Session, idTime: nat, stampTime: nat): (r: (Session, Start))
    ensures r.1 == Ignored <==> SubmitDisabled(s)
    ensures r.1 == TooLong <==> !SubmitDisabled(s) && |Trim(s.input)| > MaxQueryLength
    ensures !r.1.Started? ==> r.0 == s
    ensures r.1.Started? ==>
              && |r.0.messages| == |s.messages| + 1
              && r.0.messages[..|s.messages|] == s.messages
              && r.0.messages[|s.messages|].role == User
              && r.0.messages[|s.messages|].content == Trim(s.input)
              && r.0.input == "" && r.0.pending == Some(Trim(s.input)) && r.0.model == s.model
  {
    var trimmed := Trim(s.input);
    if trimmed == "" || s.pending.Some? then (s, Ignored)
    else if |trimmed| > MaxQueryLength then (s, TooLong)
    else
      var userMsg := ChatMessage(NatToString(idTime), User, trimmed, stampTime, None);
      assert (s.messages + [userMsg])[..|s.messages|] == s.messages;
      (s.(messages := s.messages + [userMsg], input := "", pending := Some(trimmed)),
       Started(CommandRequest(trimmed, Some(s.model.id), DefaultModel)))
  }

  /** The assistant message for the settled lookup. */
  function Reply(query: string, result: Result<CiscoQueryResponse>, idTime: nat, stampTime: nat): ChatMessage {
    if result.Ok? then ChatMessage(NatToString(idTime + 1), Assistant, DetailsPrefix + query, stampTime, Some(result.value))
    else ChatMessage(NatToString(idTime + 1), Assistant, Apology, stampTime, None)
  }

  /** `handleSubmit` after the `await`: exactly one assistant message is appended,
      `Details for:` the query with the answer attached on success and the apology
      without one on failure, and `finally` ends loading; earlier messages stay. */
  function Settle(s: Session, result: Result<CiscoQueryResponse>, idTime: nat, stampTime: nat): (r: Session)
    requires s.pending.Some?
    ensures |r.messages| == |s.messages| + 1
    ensures r.messages[..|s.messages|] == s.messages
    ensures var m := r.messages[|s.messages|];
            && m.role == Assistant
            && (result.Ok? ==> m.content == DetailsPrefix + s.pending.value && m.metadata == Some(result.value))
            && (result.Err? ==> m.content == Apology && m.metadata.None?)
    ensures r.pending.None? && r.input == s.input && r.model == s.model
  {
    var reply := Reply(s.pending.value, result, idTime, stampTime);
    assert (s.messages + [reply])[..|s.messages|] == s.messages;
    s.(messages := s.messages + [reply], pending := None)
  }

  // ---------------------------------------------------------------------------------
  // The invariant of the log

  /** A query the guard lets through. */
  predicate ValidQuery(q: string) {
    q != "" && Trim(q) == q && |q| <= MaxQueryLength
  }

  /** An assistant message answering a user message. */
  predicate Answers(user: ChatMessage, answer: ChatMessage) {
    || (answer.content == DetailsPrefix + user.content && answer.metadata.Some?)
    || (answer.content == Apology && answer.metadata.None?)
  }

  /** User and assistant messages alternate, every user message holds an accepted query,
      and every assistant message answers the one before it; the log has even length
      exactly when nothing is in flight, and the query in flight is the last message. */
  predicate WellFormed(s: Session) {
    var ms := s.messages;
    && (forall k :: 0 <= k < |ms| ==> ms[k].role == if k % 2 == 0 then User else Assistant)
    && (forall k :: 0 <= k < |ms| && k % 2 == 0 ==> ValidQuery(ms[k].content) && ms[k].metadata.None?)
    && (forall k :: 0 < k < |ms| && k % 2 == 1 ==> Answers(ms[k - 1], ms[k]))
    && (s.pending.None? <==> |ms| % 2 == 0)
    && (s.pending.Some? ==> ms[|ms| - 1].content == s.pending.value)
  }

  lemma InitialWellFormed()
    ensures WellFormed(Initial())
    ensures Initial().messages == [] && !Initial().pending.Some?
  {
  }

  /** A whole submit, from an idle state, adds one question and its answer. */
  lemma SubmitCycle(s: Session, result: Result<CiscoQueryResponse>, t1: nat, t2: nat, t3: nat, t4: nat)
    requires WellFormed(s) && !SubmitDisabled(s) && |Trim(s.input)| <= MaxQueryLength
    ensures var s1 := Begin(s, t1, t2).0;
            s1.pending.Some? &&
            var s2 := Settle(s1, result, t3, t4);
            && |s2.messages| == |s.messages| + 2
            && s2.messages[..|s.messages|] == s.messages
            && s2.pending.None?
            && WellFormed(s2)
  {
    var s1 := Begin(s, t1, t2).0;
    BeginPreserves(s, t1, t2);
    SettlePreserves(s1, result, t3, t4);
    var s2 := Settle(s1, result, t3, t4);
    assert s2.messages[..|s.messages|] == s1.messages[..|s1.messages|][..|s.messages|];
  }

  /** Appending an accepted query to an idle, well-formed log keeps it well formed. */
  lemma AppendQuery(s: Session, m: ChatMessage, input: string)
    requires WellFormed(s) && s.pending.None?
    requires m.role == User && ValidQuery(m.content) && m.metadata.None?
    ensures WellFormed(Session(s.messages + [m], input, Some(m.content), s.model))
  {
    var ms := s.messages + [m];
    forall k | 0 <= k < |ms|
      ensures ms[k].role == if k % 2 == 0 then User else Assistant
      ensures k % 2 == 0 ==> ValidQuery(ms[k].content) && ms[k].metadata.None?
      ensures 0 < k && k % 2 == 1 ==> Answers(ms[k - 1], ms[k])
    {
      if k < |s.messages| {
        assert ms[k] == s.messages[k];
        if 0 < k {
          assert ms[k - 1] == s.messages[k - 1];
        }
      }
    }
  }

  /** Appending an answer to the query in flight keeps the log well formed. */
  lemma AppendAnswer(s: Session, m: ChatMessage)
    requires WellFormed(s) && s.pending.Some?
    requires m.role == Assistant && Answers(s.messages[|s.messages| - 1], m)
    ensures WellFormed(s.(messages := s.messages + [m], pending := None))
  {
    var ms := s.messages + [m];
    forall k | 0 <= k < |ms|
      ensures ms[k].role == if k % 2 == 0 then User else Assistant
      ensures k % 2 == 0 ==> ValidQuery(ms[k].content) && ms[k].metadata.None?
      ensures 0 < k && k % 2 == 1 ==> Answers(ms[k - 1], ms[k])
    {
      if k < |s.messages| {
        assert ms[k] == s.messages[k];
        if 0 < k {
          assert ms[k - 1] == s.messages[k - 1];
        }
      } else {
        assert ms[k - 1] == s.messages[|s.messages| - 1];
      }
    }
  }

  lemma BeginPreserves(s: Session, idTime: nat, stampTime: nat)
    requires WellFormed(s)
    ensures WellFormed(Begin(s, idTime, stampTime).0)
  {
    var trimmed := Trim(s.input);
    if trimmed != "" && s.pending.None? && |trimmed| <= MaxQueryLength {
      TrimIdempotent(s.input);
      AppendQuery(s, ChatMessage(NatToString(idTime), User, trimmed, stampTime, None), "");
    }
  }

  lemma SettlePreserves(s: Session, result: Result<CiscoQueryResponse>, idTime: nat, stampTime: nat)
    requires WellFormed(s) && s.pending.Some?
    ensures WellFormed(Settle(s, result, idTime, stampTime))
  {
    AppendAnswer(s, Reply(s.pending.value, result, idTime, stampTime));
  }

  /** Between the two halves the user may type or pick another model; the in-flight
      query is not affected. */
  lemma EditingPreserves(s: Session, input: string, model: ModelOption)
    requires WellFormed(s)
    ensures WellFormed(s.(input := input)) && WellFormed(s.(model := model))
  {
  }

  /** Whatever model is picked, the lookup goes to the client's default model, and the
      picked model's id is sent along as the image data. */
  lemma StartedRequest(s: Session, idTime: nat, stampTime: nat)
    requires s.model in Models && !SubmitDisabled(s) && |Trim(s.input)| <= MaxQueryLength
    ensures var r := Begin(s, idTime, stampTime).1.request;
            && r.model == "gemini-3-pro-preview"
            && r.parts == [TextPart(Trim(s.input)), ImagePart("image/jpeg", s.model.id)]
            && r.googleSearch
  {
    PickedModelRequest(Trim(s.input), s.model);
  }

  /** The lookup request built for query `q` with model `m` picked in the menu. */
  lemma PickedModelRequest(q: string, m: ModelOption)
    requires m in Models
    ensures var r := CommandRequest(q, Some(m.id), DefaultModel);
            && r.model == "gemini-3-pro-preview"
            && r.parts == [TextPart(q), ImagePart("image/jpeg", m.id)]
            && r.googleSearch
  {
    ModelIdsPlain();
    assert ImageData(m.id) == m.id;
    DefaultModelIsPro();
  }

  lemma DefaultModelIsPro()
    ensures exists i :: OccursAt(DefaultModel, "pro", i)
  {
    assert DefaultModel == "gemini-3-" + "pro" + "-preview";
    IncludesInfix("gemini-3-", "pro", "-preview");
  }

  /** Every model id is a non-empty string without a comma. */
  lemma ModelIdsPlain()
    ensures forall m :: m in Models ==> m.id != "" && ',' !in m.id
  {
    forall m | m in Models
      ensures m.id != "" && ',' !in m.id
    {
      assert m == Models[0] || m == Models[1] || m == Models[2];
      IdNoComma(m.id);
    }
  }

  /** A model id is written in letters, digits, `.` and `-`. */
  predicate IdChars(id: string) {
    forall i :: 0 <= i < |id| ==> id[i] == '.' || id[i] == '-' || 'a' <= id[i] <= 'z' || '0' <= id[i] <= '9'
  }

  lemma IdNoComma(id: string)
    requires id in {"gemini-2.5-flash-lite", "gemini-3-flash-preview", "gemini-3-pro-preview"}
    ensures id != "" && ',' !in id
  {
    assert IdChars(id);
  }

  // ---------------------------------------------------------------------------------
  // What the screen shows

  /** The welcome panel with its four suggestions is shown exactly for an empty log. */
  predicate ShowsEmptyState(s: Session) {
    |s.messages| == 0
  }

  /** The length counter appears past 70 % of the limit. */
  predicate ShowsCounter(input: string) {
    |input| > CounterThreshold
  }

  /** The counter turns red at the limit. */
  predicate CounterAtLimit(input: string) {
    |input| >= MaxQueryLength
  }

  /** The counter is visible from 701 characters and red from 1000; a red counter is
      always visible. */
  lemma CounterBands(input: string)
    ensures ShowsCounter(input) <==> |input| >= 701
    ensures CounterAtLimit(input) ==> ShowsCounter(input)
  {
  }

  /** The empty state disappears with the first accepted submit and does not come back. */
  lemma EmptyStateOnlyAtStart(s: Session, idTime: nat, stampTime: nat)
    ensures Begin(s, idTime, stampTime).1.Started? ==> !ShowsEmptyState(Begin(s, idTime, stampTime).0)
    ensures !ShowsEmptyState(s) ==> !ShowsEmptyState(Begin(s, idTime, stampTime).0)
  {
  }

  // ---------------------------------------------------------------------------------
  // The component

  /** The state of the `App` component that the submit logic touches. */
  class ChatApp {
    var messages: seq<ChatMessage>
    var inputValue: string
    var isLoading: bool
    var selectedModel: ModelOption
    /** The query captured by the handler that is suspended at its `await`. */
    var pending: Option<string>

    function State(): Session
      reads this
    {
      Session(messages, inputValue, pending, selectedModel)
    }

    predicate Valid()
      reads this
    {
      isLoading == pending.Some? && selectedModel in Models && WellFormed(State())
    }

    constructor()
      ensures Valid() && State() == Initial() && !isLoading
    {
      messages := [];
      inputValue := "";
      isLoading := false;
      selectedModel := Models[0];
      pending := None;
    }

    /** `disabled={!inputValue.trim() || isLoading}`. */
    function SubmitButtonDisabled(): (r: bool)
      reads this
      requires Valid()
      ensures r <==> SubmitDisabled(State())
    {
      Trim(inputValue) == "" || isLoading
    }

    /** `handleSubmit` up to the `await`. */
    method HandleSubmit(idTime: nat, stampTime: nat) returns (start: Start)
      requires Valid()
      modifies this
      ensures Valid()
      ensures (State(), start) == Begin(old(State()), idTime, stampTime)
    {
      var trimmedValue := Trim(inputValue);
      if trimmedValue == "" || isLoading {
        return Ignored;
      }
      if |trimmedValue| > MaxQueryLength {
        return TooLong;
      }
      var userQuery := trimmedValue;
      var userMsg := ChatMessage(NatToString(idTime), User, userQuery, stampTime, None);
      ghost var expected := Begin(State(), idTime, stampTime);
      BeginPreserves(State(), idTime, stampTime);
      messages := messages + [userMsg];
      inputValue := "";
      isLoading := true;
      pending := Some(userQuery);
      start := Started(CommandRequest(userQuery, Some(selectedModel.id), DefaultModel));
      assert State() == expected.0 && start == expected.1;
    }

    /** `handleSubmit` after the `await`, with the lookup's outcome. */
    method Resume(result: Result<CiscoQueryResponse>, idTime: nat, stampTime: nat)
      requires Valid() && isLoading
      modifies this
      ensures Valid() && !isLoading
      ensures State() == Settle(old(State()), result, idTime, stampTime)
    {
      var userQuery := pending.value;
      SettlePreserves(State(), result, idTime, stampTime);
      if result.Ok? {
        var assistantMsg := ChatMessage(NatToString(idTime + 1), Assistant, DetailsPrefix + userQuery,
                                        stampTime, Some(result.value));
        messages := messages + [assistantMsg];
      } else {
        var errorMsg := ChatMessage(NatToString(idTime + 1), Assistant, Apology, stampTime, None);
        messages := messages + [errorMsg];
      }
      isLoading := false;
      pending := None;
    }

    /** `onChange` of the input, or a click on a suggestion. */
    method SetInput(value: string)
      requires Valid()
      modifies this
      ensures Valid()
      ensures State() == old(State()).(input := value)
    {
      EditingPreserves(State(), value, selectedModel);
      inputValue := value;
    }

    /** A pick in the model menu, which lists only the three offered models. */
    method SelectModel(model: ModelOption)
      requires Valid() && model in Models
      modifies this
      ensures Valid()
      ensures State() == old(State()).(model := model)
    {
      EditingPreserves(State(), inputValue, model);
      selectedModel := model;
    }
  }
}
