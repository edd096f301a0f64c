/**
 * The request handling shared by the two Azure proxies, api/azure-openai.ts (a
 * serverless function) and server.js (an Express route): the order of the validation
 * checks and the status each one answers with, the text-to-speech branch and its SSML
 * document, the suggestions branch with its parse fallback, and the command branch with
 * its search prefix and parse fallback. The two copies differ only in whether the voice
 * name is escaped, which is a parameter here. The Speech service, the chat completion
 * client and `JSON.parse` are oracles.
 */
module Proxy {
  import opened Base
  import opened JsString
  import opened Json
  import opened XmlEscape

  /** The environment variables the handler reads. */
  datatype Env = Env(
    endpoint: Option<string>,
    apiKey: Option<string>,
    deployment: Option<string>,
    speechKey: Option<string>,
    speechRegion: Option<string>,
    speechVoice: Option<string>)

  /** The Speech REST call: where it goes, its credentials and the SSML body. */
  datatype SpeechCall = SpeechCall(url: string, key: string, region: string, ssml: string)

  /** The Speech reply: its status, what `text()` yields (`None` if it fails) and what
      the base64 encoding of `arrayBuffer()` yields (its error if reading fails). */
  datatype SpeechReply = SpeechReply(status: nat, errorText: Option<string>, audioBase64: Result<string>)

  /** A chat completion request: deployment, system prompt, user content and token limit
      (the temperature is 0.2 in every call). */
  datatype ChatCall = ChatCall(model: Json, system: string, user: Json, maxTokens: nat)

  /** `completion.choices?.[0]?.message?.content`. */
  datatype ChatReply = ChatReply(content: Option<string>)

  /** The outside services, as the handler sees them; an `Err` is a rejected promise. */
  datatype World = World(
    speak: SpeechCall -> Result<SpeechReply>,
    complete: ChatCall -> Result<ChatReply>,
    parse: string -> Option<Json>)

  /** The call the handler made to an outside service, if any. */
  datatype Outbound = NoCall | SpeechOut(speech: SpeechCall) | ChatOut(chat: ChatCall)

  /** A status and a JSON body (`None` for `res.end()`). */
  datatype Response = Response(status: nat, body: Option<Json>)

  datatype Outcome = Outcome(response: Response, call: Outbound)

  const DefaultDeployment: string := "gpt-4o-mini"
  const DefaultVoice: string := "en-US-JennyNeural"
  const SuggestionSystem: string := "Return a JSON array of 4 concise Cisco CLI follow-up topics."
  const DefaultTopic: string := "general Cisco networking"
  const SuggestionTokens: nat := 256
  const CommandTokens: nat := 1200
  const SearchPrefix: string :=
    "STRICT TECHNICAL SEARCH REQUIRED: Deep dive into Cisco documentation for syntax, security hardening, and troubleshooting: "
  /** The system prompt of the command branch (its long text is not modelled). */
  const CommandSystem: string := "SYSTEM_INSTRUCTION"

  const ConfigMissing: string := "AZURE_OPENAI_ENDPOINT and AZURE_OPENAI_API_KEY must be set"
  const TextRequired: string := "Text is required for TTS"
  const SpeechConfigMissing: string := "AZURE_SPEECH_KEY and AZURE_SPEECH_REGION must be set for TTS"
  const SpeechFailed: string := "Azure Speech request failed"
  const QueryRequired: string := "Query is required"
  const EmptyCompletion: string := "Empty response from Azure OpenAI"
  const ProcessingFailed: string := "Failed to process request"
  const UnknownError: string := "Unknown error"
  /** What V8 throws when the request body cannot be destructured: it is missing, or it
      is `null`. */
  const NoBodyMessage: string := "Cannot destructure property 'query' of 'req.body' as it is undefined."
  const NullBodyMessage: string := "Cannot destructure property 'query' of 'req.body' as it is null."
  /** What V8 throws when `escapeXml` gets a value without a `replace` method. */
  const NotAStringMessage: string := "input.replace is not a function"

  function ErrorBody(message: string): Option<Json> {
    Some(Single("error", JString(message)))
  }

  /** The catch block: status 500 with the error's message, or `Unknown error`. */
  function Failure(message: string): (r: Response)
    ensures r.status == 500
    ensures r.body.Some? && Get(r.body.value, "error") == Some(JString(ProcessingFailed))
    ensures r.body.Some? && Get(r.body.value, "message") ==
            Some(JString(if message != "" then message else UnknownError))
  {
    Response(500, Some(JObject([("error", JString(ProcessingFailed)),
                                ("message", JString(if message != "" then message else UnknownError))])))
  }

  predicate AzureConfigured(env: Env) {
    TruthyString(env.endpoint) && TruthyString(env.apiKey)
  }

  predicate SpeechConfigured(env: Env) {
    TruthyString(env.speechKey) && TruthyString(env.speechRegion)
  }

  /** `action === name`. */
  predicate IsAction(body: Json, name: string) {
    Get(body, "action") == Some(JString(name))
  }

  /** The `model` of the body, or the deployment, or `gpt-4o-mini` (the default applies only
      to an absent field). */
  function ModelOf(body: Json, env: Env): Json {
    match Get(body, "model")
    case Some(m) => m
    case None => JString(if TruthyString(env.deployment) then env.deployment.value else DefaultDeployment)
  }

  // ---------------------------------------------------------------------------------
  // Text to speech

  function SpeechUrl(region: string): string {
    "https://" + region + ".tts.speech.microsoft.com/cognitiveservices/v1"
  }

  function VoiceOf(env: Env): string {
    if TruthyString(env.speechVoice) then env.speechVoice.value else DefaultVoice
  }

  const SsmlOpen: string := "<speak version=\"1.0\" xml:lang=\"en-US\"><voice name=\""
  const SsmlClose: string := "</voice></speak>"

  /** The SSML document: the text is always escaped, the voice name only when
      `escapeVoice` is set. */
  function Ssml(voice: string, text: string, escapeVoice: bool): (r: string)
    ensures StartsWith(r, SsmlOpen)
    ensures EndsWith(r, EscapeXml(text) + SsmlClose)
  {
    var name := if escapeVoice then EscapeXml(voice) else voice;
    var r := SsmlOpen + name + "\">" + EscapeXml(text) + SsmlClose;
    assert r[..|SsmlOpen|] == SsmlOpen;
    assert r == (SsmlOpen + name + "\">") + (EscapeXml(text) + SsmlClose);
    r
  }

  function SpeechRequest(env: Env, text: string, escapeVoice: bool): SpeechCall
    requires SpeechConfigured(env)
  {
    SpeechCall(SpeechUrl(env.speechRegion.value), env.speechKey.value, env.speechRegion.value,
               Ssml(VoiceOf(env), text, escapeVoice))
  }

  /** What the handler answers once the Speech service has replied. */
  function SpeechResponse(reply: Result<SpeechReply>): (r: Response)
    ensures reply.Err? ==> r == Failure(reply.message)
    ensures reply.Ok? && !(200 <= reply.value.status <= 299) ==>
              r == Response(reply.value.status,
                            Some(JObject([("error", JString(SpeechFailed)),
                                          ("message", JString(reply.value.errorText.GetOr("")))])))
    ensures reply.Ok? && 200 <= reply.value.status <= 299 && reply.value.audioBase64.Err? ==>
              r == Failure(reply.value.audioBase64.message)
    ensures r.status == 200 <==>
              reply.Ok? && 200 <= reply.value.status <= 299 && reply.value.audioBase64.Ok?
    ensures r.status == 200 ==>
              r.body == Some(AudioBody(reply.value.audioBase64.value))
  {
    if reply.Err? then Failure(reply.message)
    else if !(200 <= reply.value.status <= 299) then
      Response(reply.value.status,
               Some(JObject([("error", JString(SpeechFailed)), ("message", JString(reply.value.errorText.GetOr("")))])))
    else if reply.value.audioBase64.Err? then Failure(reply.value.audioBase64.message)
    else Response(200, Some(AudioBody(reply.value.audioBase64.value)))
  }

  /** `{ audioBase64, sampleRate: 24000, channels: 1 }`. */
  function AudioBody(audio: string): Json {
    JObject([("audioBase64", JString(audio)), ("sampleRate", JNumber(24000)), ("channels", JNumber(1))])
  }

  /** The text-to-speech branch: a falsy text is answered 400 and a missing Speech
      configuration 500, both without calling the service; a string text is put into the
      SSML document, sent, and the reply decides the answer. */
  function TtsBranch(body: Json, env: Env, world: World, escapeVoice: bool): (r: Outcome)
    ensures !TruthyOpt(Get(body, "text")) ==> r == Outcome(Response(400, ErrorBody(TextRequired)), NoCall)
    ensures TruthyOpt(Get(body, "text")) && !SpeechConfigured(env) ==>
              r == Outcome(Response(500, ErrorBody(SpeechConfigMissing)), NoCall)
    ensures r.call.SpeechOut? <==>
              TruthyOpt(Get(body, "text")) && SpeechConfigured(env) && Get(body, "text").value.JString?
    ensures r.call.SpeechOut? ==>
              && r.call.speech.ssml == Ssml(VoiceOf(env), Get(body, "text").value.s, escapeVoice)
              && r.response == SpeechResponse(world.speak(r.call.speech))
    ensures TruthyOpt(Get(body, "text")) && SpeechConfigured(env) && !Get(body, "text").value.JString? ==>
              r == Outcome(Failure(NotAStringMessage), NoCall)
    ensures r.call.NoCall? ==> r.response.status in {400, 500}
  {
    var text := Get(body, "text");
    if !TruthyOpt(text) then Outcome(Response(400, ErrorBody(TextRequired)), NoCall)
    else if !SpeechConfigured(env) then Outcome(Response(500, ErrorBody(SpeechConfigMissing)), NoCall)
    else if !text.value.JString? then Outcome(Failure(NotAStringMessage), NoCall)
    else
      var call := SpeechRequest(env, text.value.s, escapeVoice);
      Outcome(SpeechResponse(world.speak(call)), SpeechOut(call))
  }

  // ---------------------------------------------------------------------------------
  // Suggestions

  /** `content?.trim() || '[]'`. */
  function SuggestionText(content: Option<string>): (r: string)
    ensures r != ""
    ensures content.None? || AllWhitespace(content.value) ==> r == "[]"
    ensures content.Some? && !AllWhitespace(content.value) ==> r == Trim(content.value)
  {
    if content.Some? && Trim(content.value) != "" then Trim(content.value) else "[]"
  }

  /** The parsed text, or `[textContent].filter(Boolean)` when it does not parse. */
  function SuggestionList(textContent: string, parse: string -> Option<Json>): (r: Json)
    ensures parse(textContent).Some? ==> r == parse(textContent).value
    ensures parse(textContent).None? ==> r == Strings(if textContent != "" then [textContent] else [])
  {
    match parse(textContent)
    case Some(v) => v
    case None => Strings(if textContent != "" then [textContent] else [])
  }

  /** An empty reply gives the empty list, given that the parser reads `[]` as the empty
      array; unreadable text becomes a list holding just that text. */
  lemma SuggestionFallbacks(content: Option<string>, parse: string -> Option<Json>)
    requires parse("[]") == Some(JArray([]))
    ensures content.None? ==> SuggestionList(SuggestionText(content), parse) == JArray([])
    ensures content.Some? && AllWhitespace(content.value) ==>
              SuggestionList(SuggestionText(content), parse) == JArray([])
    ensures parse(SuggestionText(content)).None? ==>
              SuggestionList(SuggestionText(content), parse) == JArray([JString(SuggestionText(content))])
  {
    var t := SuggestionText(content);
    if parse(t).None? {
      assert Strings([t]).items == [JString(t)];
    }
    assert Strings([]).items == [];
  }

  function SuggestionRequest(body: Json, env: Env): ChatCall {
    var query := Get(body, "query");
    ChatCall(ModelOf(body, env), SuggestionSystem,
             if TruthyOpt(query) then query.value else JString(DefaultTopic), SuggestionTokens)
  }

  /** The suggestions branch: it needs no query, always asks the model, and answers 200
      with the list exactly when the completion succeeds, the catch block's 500 otherwise. */
  function SuggestionsBranch(body: Json, env: Env, world: World): (r: Outcome)
    ensures r.call == ChatOut(SuggestionRequest(body, env))
    ensures r.response.status == 200 <==> world.complete(SuggestionRequest(body, env)).Ok?
    ensures r.response.status != 200 ==> r.response.status == 500
    ensures world.complete(SuggestionRequest(body, env)).Err? ==>
              r.response == Failure(world.complete(SuggestionRequest(body, env)).message)
    ensures r.response.status == 200 ==>
              r.response.body.Some? &&
              Get(r.response.body.value, "suggestions") ==
                Some(SuggestionList(SuggestionText(world.complete(SuggestionRequest(body, env)).value.content), world.parse))
  {
    var call := SuggestionRequest(body, env);
    var reply := world.complete(call);
    if reply.Err? then Outcome(Failure(reply.message), ChatOut(call))
    else
      var list := SuggestionList(SuggestionText(reply.value.content), world.parse);
      Outcome(Response(200, Some(Single("suggestions", list))), ChatOut(call))
  }

  // ---------------------------------------------------------------------------------
  // Command lookup

  /** The user prompt: the search prefix and the query as text when `forceSearch` is
      truthy, the query itself otherwise. */
  function CommandPrompt(query: Json, forceSearch: Json): Json {
    if Truthy(forceSearch) then JString(SearchPrefix + ToJsString(query)) else query
  }

  lemma CommandPromptPrefix(query: string, forceSearch: Json)
    ensures Truthy(forceSearch) ==>
              CommandPrompt(JString(query), forceSearch).JString? &&
              StartsWith(CommandPrompt(JString(query), forceSearch).s, SearchPrefix) &&
              CommandPrompt(JString(query), forceSearch).s[|SearchPrefix|..] == query
    ensures !Truthy(forceSearch) ==> CommandPrompt(JString(query), forceSearch) == JString(query)
  {
    if Truthy(forceSearch) {
      var p := SearchPrefix + query;
      assert p[..|SearchPrefix|] == SearchPrefix;
      assert p[|SearchPrefix|..] == query;
    }
  }

  /** `content?.trim()`, which is falsy when absent or blank. */
  function CommandText(content: Option<string>): (r: Option<string>)
    ensures r.Some? ==> content.Some? && r.value != "" && r.value == Trim(content.value)
    ensures r.None? <==> content.None? || AllWhitespace(content.value)
  {
    if content.Some? && Trim(content.value) != "" then Some(Trim(content.value)) else None
  }

  /** The parsed answer, or `{ reasoning: textContent }` when it does not parse. */
  function CommandData(textContent: string, parse: string -> Option<Json>): (r: Json)
    ensures parse(textContent).Some? ==> r == parse(textContent).value
    ensures parse(textContent).None? ==> Get(r, "reasoning") == Some(JString(textContent))
  {
    match parse(textContent)
    case Some(v) => v
    case None => Single("reasoning", JString(textContent))
  }

  function CommandRequest(body: Json, env: Env): ChatCall
    requires TruthyOpt(Get(body, "query"))
  {
    var forceSearch := Get(body, "forceSearch").GetOr(JBool(false));
    ChatCall(ModelOf(body, env), CommandSystem, CommandPrompt(Get(body, "query").value, forceSearch), CommandTokens)
  }

  /** The command branch: a falsy query is answered 400 without a call; otherwise the
      model is asked, a rejected call goes to the catch block, blank text is a 500, and
      non-blank text is answered 200 with its parse (or its `reasoning` fallback). */
  function CommandBranch(body: Json, env: Env, world: World): (r: Outcome)
    ensures !TruthyOpt(Get(body, "query")) <==> r == Outcome(Response(400, ErrorBody(QueryRequired)), NoCall)
    ensures TruthyOpt(Get(body, "query")) ==> r.call == ChatOut(CommandRequest(body, env))
    ensures r.response.status in {200, 400, 500}
    ensures r.response.status == 200 <==>
              TruthyOpt(Get(body, "query")) &&
              var reply := world.complete(CommandRequest(body, env));
              reply.Ok? && CommandText(reply.value.content).Some?
    ensures TruthyOpt(Get(body, "query")) ==> r.response.status in {200, 500}
    ensures TruthyOpt(Get(body, "query")) && world.complete(CommandRequest(body, env)).Err? ==>
              r.response == Failure(world.complete(CommandRequest(body, env)).message)
    ensures TruthyOpt(Get(body, "query")) && world.complete(CommandRequest(body, env)).Ok? &&
            CommandText(world.complete(CommandRequest(body, env)).value.content).None? ==>
              r.response == Response(500, ErrorBody(EmptyCompletion))
    ensures r.response.status == 200 ==>
              r.response == Response(200, Some(CommandData(
                CommandText(world.complete(CommandRequest(body, env)).value.content).value, world.parse)))
  {
    var query := Get(body, "query");
    if !TruthyOpt(query) then Outcome(Response(400, ErrorBody(QueryRequired)), NoCall)
    else
      var call := CommandRequest(body, env);
      var reply := world.complete(call);
      if reply.Err? then Outcome(Failure(reply.message), ChatOut(call))
      else
        match CommandText(reply.value.content)
        case None => Outcome(Response(500, ErrorBody(EmptyCompletion)), ChatOut(call))
        case Some(t) => Outcome(Response(200, Some(CommandData(t, world.parse))), ChatOut(call))
  }

  // ---------------------------------------------------------------------------------
  // The whole POST handler

  /** The handler after the method checks: destructure the body (which throws on a
      missing or null body), check the Azure configuration, then branch on the action. */
  function Dispatch(body: Option<Json>, env: Env, world: World, escapeVoice: bool): (r: Outcome)
    ensures body.None? ==> r == Outcome(Failure(NoBodyMessage), NoCall)
    ensures body == Some(JNull) ==> r == Outcome(Failure(NullBodyMessage), NoCall)
    ensures !r.call.NoCall? ==> body.Some? && AzureConfigured(env)
    ensures r.call.SpeechOut? ==> IsAction(body.value, "tts") && SpeechConfigured(env)
    ensures r.call.ChatOut? ==>
              r.call.chat.system == if IsAction(body.value, "suggestions") then SuggestionSystem else CommandSystem
    ensures r.call.NoCall? ==> r.response.status in {400, 500}
  {
    if body.None? then Outcome(Failure(NoBodyMessage), NoCall)
    else if body.value.JNull? then Outcome(Failure(NullBodyMessage), NoCall)
    else if !AzureConfigured(env) then Outcome(Response(500, ErrorBody(ConfigMissing)), NoCall)
    else if IsAction(body.value, "tts") then TtsBranch(body.value, env, world, escapeVoice)
    else if IsAction(body.value, "suggestions") then SuggestionsBranch(body.value, env, world)
    else CommandBranch(body.value, env, world)
  }

  /** Without the endpoint or the key every request is answered 500, whatever the
      action, and no service is called. */
  lemma ConfigCheckedFirst(body: Json, env: Env, world: World, escapeVoice: bool)
    requires !body.JNull? && !AzureConfigured(env)
    ensures Dispatch(Some(body), env, world, escapeVoice) == Outcome(Response(500, ErrorBody(ConfigMissing)), NoCall)
  {
  }

  /** Text to speech checks the text before the Speech configuration, and calls the
      service only when both are present. */
  lemma TtsChecks(body: Json, env: Env, world: World, escapeVoice: bool)
    requires !body.JNull? && AzureConfigured(env) && IsAction(body, "tts")
    ensures !TruthyOpt(Get(body, "text")) ==>
              Dispatch(Some(body), env, world, escapeVoice) == Outcome(Response(400, ErrorBody(TextRequired)), NoCall)
    ensures TruthyOpt(Get(body, "text")) && !SpeechConfigured(env) ==>
              Dispatch(Some(body), env, world, escapeVoice) == Outcome(Response(500, ErrorBody(SpeechConfigMissing)), NoCall)
    ensures Dispatch(Some(body), env, world, escapeVoice).call.SpeechOut? <==>
              TruthyOpt(Get(body, "text")) && SpeechConfigured(env) && Get(body, "text").value.JString?
  {
  }

  /** A successful speech reply reports 24 kHz mono along with the audio. */
  lemma TtsSuccess(body: Json, env: Env, world: World, escapeVoice: bool)
    requires !body.JNull? && AzureConfigured(env) && IsAction(body, "tts")
    requires Dispatch(Some(body), env, world, escapeVoice).response.status == 200
    ensures var r := Dispatch(Some(body), env, world, escapeVoice).response;
            r.body.Some? && Get(r.body.value, "sampleRate") == Some(JNumber(24000))
            && Get(r.body.value, "channels") == Some(JNumber(1))
            && Get(r.body.value, "audioBase64").Some?
  {
    var text := Get(body, "text").value.s;
    var reply := world.speak(SpeechRequest(env, text, escapeVoice));
    AudioBodyFields(reply.value.audioBase64.value);
  }

  lemma AudioBodyFields(audio: string)
    ensures Get(AudioBody(audio), "audioBase64") == Some(JString(audio))
    ensures Get(AudioBody(audio), "sampleRate") == Some(JNumber(24000))
    ensures Get(AudioBody(audio), "channels") == Some(JNumber(1))
  {
    var ms := AudioBody(audio).members;
    assert ms[..2] == [("audioBase64", JString(audio)), ("sampleRate", JNumber(24000))];
    assert ms[..2][..1] == [("audioBase64", JString(audio))];
    assert Get(JObject(ms[..2][..1]), "audioBase64") == Some(JString(audio));
    assert Get(JObject(ms[..2]), "audioBase64") == Some(JString(audio));
  }

  /** The suggestions branch never answers 400: a missing query becomes the default topic. */
  lemma SuggestionsNeedNoQuery(body: Json, env: Env, world: World, escapeVoice: bool)
    requires !body.JNull? && AzureConfigured(env) && IsAction(body, "suggestions")
    ensures Dispatch(Some(body), env, world, escapeVoice).response.status in {200, 500}
    ensures !TruthyOpt(Get(body, "query")) ==>
              Dispatch(Some(body), env, world, escapeVoice).call == ChatOut(ChatCall(ModelOf(body, env), SuggestionSystem, JString(DefaultTopic), 256))
  {
  }

  /** Any other action needs a truthy query, and is answered 400 without one. */
  lemma CommandNeedsQuery(body: Json, env: Env, world: World, escapeVoice: bool)
    requires !body.JNull? && AzureConfigured(env) && !IsAction(body, "tts") && !IsAction(body, "suggestions")
    ensures !TruthyOpt(Get(body, "query")) <==>
              Dispatch(Some(body), env, world, escapeVoice) == Outcome(Response(400, ErrorBody(QueryRequired)), NoCall)
  {
  }

  /** A command answer is 200 only with non-blank completion text; blank text is 500, and
      text that does not parse comes back as the reasoning. */
  lemma CommandFallbacks(body: Json, env: Env, world: World, escapeVoice: bool)
    requires !body.JNull? && AzureConfigured(env) && !IsAction(body, "tts") && !IsAction(body, "suggestions")
    requires TruthyOpt(Get(body, "query"))
    ensures var call := CommandRequest(body, env);
            var reply := world.complete(call);
            && Dispatch(Some(body), env, world, escapeVoice).call == ChatOut(call)
            && (reply.Ok? && CommandText(reply.value.content).None? ==>
                  Dispatch(Some(body), env, world, escapeVoice).response == Response(500, ErrorBody(EmptyCompletion)))
            && (reply.Ok? && CommandText(reply.value.content).Some? &&
                world.parse(CommandText(reply.value.content).value).None? ==>
                  Dispatch(Some(body), env, world, escapeVoice).response ==
                  Response(200, Some(Single("reasoning", JString(CommandText(reply.value.content).value)))))
  {
  }

  // ---------------------------------------------------------------------------------
  // The SSML document

  /** The text enters the document escaped: it is framed by fixed markup and contains no
      markup character of its own. */
  lemma SsmlEscapesText(voice: string, text: string, escapeVoice: bool)
    ensures exists head ::
              && Ssml(voice, text, escapeVoice) == head + EscapeXml(text) + SsmlClose
              && WellEscaped(EscapeXml(text))
  {
    var e := EscapeXml(text);
    var head := SsmlOpen + (if escapeVoice then EscapeXml(voice) else voice) + "\">";
    assert WellEscaped(e);
    assert Ssml(voice, text, escapeVoice) == head + e + SsmlClose;
  }

  /** When the voice is escaped, the attribute value holds no quote that could end it. */
  lemma SsmlEscapesVoice(voice: string, text: string)
    ensures Ssml(voice, text, true) == SsmlOpen + EscapeXml(voice) + "\">" + EscapeXml(text) + SsmlClose
    ensures WellEscaped(EscapeXml(voice))
  {
  }

  /** The two copies build the same document when escaping leaves the voice as it is; a
      voice with a quote between two plain characters (`a"b`, say) gives different
      documents. */
  lemma VoiceEscapingDiffers(voice: string, text: string, x: char, y: char)
    ensures (forall i :: 0 <= i < |voice| ==> voice[i] !in Specials) ==> Ssml(voice, text, true) == Ssml(voice, text, false)
    ensures x !in Specials && y !in Specials ==> Ssml([x, '"', y], text, true) != Ssml([x, '"', y], text, false)
  {
    if forall i :: 0 <= i < |voice| ==> voice[i] !in Specials {
      EscapeXmlPlain(voice);
    }
    if x !in Specials && y !in Specials {
      QuoteBetweenPlain(x, y);
      var t := "\">" + EscapeXml(text) + SsmlClose;
      var escaped := SsmlOpen + ([x] + "&quot;" + [y]) + t;
      var plain := SsmlOpen + [x, '"', y] + t;
      assert escaped[|SsmlOpen| + 1] == '&';
      assert plain[|SsmlOpen| + 1] == '"';
    }
  }

  /** A quote between two plain characters is the only thing escaping changes. */
  lemma QuoteBetweenPlain(x: char, y: char)
    requires x !in Specials && y !in Specials
    ensures EscapeXml([x, '"', y]) == [x] + "&quot;" + [y]
  {
    var s := [x, '"', y];
    assert s[1..] == ['"', y] && s[1..][1..] == [y] && s[1..][1..][1..] == [];
    assert Staged([y], {}) == [y];
    assert Staged(s[1..], {}) == "&quot;" + [y];
    assert Staged(s, {}) == [x] + ("&quot;" + [y]);
  }
}
