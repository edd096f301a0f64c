/**
 * api/azure-openai.ts: the serverless `handler`. It answers a CORS preflight, refuses
 * any method but POST, and then runs the checks and branches of `Proxy.Dispatch` step by
 * step, without escaping the voice name. The CORS headers are not modelled.
 */
module ServerlessHandler {
  import opened Base
  import opened Json
  import opened Proxy

  const MethodNotAllowed: string := "Method not allowed"

  /** `handler(req, res)`: the answer it sends and the outside call it made. */
  method Handler(httpMethod: string, body: Option<Json>, env: Env, world: World)
    returns (response: Response, call: Outbound)
    ensures httpMethod == "OPTIONS" ==> response == Response(200, None) && call == NoCall
    ensures httpMethod != "OPTIONS" && httpMethod != "POST" ==>
              response == Response(405, ErrorBody(MethodNotAllowed)) && call == NoCall
    ensures httpMethod == "POST" ==> Outcome(response, call) == Dispatch(body, env, world, false)
  {
    call := NoCall;
    if httpMethod == "OPTIONS" {
      return Response(200, None), NoCall;
    }
    if httpMethod != "POST" {
      return Response(405, ErrorBody(MethodNotAllowed)), NoCall;
    }
    // Destructuring `req.body` throws on a missing or null body.
    if body.None? {
      return Failure(NoBodyMessage), NoCall;
    }
    if body.value.JNull? {
      return Failure(NullBodyMessage), NoCall;
    }
    var b := body.value;
    var query := Get(b, "query");
    var model := ModelOf(b, env);
    var forceSearch := Get(b, "forceSearch").GetOr(JBool(false));
    var text := Get(b, "text");

    if !AzureConfigured(env) {
      return Response(500, ErrorBody(ConfigMissing)), NoCall;
    }

    if IsAction(b, "tts") {
      assert Dispatch(body, env, world, false) == TtsBranch(b, env, world, false);
      if !TruthyOpt(text) {
        return Response(400, ErrorBody(TextRequired)), NoCall;
      }
      if !SpeechConfigured(env) {
        return Response(500, ErrorBody(SpeechConfigMissing)), NoCall;
      }
      if !text.value.JString? {
        return Failure(NotAStringMessage), NoCall;
      }
      var voice := VoiceOf(env);
      var ssml := Ssml(voice, text.value.s, false);
      var speech := SpeechCall(SpeechUrl(env.speechRegion.value), env.speechKey.value, env.speechRegion.value, ssml);
      call := SpeechOut(speech);
      var ttsResp := world.speak(speech);
      if ttsResp.Err? {
        return Failure(ttsResp.message), call;
      }
      if !(200 <= ttsResp.value.status <= 299) {
        var errorText := ttsResp.value.errorText.GetOr("");
        response := Response(ttsResp.value.status,
                             Some(JObject([("error", JString(SpeechFailed)), ("message", JString(errorText))])));
        return;
      }
      if ttsResp.value.audioBase64.Err? {
        return Failure(ttsResp.value.audioBase64.message), call;
      }
      return Response(200, Some(AudioBody(ttsResp.value.audioBase64.value))), call;
    }

    if IsAction(b, "suggestions") {
      assert Dispatch(body, env, world, false) == SuggestionsBranch(b, env, world);
      var user := if TruthyOpt(query) then query.value else JString(DefaultTopic);
      var chat := ChatCall(model, SuggestionSystem, user, SuggestionTokens);
      call := ChatOut(chat);
      var completion := world.complete(chat);
      if completion.Err? {
        return Failure(completion.message), call;
      }
      var textContent := SuggestionText(completion.value.content);
      var suggestions := Strings([]);
      var parsed := world.parse(textContent);
      if parsed.Some? {
        suggestions := parsed.value;
      } else {
        suggestions := Strings(if textContent != "" then [textContent] else []);
      }
      return Response(200, Some(Single("suggestions", suggestions))), call;
    }

    assert Dispatch(body, env, world, false) == CommandBranch(b, env, world);
    if !TruthyOpt(query) {
      return Response(400, ErrorBody(QueryRequired)), NoCall;
    }
    var userPrompt := CommandPrompt(query.value, forceSearch);
    var chat := ChatCall(model, CommandSystem, userPrompt, CommandTokens);
    call := ChatOut(chat);
    var completion := world.complete(chat);
    if completion.Err? {
      return Failure(completion.message), call;
    }
    var textContent := CommandText(completion.value.content);
    if textContent.None? {
      return Response(500, ErrorBody(EmptyCompletion)), call;
    }
    var data := JObject([]);
    var parsed := world.parse(textContent.value);
    if parsed.Some? {
      data := parsed.value;
    } else {
      data := Single("reasoning", JString(textContent.value));
    }
    response := Response(200, Some(data));
  }
}
