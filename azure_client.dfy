/**
 * services/azureOpenAIService.ts: the browser side of the Azure proxy. It shapes the
 * error of a failed command lookup, asks for suggestions with a fixed fallback, checks
 * the speech reply, and turns the audio payload into bytes, 16-bit samples and one
 * buffer per channel. `fetch` is a parameter; `atob` is left to the caller, who passes
 * the binary string it returns.
 */
module AzureClient {
  import opened Base
  import opened JsString
  import opened Json

  /** What `fetch` resolves to: the status and what `response.json()` yields (its error
      message when the body is not JSON). */
  datatype HttpReply = HttpReply(status: nat, body: Result<Json>)

  /** `response.ok`. */
  predicate IsOk(r: HttpReply) {
    200 <= r.status <= 299
  }

  /** `response.json().catch(() => ({}))`. */
  function BodyOrEmpty(r: HttpReply): Json {
    if r.body.Ok? then r.body.value else JObject([])
  }

  /** The message of a thrown error: `String(v)` of a truthy value, else the fallback. */
  function MessageOr(v: Option<Json>, fallback: string): (r: string)
    ensures TruthyOpt(v) ==> r == ToJsString(v.value)
    ensures !TruthyOpt(v) ==> r == fallback
  {
    if TruthyOpt(v) then ToJsString(v.value) else fallback
  }

  // ---------------------------------------------------------------------------------
  // Command lookup

  /** The JSON body of the lookup; `JSON.stringify` drops an undefined image. The proxy
      reads back each field it was given, and no image when none was given. */
  function CommandBody(query: string, imageBase64: Option<string>, model: string, forceSearch: bool): (r: Json)
    ensures Get(r, "query") == Some(JString(query))
    ensures Get(r, "imageBase64") == if imageBase64.Some? then Some(JString(imageBase64.value)) else None
    ensures Get(r, "model") == Some(JString(model))
    ensures Get(r, "forceSearch") == Some(JBool(forceSearch))
    ensures Get(r, "action") == None
  {
    var image := if imageBase64.Some? then [("imageBase64", JString(imageBase64.value))] else [];
    var head := [("query", JString(query))] + image;
    var withModel := head + [("model", JString(model))];
    var ms := withModel + [("forceSearch", JBool(forceSearch))];
    CommandHeadFields(query, imageBase64);
    GetAppend(head, "model", JString(model), "query");
    GetAppend(head, "model", JString(model), "imageBase64");
    GetAppend(head, "model", JString(model), "model");
    GetAppend(head, "model", JString(model), "forceSearch");
    GetAppend(head, "model", JString(model), "action");
    GetAppend(withModel, "forceSearch", JBool(forceSearch), "query");
    GetAppend(withModel, "forceSearch", JBool(forceSearch), "imageBase64");
    GetAppend(withModel, "forceSearch", JBool(forceSearch), "model");
    GetAppend(withModel, "forceSearch", JBool(forceSearch), "forceSearch");
    GetAppend(withModel, "forceSearch", JBool(forceSearch), "action");
    JObject(ms)
  }

  /** What reading property `key` of `null` throws in V8. */
  function NullReadMessage(key: string): string {
    "Cannot read properties of null (reading '" + key + "')"
  }

  /** The first members of the lookup body: the query, then the image when there is one. */
  lemma CommandHeadFields(query: string, imageBase64: Option<string>)
    ensures var head := [("query", JString(query))] +
                        (if imageBase64.Some? then [("imageBase64", JString(imageBase64.value))] else []);
            && Get(JObject(head), "query") == Some(JString(query))
            && Get(JObject(head), "imageBase64") == (if imageBase64.Some? then Some(JString(imageBase64.value)) else None)
            && Get(JObject(head), "model") == None
            && Get(JObject(head), "forceSearch") == None
            && Get(JObject(head), "action") == None
  {
    var q := [("query", JString(query))];
    assert q == [] + [("query", JString(query))];
    GetAppend([], "query", JString(query), "query");
    GetAppend([], "query", JString(query), "imageBase64");
    GetAppend([], "query", JString(query), "model");
    GetAppend([], "query", JString(query), "forceSearch");
    GetAppend([], "query", JString(query), "action");
    if imageBase64.Some? {
      var e := JString(imageBase64.value);
      GetAppend(q, "imageBase64", e, "query");
      GetAppend(q, "imageBase64", e, "imageBase64");
      GetAppend(q, "imageBase64", e, "model");
      GetAppend(q, "imageBase64", e, "forceSearch");
      GetAppend(q, "imageBase64", e, "action");
    } else {
      assert q + [] == q;
    }
  }

  function FailedStatusMessage(status: nat): string {
    "API request failed: " + NatToString(status)
  }

  /** `getCiscoCommandInfo`: a network error or an unreadable body is passed on; a
      status outside 200-299 becomes an error carrying the body's `message`, or the
      status; a failed reply whose body is JSON `null` throws on reading `message`. */
  function CommandInfo(
      query: string, imageBase64: Option<string>, model: string, forceSearch: bool,
      fetch: Json -> Result<HttpReply>): (r: Result<Json>)
    ensures var reply := fetch(CommandBody(query, imageBase64, model, forceSearch));
            && (reply.Err? ==> r == Err(reply.message))
            && (reply.Ok? && !IsOk(reply.value) && reply.value.body == Ok(JNull) ==>
                  r == Err(NullReadMessage("message")))
            && (reply.Ok? && !IsOk(reply.value) && reply.value.body != Ok(JNull) ==>
                  r == Err(MessageOr(Get(BodyOrEmpty(reply.value), "message"), FailedStatusMessage(reply.value.status))))
            && (reply.Ok? && IsOk(reply.value) ==> r == reply.value.body)
  {
    var reply := fetch(CommandBody(query, imageBase64, model, forceSearch));
    if reply.Err? then Err(reply.message)
    else if !IsOk(reply.value) then
      if reply.value.body == Ok(JNull) then Err(NullReadMessage("message"))
      else Err(MessageOr(Get(BodyOrEmpty(reply.value), "message"), FailedStatusMessage(reply.value.status)))
    else reply.value.body
  }

  /** The fallback message names the status: it can be read back from the message. */
  lemma FailedStatusReadable(status: nat)
    ensures FailedStatusMessage(status)[..20] == "API request failed: "
    ensures ParseDecimal(FailedStatusMessage(status)[20..]) == status
  {
    var m := FailedStatusMessage(status);
    assert m[20..] == NatToString(status);
    ParseNatToString(status);
  }

  /** A rejected lookup with no usable message reports the status, and different
      statuses give different messages. */
  lemma FailedStatusInjective(s1: nat, s2: nat)
    requires FailedStatusMessage(s1) == FailedStatusMessage(s2)
    ensures s1 == s2
  {
    FailedStatusReadable(s1);
    FailedStatusReadable(s2);
  }

  /** The server's message wins when it is a non-empty string. */
  lemma RejectedWithMessage(
      query: string, imageBase64: Option<string>, model: string, forceSearch: bool,
      fetch: Json -> Result<HttpReply>, m: string)
    requires var reply := fetch(CommandBody(query, imageBase64, model, forceSearch));
             reply.Ok? && !IsOk(reply.value) && reply.value.body == Ok(Single("message", JString(m)))
    requires m != ""
    ensures CommandInfo(query, imageBase64, model, forceSearch, fetch) == Err(m)
  {
  }

  // ---------------------------------------------------------------------------------
  // Suggestions

  const FallbackSuggestions: seq<string> :=
    ["BGP neighbor config", "OSPF XR setup", "VLAN interface", "Show spanning-tree"]

  const PromptLead: string := "Based on recent queries: ["
  const PromptTail: string := "], suggest 4 professional Cisco follow-ups."
  const FoundationPrompt: string := "Suggest 4 foundational Cisco CLI topics."

  /** The prompt quotes a non-empty history joined with `, ` between the lead and the tail,
      every query included; an empty history asks for foundational topics. */
  function SuggestionPrompt(history: seq<string>): (r: string)
    ensures history == [] ==> r == FoundationPrompt
    ensures |history| > 0 ==> StartsWith(r, PromptLead) && EndsWith(r, PromptTail)
    ensures |history| > 0 ==> Includes(r, Join(history, ", "))
    ensures forall k :: 0 <= k < |history| ==> Includes(r, history[k])
  {
    if |history| > 0 then
      FramedJoinIncludes(PromptLead, history, ", ", PromptTail);
      IncludesInfix(PromptLead, Join(history, ", "), PromptTail);
      var r := PromptLead + Join(history, ", ") + PromptTail;
      assert r[..|PromptLead|] == PromptLead;
      assert r[|r| - |PromptTail|..] == PromptTail;
      r
    else FoundationPrompt
  }

  function SuggestionBody(history: seq<string>): Json {
    JObject([("action", JString("suggestions")), ("query", JString(SuggestionPrompt(history)))])
  }

  /** `getDynamicSuggestions`: `data.suggestions` when the reply is good and that field
      is truthy, and the four fallback topics otherwise. */
  function DynamicSuggestions(history: seq<string>, fetch: Json -> Result<HttpReply>): (r: Json)
    ensures var reply := fetch(SuggestionBody(history));
            var good := reply.Ok? && IsOk(reply.value) && reply.value.body.Ok?;
            && (good && TruthyOpt(Get(reply.value.body.value, "suggestions")) ==>
                  r == Get(reply.value.body.value, "suggestions").value)
            && (!(good && TruthyOpt(Get(reply.value.body.value, "suggestions"))) ==>
                  r == Strings(FallbackSuggestions))
  {
    var reply := fetch(SuggestionBody(history));
    if reply.Err? || !IsOk(reply.value) || reply.value.body.Err? then Strings(FallbackSuggestions)
    else
      var s := Get(reply.value.body.value, "suggestions");
      if TruthyOpt(s) then s.value else Strings(FallbackSuggestions)
  }

  /** The result is never empty-handed: the fallback list, or a truthy value the server sent. */
  lemma DynamicSuggestionsTruthy(history: seq<string>, fetch: Json -> Result<HttpReply>)
    ensures Truthy(DynamicSuggestions(history, fetch))
  {
  }

  // ---------------------------------------------------------------------------------
  // Speech

  const NotSupportedMessage: string := "TTS is not supported with the current Azure OpenAI backend."
  const NoAudioMessage: string := "No audio data received"
  const DefaultSampleRate: int := 24000
  const DefaultChannels: int := 1

  /** What V8 throws when the awaited body destructured at the end is `null`. */
  const NullDestructureMessage: string :=
    "Cannot destructure property 'audioBase64' of '(intermediate value)' as it is null."

  datatype AudioReply = AudioReply(audioBase64: Json, sampleRate: Json, channels: Json)

  /** The speech request body: the proxy reads it as a `tts` action with this text. */
  function SpeechBody(text: string): (r: Json)
    ensures Get(r, "action") == Some(JString("tts"))
    ensures Get(r, "text") == Some(JString(text))
    ensures Get(r, "query") == None
  {
    var ms := [("action", JString("tts")), ("text", JString(text))];
    assert ms[..1] == [("action", JString("tts"))];
    assert ms[..1][..0] == [];
    JObject(ms)
  }

  /** The checks of `synthesizeSpeech` on the reply, in source order: 501 first, then any
      other status outside 200-299, then the body must read, then the audio must be
      truthy; absent rate and channel count default to 24000 and 1. */
  function SpeechReply(reply: HttpReply): (r: Result<AudioReply>)
    ensures reply.status == 501 ==> r == Err(NotSupportedMessage)
    ensures reply.status != 501 && !IsOk(reply) && reply.body == Ok(JNull) ==> r == Err(NullReadMessage("error"))
    ensures reply.status != 501 && !IsOk(reply) && reply.body != Ok(JNull) ==>
              r == Err(MessageOr(Get(BodyOrEmpty(reply), "error"), "TTS request failed: " + NatToString(reply.status)))
    ensures IsOk(reply) && reply.body == Ok(JNull) ==> r == Err(NullDestructureMessage)
    ensures IsOk(reply) && reply.body.Err? ==> r == Err(reply.body.message)
    ensures r.Ok? ==> IsOk(reply) && reply.body.Ok? && Truthy(r.value.audioBase64)
    ensures r.Ok? ==> Get(reply.body.value, "audioBase64") == Some(r.value.audioBase64)
    ensures r.Ok? ==> r.value.sampleRate == Get(reply.body.value, "sampleRate").GetOr(JNumber(DefaultSampleRate))
    ensures r.Ok? ==> r.value.channels == Get(reply.body.value, "channels").GetOr(JNumber(DefaultChannels))
    ensures IsOk(reply) && reply.body.Ok? && reply.body.value != JNull ==>
              (r.Ok? <==> TruthyOpt(Get(reply.body.value, "audioBase64")))
  {
    if reply.status == 501 then Err(NotSupportedMessage)
    else if !IsOk(reply) then
      if reply.body == Ok(JNull) then Err(NullReadMessage("error"))
      else Err(MessageOr(Get(BodyOrEmpty(reply), "error"), "TTS request failed: " + NatToString(reply.status)))
    else if reply.body.Err? then Err(reply.body.message)
    else
      var data := reply.body.value;
      if data.JNull? then Err(NullDestructureMessage)
      else
        var audio := Get(data, "audioBase64");
        if !TruthyOpt(audio) then Err(NoAudioMessage)
        else
          Ok(AudioReply(audio.value,
                        Get(data, "sampleRate").GetOr(JNumber(DefaultSampleRate)),
                        Get(data, "channels").GetOr(JNumber(DefaultChannels))))
  }

  /** A plain success reply with audio only gets the default format of 24 kHz mono. */
  lemma SpeechDefaults(audio: string)
    requires audio != ""
    ensures SpeechReply(HttpReply(200, Ok(Single("audioBase64", JString(audio))))) ==
            Ok(AudioReply(JString(audio), JNumber(24000), JNumber(1)))
  {
  }

  // ---------------------------------------------------------------------------------
  // Audio decoding

  /** `decodeBase64` after `atob`: one byte per character, each the character code taken
      modulo 256 as a `Uint8Array` stores it. */
  method DecodeBase64(binary: string) returns (bytes: array<byte>)
    ensures fresh(bytes)
    ensures bytes.Length == |binary|
    ensures forall i :: 0 <= i < |binary| ==> bytes[i] as int == binary[i] as int % 256
  {
    bytes := new byte[|binary|];
    for i := 0 to |binary|
      invariant forall k :: 0 <= k < i ==> bytes[k] as int == binary[k] as int % 256
    {
      bytes[i] := (binary[i] as int % 256) as byte;
    }
  }

  /** A little-endian 16-bit two's-complement sample. */
  function Int16Of(lo: byte, hi: byte): (r: int)
    ensures -32768 <= r < 32768
    ensures r % 65536 == lo as int + 256 * hi as int
  {
    var v := lo as int + 256 * hi as int;
    if v >= 32768 then v - 65536 else v
  }

  /** The two bytes are recovered from the sample. */
  lemma Int16Bytes(lo: byte, hi: byte)
    ensures Int16Of(lo, hi) % 65536 % 256 == lo as int
    ensures Int16Of(lo, hi) % 65536 / 256 == hi as int
  {
  }

  /** `new Int16Array(bytes.buffer)` on a little-endian machine: it throws when the byte
      length is odd. */
  function Int16View(bytes: seq<byte>): (r: Result<seq<int>>)
    ensures r.Err? <==> |bytes| % 2 == 1
    ensures r.Ok? ==> |r.value| == |bytes| / 2
    ensures r.Ok? ==> forall k :: 0 <= k < |r.value| ==> r.value[k] == Int16Of(bytes[2 * k], bytes[2 * k + 1])
  {
    if |bytes| % 2 == 1 then Err("byte length of Int16Array should be a multiple of 2")
    else Ok(seq(|bytes| / 2, k requires 0 <= k < |bytes| / 2 => Int16Of(bytes[2 * k], bytes[2 * k + 1])))
  }

  /** The channel counts `createBuffer` accepts. */
  const MaxChannels: int := 32

  /** The sample read for frame `frame` of channel `channel`. */
  function SampleIndex(frame: int, channel: int, n: int): int {
    frame * n + channel
  }

  /** `decodeAudioData` on the integer samples: `frameCount` is the sample count over the
      channel count, and frame `i` of channel `c` is sample `i * numChannels + c`. The
      buffer keeps the whole frames (a fractional frame count is truncated); a channel
      count outside 1 to 32 or no whole frame makes `createBuffer` throw. */
  method Deinterleave(samples: seq<int>, numChannels: int) returns (buffer: Result<array2<int>>)
    ensures buffer.Err? <==> !(1 <= numChannels <= MaxChannels) || |samples| < numChannels
    ensures buffer.Ok? ==> fresh(buffer.value)
    ensures buffer.Ok? ==> buffer.value.Length0 == numChannels && buffer.value.Length1 == |samples| / numChannels
    ensures buffer.Ok? ==>
              forall c, i :: 0 <= c < numChannels && 0 <= i < |samples| / numChannels ==>
                SampleIndex(i, c, numChannels) < |samples| && buffer.value[c, i] == samples[SampleIndex(i, c, numChannels)]
  {
    if !(1 <= numChannels <= MaxChannels) || |samples| < numChannels {
      return Err("createBuffer: unsupported channel count or empty buffer");
    }
    var frameCount := |samples| / numChannels;
    var data := new int[numChannels, frameCount];
    var channel := 0;
    while channel < numChannels
      invariant 0 <= channel <= numChannels
      invariant forall c, k :: 0 <= c < channel && 0 <= k < frameCount ==>
                  SampleIndex(k, c, numChannels) < |samples| && data[c, k] == samples[SampleIndex(k, c, numChannels)]
    {
      FillChannel(data, samples, channel, numChannels);
      channel := channel + 1;
    }
    buffer := Ok(data);
  }

  /** The inner loop of `decodeAudioData`: one channel's frames, the other channels
      untouched. It runs while `i < frameCount` for the untruncated frame count, and a
      write to the last, partial frame falls outside the typed array and is dropped. */
  method FillChannel(data: array2<int>, samples: seq<int>, channel: int, n: int)
    requires 0 <= channel < n && data.Length0 == n && data.Length1 == |samples| / n
    modifies data
    ensures forall c, k :: 0 <= c < n && 0 <= k < data.Length1 && c != channel ==> data[c, k] == old(data[c, k])
    ensures forall k :: 0 <= k < data.Length1 ==>
              SampleIndex(k, channel, n) < |samples| && data[channel, k] == samples[SampleIndex(k, channel, n)]
  {
    var frameCount := data.Length1;
    var i := 0;
    while i * n < |samples|
      invariant 0 <= i
      invariant forall c, k :: 0 <= c < n && 0 <= k < frameCount && c != channel ==> data[c, k] == old(data[c, k])
      invariant forall k :: 0 <= k < i && k < frameCount ==>
                  SampleIndex(k, channel, n) < |samples| && data[channel, k] == samples[SampleIndex(k, channel, n)]
      invariant i * n >= |samples| ==> i >= frameCount
      decreases |samples| - i
    {
      FrameIndex(i, channel, n, |samples|);
      if i < frameCount {
        data[channel, i] := samples[SampleIndex(i, channel, n)];
      }
      i := i + 1;
      FrameIndex(i, channel, n, |samples|);
    }
  }

  /** Frame `i` lies in the buffer exactly when `i * n` is below the sample count, and its
      sample indices are then in range. */
  lemma FrameIndex(i: nat, c: nat, n: int, len: nat)
    requires 0 <= c < n
    ensures i <= i * n && (i + 1) * n == i * n + n
    ensures i < len / n <==> (i + 1) * n <= len
    ensures i < len / n ==> SampleIndex(i, c, n) < len
    ensures i * n >= len ==> i >= len / n
  {
    MulMono(1, n, i);
    DivFloor(len, n, i + 1);
    DivFloor(len, n, i);
  }

  /** `m <= len / n` exactly when `m * n <= len`. */
  lemma DivFloor(len: nat, n: int, m: nat)
    requires n > 0
    ensures m <= len / n <==> m * n <= len
  {
    var q := len / n;
    assert len == q * n + len % n;
    if m <= q {
      MulMono(m, q, n);
    } else {
      MulMono(q + 1, m, n);
      assert (q + 1) * n == q * n + n;
    }
  }

  lemma MulMono(a: nat, b: nat, n: int)
    requires a <= b && n >= 0
    ensures a * n <= b * n
  {
  }

  /** Every sample index below the length is read: it is frame `k / n` of channel `k % n`. */
  lemma DeinterleaveCovers(len: nat, n: int, k: nat)
    requires n > 0 && len % n == 0 && k < len
    ensures k / n < len / n && k % n < n && SampleIndex(k / n, k % n, n) == k
  {
    var q := len / n;
    assert len == q * n;
    if k / n >= q {
      MulMono(q, k / n, n);
    }
  }

  /** No sample index is read twice: frame and channel are determined by the index. */
  lemma DeinterleaveUnique(i1: nat, c1: int, i2: nat, c2: int, n: int)
    requires 0 <= c1 < n && 0 <= c2 < n
    requires SampleIndex(i1, c1, n) == SampleIndex(i2, c2, n)
    ensures i1 == i2 && c1 == c2
  {
    if i1 < i2 {
      MulMono(i1 + 1, i2, n);
    } else if i2 < i1 {
      MulMono(i2 + 1, i1, n);
    }
  }
}
