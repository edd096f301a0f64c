/**
 * services/geminiService.ts: how the Gemini client builds a request (the text part, the
 * optional image part, the search tool and the thinking budget picked from the model
 * name), how it turns the reply into an answer with its grounding sources, and how it
 * asks for follow-up suggestions with a fixed fallback. The SDK call and `JSON.parse`
 * are parameters.
 */
module GeminiService {
  import opened Base
  import opened JsString
  import opened Json
  import opened Types

  const DefaultModel: string := "gemini-3-pro-preview"
  const SuggestionModel: string := "gemini-3-flash-preview"
  const ImageMimeType: string := "image/jpeg"
  const ThinkingBudget: nat := 8000
  /** Queries longer than this are complex. */
  const ComplexLength: nat := 100

  /** One part of the user turn. */
  datatype Part = TextPart(text: string) | ImagePart(mimeType: string, data: string)

  /** What `generateContent` is asked for; the system instruction and the response
      schema are fixed text and are not modelled. */
  datatype GenerateRequest = GenerateRequest(
    model: string,
    parts: seq<Part>,
    googleSearch: bool,
    thinkingBudget: Option<nat>)

  datatype Web = Web(title: Option<string>, uri: Option<string>)

  datatype GroundingChunk = GroundingChunk(web: Option<Web>)

  /** The reply: its text (absent when the model returned none) and, when present,
      `candidates[0].groundingMetadata.groundingChunks`. */
  datatype GenerateReply = GenerateReply(text: Option<string>, chunks: Option<seq<GroundingChunk>>)

  // ---------------------------------------------------------------------------------
  // Building the request

  /** `imageBase64.split(',')[1] || imageBase64`: the payload after the data-URL header,
      or the whole string when there is no non-empty second piece. */
  function ImageData(imageBase64: string): (r: string)
    ensures ',' !in imageBase64 ==> r == imageBase64
  {
    SplitCount(imageBase64, ',');
    assert ',' !in imageBase64 ==> multiset(imageBase64)[','] == 0;
    var pieces := Split(imageBase64, ',');
    if |pieces| >= 2 && pieces[1] != "" then pieces[1] else imageBase64
  }

  /** With a comma at `i` and the next comma (or the end) at `j`, the payload is what lies
      between them, unless that is empty. */
  lemma ImageDataBetweenCommas(imageBase64: string, i: nat, j: nat)
    requires i < j <= |imageBase64| && imageBase64[i] == ','
    requires ',' !in imageBase64[..i] && ',' !in imageBase64[i + 1..j]
    requires j == |imageBase64| || imageBase64[j] == ','
    ensures ImageData(imageBase64) == if i + 1 < j then imageBase64[i + 1..j] else imageBase64
  {
    SplitHead(imageBase64, ',', i);
    var tail := imageBase64[i + 1..];
    assert tail[..j - i - 1] == imageBase64[i + 1..j];
    SplitHead(tail, ',', j - i - 1);
  }

  /** `isComplex`: longer than 100 characters, or mentioning design or troubleshooting
      in any letter case. */
  function IsComplex(query: string): (r: bool)
    ensures r <==>
              || |query| > ComplexLength
              || (exists i :: OccursAt(ToLower(query), "design", i))
              || (exists i :: OccursAt(ToLower(query), "troubleshoot", i))
  {
    var lower := ToLower(query);
    |query| > ComplexLength || Includes(lower, "design") || Includes(lower, "troubleshoot")
  }

  /** The request `getCiscoCommandInfo` sends: the query text, then a JPEG part exactly
      when a non-empty image string is given; the search tool exactly when the model name
      contains `pro`; the 8000-token thinking budget exactly when it contains `pro` or
      `flash` and the query is complex. */
  function CommandRequest(query: string, imageBase64: Option<string>, model: string): (r: GenerateRequest)
    ensures r.model == model
    ensures |r.parts| == if imageBase64.Some? && imageBase64.value != "" then 2 else 1
    ensures r.parts[0] == TextPart(query)
    ensures imageBase64.Some? && imageBase64.value != "" ==> r.parts[1] == ImagePart("image/jpeg", ImageData(imageBase64.value))
    ensures r.googleSearch <==> exists i :: OccursAt(model, "pro", i)
    ensures r.thinkingBudget.Some? <==>
              && ((exists i :: OccursAt(model, "pro", i)) || (exists i :: OccursAt(model, "flash", i)))
              && IsComplex(query)
    ensures r.thinkingBudget.Some? ==> r.thinkingBudget.value == 8000
  {
    var image := if TruthyString(imageBase64)
      then [ImagePart(ImageMimeType, ImageData(imageBase64.value))] else [];
    var thinks := (Includes(model, "pro") || Includes(model, "flash")) && IsComplex(query);
    GenerateRequest(model, [TextPart(query)] + image, Includes(model, "pro"),
                    if thinks then Some(ThinkingBudget) else None)
  }

  // ---------------------------------------------------------------------------------
  // Grounding sources

  /** `chunks.filter(c => c.web).map(c => ({ title: c.web.title, uri: c.web.uri }))`. */
  function Sources(chunks: seq<GroundingChunk>): (r: seq<Source>)
    ensures |r| <= |chunks|
    decreases |chunks|
  {
    if chunks == [] then []
    else
      var head := chunks[0];
      var rest := Sources(chunks[1..]);
      if head.web.Some? then [Source(head.web.value.title, head.web.value.uri)] + rest else rest
  }

  /** The filter keeps order: the sources of two runs of chunks are the sources of the
      first followed by those of the second. */
  lemma {:induction false} SourcesAppend(a: seq<GroundingChunk>, b: seq<GroundingChunk>)
    ensures Sources(a + b) == Sources(a) + Sources(b)
    decreases |a|
  {
    if a == [] {
      assert a + b == b;
    } else {
      assert (a + b)[0] == a[0];
      assert (a + b)[1..] == a[1..] + b;
      SourcesAppend(a[1..], b);
    }
  }

  /** No source is produced exactly when no chunk has a web entry. */
  lemma {:induction false} SourcesEmpty(chunks: seq<GroundingChunk>)
    ensures Sources(chunks) == [] <==> forall k :: 0 <= k < |chunks| ==> chunks[k].web.None?
    decreases |chunks|
  {
    if chunks != [] {
      SourcesEmpty(chunks[1..]);
      assert forall k :: 1 <= k < |chunks| ==> chunks[k] == chunks[1..][k - 1];
    }
  }

  /** A single chunk yields its title and address when it has a web entry, else nothing. */
  lemma SourcesSingle(c: GroundingChunk)
    ensures Sources([c]) == if c.web.Some? then [Source(c.web.value.title, c.web.value.uri)] else []
  {
    assert [c][1..] == [];
  }

  // ---------------------------------------------------------------------------------
  // The command lookup

  /** `getCiscoCommandInfo(query, imageBase64, model)`: build the parts, ask the model,
      parse its text, and attach the grounding sources when there are chunks (an empty
      list of chunks is still truthy). An error from the call or the parser is passed on. */
  method GetCiscoCommandInfo(
      query: string, imageBase64: Option<string>, model: string,
      generate: GenerateRequest -> Result<GenerateReply>,
      parse: string -> Result<CiscoQueryResponse>)
    returns (request: GenerateRequest, result: Result<CiscoQueryResponse>)
    ensures request == CommandRequest(query, imageBase64, model)
    ensures generate(request).Err? ==> result == Err(generate(request).message)
    ensures generate(request).Ok? ==>
              var reply := generate(request).value;
              var parsed := parse(reply.text.GetOr("undefined"));
              && (parsed.Err? ==> result == parsed)
              && (parsed.Ok? ==>
                    && result.Ok?
                    && result.value.(sources := parsed.value.sources) == parsed.value
                    && result.value.sources ==
                       if reply.chunks.Some? then Some(Sources(reply.chunks.value)) else parsed.value.sources)
  {
    var parts := [TextPart(query)];
    if imageBase64.Some? && imageBase64.value != "" {
      parts := parts + [ImagePart(ImageMimeType, ImageData(imageBase64.value))];
    }
    var isComplex := |query| > ComplexLength || Includes(ToLower(query), "design")
                     || Includes(ToLower(query), "troubleshoot");
    var thinking := if (Includes(model, "pro") || Includes(model, "flash")) && isComplex
                    then Some(ThinkingBudget) else None;
    request := GenerateRequest(model, parts, Includes(model, "pro"), thinking);
    var response := generate(request);
    if response.Err? {
      return request, Err(response.message);
    }
    var parsed := parse(response.value.text.GetOr("undefined"));
    if parsed.Err? {
      return request, parsed;
    }
    var answer := parsed.value;
    var chunks := response.value.chunks;
    if chunks.Some? {
      answer := answer.(sources := Some(Sources(chunks.value)));
    }
    result := Ok(answer);
  }

  // ---------------------------------------------------------------------------------
  // Follow-up suggestions

  const SuggestionLead: string := "Based on these recent Cisco CLI queries: ["
  const SuggestionTail: string :=
    "], suggest 4 highly relevant, professional follow-up topics or commands. Keep them concise (under 30 chars)."
  const FoundationPrompt: string :=
    "Suggest 4 foundational Cisco CLI topics for a network engineer (e.g. VLANs, OSPF, BGP)."
  const DefaultSuggestions: seq<string> :=
    ["BGP neighbor configuration", "OSPF areas on IOS XR", "VLAN interface setup", "Show spanning-tree details"]

  /** A non-empty history is quoted in full, joined with `, ` between the lead and the
      tail, each query included; an empty one gives the foundational prompt. */
  function SuggestionPrompt(history: seq<string>): (r: string)
    ensures history == [] ==> r == FoundationPrompt
    ensures |history| > 0 ==> StartsWith(r, SuggestionLead) && EndsWith(r, SuggestionTail)
    ensures |history| > 0 ==> Includes(r, Join(history, ", "))
    ensures forall k :: 0 <= k < |history| ==> Includes(r, history[k])
  {
    if |history| > 0 then
      FramedJoinIncludes(SuggestionLead, history, ", ", SuggestionTail);
      IncludesInfix(SuggestionLead, Join(history, ", "), SuggestionTail);
      var r := SuggestionLead + Join(history, ", ") + SuggestionTail;
      assert r[..|SuggestionLead|] == SuggestionLead;
      assert r[|r| - |SuggestionTail|..] == SuggestionTail;
      r
    else FoundationPrompt
  }

  /** The request for suggestions. */
  function SuggestionRequest(history: seq<string>): GenerateRequest {
    GenerateRequest(SuggestionModel, [TextPart(SuggestionPrompt(history))], false, None)
  }

  /** `getDynamicSuggestions(history)`: the parsed reply, or the four defaults when the
      call or the parse fails. */
  function DynamicSuggestions(
      history: seq<string>,
      generate: GenerateRequest -> Result<GenerateReply>,
      parse: string -> Option<Json>): (r: Json)
    ensures generate(SuggestionRequest(history)).Err? ==> r == Strings(DefaultSuggestions)
    ensures generate(SuggestionRequest(history)).Ok? ==>
              var p := parse(generate(SuggestionRequest(history)).value.text.GetOr("undefined"));
              r == if p.Some? then p.value else Strings(DefaultSuggestions)
  {
    var reply := generate(SuggestionRequest(history));
    if reply.Err? then Strings(DefaultSuggestions)
    else
      match parse(reply.value.text.GetOr("undefined"))
      case Some(v) => v
      case None => Strings(DefaultSuggestions)
  }

  /** An array of strings, the shape the caller renders as suggestion chips. */
  predicate StringArray(v: Json) {
    v.JArray? && forall k :: 0 <= k < |v.items| ==> v.items[k].JString?
  }

  /** When the parser only accepts arrays of strings (the response schema of the request),
      the caller always gets an array of strings, and the four defaults whenever the call
      fails or the reply does not parse. */
  lemma DynamicSuggestionsStrings(
      history: seq<string>,
      generate: GenerateRequest -> Result<GenerateReply>,
      parse: string -> Option<Json>)
    requires forall t :: parse(t).Some? ==> StringArray(parse(t).value)
    ensures StringArray(DynamicSuggestions(history, generate, parse))
    ensures var reply := generate(SuggestionRequest(history));
            reply.Err? || parse(reply.value.text.GetOr("undefined")).None? ==>
              DynamicSuggestions(history, generate, parse) == Strings(DefaultSuggestions)
  {
    var d := Strings(DefaultSuggestions);
    assert StringArray(d) by {
      forall k | 0 <= k < |d.items| ensures d.items[k].JString? {
        assert d.items[k] == JString(DefaultSuggestions[k]);
      }
    }
  }
}
