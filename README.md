# Cisco CLI Expert: a Dafny model

Cisco CLI Expert is a single-page chat assistant. A network engineer types a question
about a Cisco IOS, IOS XE or IOS XR command. The app asks a language model for a
structured answer: syntax, description, device category, command mode, options, notes,
examples, an optional typo correction and optional grounding sources. The answer is
shown as a card with badges and light Markdown formatting.

The app has two back ends:

- the browser calls Google Gemini directly (`services/geminiService.ts`);
- or the browser calls an Azure OpenAI proxy through a small client
  (`services/azureOpenAIService.ts`). The proxy exists twice: once as a serverless
  function (`api/azure-openai.ts`) and once as an Express route (`server.js`). It
  also turns text into speech through Azure Speech.

This project models the logic of those files in Dafny and proves what they promise.

| module | file | models |
|---|---|---|
| `Base` | base.dfy | `Option`, `Result` (an operation that may throw), `byte` |
| `JsString` | js_string.dfy | the JavaScript string operations the core relies on: `trim` (ECMAScript whitespace), `split` on one character, `join`, `includes`, `slice`/`substring`, `toLowerCase`, global literal `replace`, `Number#toString` |
| `Json` | json.dfy | parsed JSON values, property access (the last duplicate wins), truthiness, `String(v)` |
| `XmlEscape` | xml_escape.dfy | `escapeXml` of both proxies, with its inverse, proved a per-character escape and a round trip |
| `Types` | types.dfy | the records of `types.ts` |
| `ResultCard` | result_card.dfy | `FormattedText` (lines, bullets, spacers, and the lazy regex split into bold, italic and code spans) and the two badge style functions |
| `GeminiService` | gemini.dfy | the request `getCiscoCommandInfo` builds (image data, search tool, thinking budget), source extraction from grounding chunks, and `getDynamicSuggestions` with its fallback |
| `AzureClient` | azure_client.dfy | the proxy client: error messages from status codes, suggestion fallbacks, the `synthesizeSpeech` reply checks, base64 to bytes, and the de-interleaving of 16-bit PCM into channels |
| `Proxy` | proxy.dfy | the shared handler logic: configuration check, then the `tts`, `suggestions` and command branches with their status codes and fallbacks |
| `ServerlessHandler` | serverless_handler.dfy | the serverless entry point: `OPTIONS`, then 405 for anything but `POST`, then the shared logic |
| `ExpressServer` | express_server.dfy | the Express route, which also escapes the voice name |
| `ChatSession` | chat_session.dfy | `App.tsx`: the submit handler split at its `await`, the message log invariant, and a `ChatApp` class holding the component state |

Calls into code the model cannot see become function-typed parameters: the Gemini SDK
(`generate`), `fetch`, the Azure OpenAI client and the speech endpoint (the `World`
oracle), and `JSON.parse` (`parse`). Clock readings (`Date.now()`) are natural-number
parameters.

Some behaviour is modelled as written even where it looks unintended:

- `App.tsx` passes `selectedModel.id` as the image argument of the Gemini client and
  lets the client's default model (`gemini-3-pro-preview`) stand. So every query goes
  to the pro model, with search on, and carries the chosen model's id as a JPEG
  payload (`ChatSession.StartedRequest`).
- The serverless proxy escapes the text but not the voice name in its SSML. The
  Express proxy escapes both (`Proxy.VoiceEscapingDiffers`).
- A command answer whose text is not JSON comes back as `{ reasoning: text }`
  (`Proxy.CommandFallbacks`).

## Model

| member | source | states |
|---|---|---|
| JsString.Trim | App.tsx:44 | the result is the infix of the input that starts after its leading whitespace and ends before its trailing whitespace; it has no whitespace at either end and is empty exactly when the input is all whitespace |
| JsString.TrimIdempotent | App.tsx:44 | trimming twice gives what trimming once gives |
| JsString.TrimLeading | components/ResultCard.tsx:32-33 | whitespace in front of a line does not change its trimmed form |
| JsString.Includes | services/geminiService.ts:43 | `includes` holds exactly when the needle occurs at some index of the string |
| JsString.IncludesInfix | components/ResultCard.tsx:120-121 | a string that is some text, the needle, then more text includes the needle |
| JsString.Split | components/ResultCard.tsx:7 | `split` always yields at least one piece |
| JsString.SplitCount | components/ResultCard.tsx:7 | a split yields exactly one more piece than there are separators |
| JsString.SplitPiecesFree | components/ResultCard.tsx:7 | no piece of a split contains the separator |
| JsString.JoinSplit | components/ResultCard.tsx:7 | the pieces of `split(c)` joined with `c` give back the string |
| JsString.JoinIncludes | services/geminiService.ts:96 | every element of a list appears in the list joined with any separator |
| JsString.FramedJoinIncludes | services/azureOpenAIService.ts:39 | every element of a list appears in a prompt made of a lead, the joined list and a tail |
| JsString.Slice | components/ResultCard.tsx:13 | `slice` resolves negative and out-of-range indices against the length; when the end comes after the start the result is the text of that length found at the start, otherwise it is empty |
| JsString.SliceStrip | components/ResultCard.tsx:16 | `slice(k, -k)` drops `k` characters at each end, and is empty when the two would overlap |
| JsString.ToLower | components/ResultCard.tsx:119 | lowercasing keeps the length and maps each character on its own |
| JsString.ReplaceAllSkip | api/azure-openai.ts:41 | a global replacement passes text holding no first character of the pattern through unchanged |
| JsString.ReplaceAllCharAppend | api/azure-openai.ts:40-45 | a global replacement of a one-character pattern distributes over concatenation: the two halves are replaced on their own |
| JsString.NatToString | App.tsx:55 | the numeral of a number is a non-empty string of decimal digits without a leading zero |
| JsString.ParseNatToString | App.tsx:55 | reading the numeral back as decimal gives the number |
| JsString.NatToStringInjective | App.tsx:55 | different clock readings give different message ids |
| Json.Get | server.js:19 | a property read finds a member with that key, the last one with that key, and finds one whenever the object has that key |
| Json.GetAppend | services/azureOpenAIService.ts:13-18 | a member added at the end of an object is what its key reads, and every other key reads as before |
| XmlEscape.EscapeXml | api/azure-openai.ts:39-46 | the five chained replacements, `&` first, are the per-character escape (each special character to its entity, everything else kept), and the output holds no `<`, `>`, `"` or `'` while every `&` in it begins an entity |
| XmlEscape.RoundTrip | api/azure-openai.ts:39-46 | undoing the five entities, `&amp;` last, restores any input |
| XmlEscape.EscapeXmlPlain | server.js:152-159 | text with none of the five characters is unchanged |
| XmlEscape.AmpFirstBreaksRoundTrip | api/azure-openai.ts:41 | `&lt;` escapes to `&amp;lt;`, and undoing `&amp;` first would decode that to `<` instead of `&lt;` |
| ResultCard.FindPair | components/ResultCard.tsx:10 | the lazy `\*\*.*?\*\*` search finds the first closing `**` before any line terminator |
| ResultCard.FindPairNone | components/ResultCard.tsx:10 | the search fails exactly when a line terminator or the end comes before any closing `**` |
| ResultCard.FindChar | components/ResultCard.tsx:10 | the lazy single-delimiter search finds the first closing delimiter before any line terminator |
| ResultCard.FindCharNone | components/ResultCard.tsx:10 | that search fails exactly when a line terminator or the end comes first |
| ResultCard.MatchAt | components/ResultCard.tsx:10 | the alternatives are tried in order: at `**` with a closing `**` the match is the bold span; otherwise at `*` with a later `*` it is the italic span; at a backtick it is the code span iff a closing backtick follows; any other character, and a `*` with no later `*` on the line, gives no match; a match is a token of at least two characters |
| ResultCard.SplitInline | components/ResultCard.tsx:10 | the split has odd length, the pieces tile the line, no match starts inside a plain (even) piece, and every odd piece is exactly the token that matches where it starts |
| ResultCard.SplitFromTiles | components/ResultCard.tsx:10 | resuming the split loop at a position with no match since the last one yields that leftmost tiling of the rest of the line |
| ResultCard.SplitInlineConcat | components/ResultCard.tsx:10 | the pieces of the split concatenate back to the line |
| ResultCard.SplitInlinePlain | components/ResultCard.tsx:10 | a line without `*` or backtick is one plain piece |
| ResultCard.Classify | components/ResultCard.tsx:11-25 | a piece is bold iff it starts and ends with `**`, else italic iff it starts and ends with `*`, else code iff it starts and ends with a backtick, else plain; the body is the piece without its delimiters (`slice(2, -2)` or `slice(1, -1)`) |
| ResultCard.RenderInline | components/ResultCard.tsx:9-27 | one rendered span per piece of the split, classified as above |
| ResultCard.RenderInlineMarkup | components/ResultCard.tsx:9-27 | every captured token renders as bold, italic or code, never as plain text |
| ResultCard.RenderInlinePlain | components/ResultCard.tsx:9-27 | a line without markup renders as itself |
| ResultCard.LoneDelimiters | components/ResultCard.tsx:12-21 | a lone `*` renders as an empty italic span and a lone backtick as an empty code span, because `startsWith` and `endsWith` both hold on one character |
| ResultCard.LineItem | components/ResultCard.tsx:31-54 | a line is a bullet iff its trimmed form starts with `- ` or `* `, and then renders what follows those two characters; it is a spacer iff it is all whitespace; otherwise it renders the untrimmed line |
| ResultCard.IndentedBullet | components/ResultCard.tsx:32-33 | indentation does not change whether a line is a bullet or a spacer |
| ResultCard.FormattedText | components/ResultCard.tsx:4-7 | nothing is rendered iff the text is absent or empty; otherwise there is one item per line, one more than the newlines, each the item of that line |
| ResultCard.CategoryBadge | components/ResultCard.tsx:92-116 | `Switch` gets the server icon in blue, `Router` the route icon in orange, and every other category the globe in emerald |
| ResultCard.ModeBadge | components/ResultCard.tsx:118-145 | the wrench in rose iff the lowercased mode contains `config`; else the terminal in sky iff it contains `exec`; else the microchip in slate, also for an absent mode |
| ResultCard.ModeBadgeIgnoresCase | components/ResultCard.tsx:119 | the mode badge does not depend on letter case |
| GeminiService.ImageData | services/geminiService.ts:36 | an image string without a comma is sent whole |
| GeminiService.ImageDataBetweenCommas | services/geminiService.ts:36 | the payload is the text between the first comma and the next, unless that is empty, when the whole string is sent |
| GeminiService.IsComplex | services/geminiService.ts:43 | a query is complex iff it is longer than 100 characters or mentions `design` or `troubleshoot` in any case |
| GeminiService.CommandRequest | services/geminiService.ts:29-53 | the request goes to the given model; its parts are the query text, then a JPEG part holding the image data exactly when a non-empty image string is given; search is on iff the model name contains `pro`; a thinking budget, of 8000 tokens, is set iff the name contains `pro` or `flash` and the query is complex |
| GeminiService.Sources | services/geminiService.ts:77-79 | at most one source per grounding chunk |
| GeminiService.SourcesAppend | services/geminiService.ts:77-79 | extracting the sources of two chunk lists one after the other gives the sources of the combined list |
| GeminiService.SourcesEmpty | services/geminiService.ts:78 | there are no sources iff no chunk has a web entry |
| GeminiService.SourcesSingle | services/geminiService.ts:78-79 | a chunk with a web entry gives its title and URI, and a chunk without one gives nothing |
| GeminiService.GetCiscoCommandInfo | services/geminiService.ts:26-87 | the method sends the request above; an SDK error or a parse error is rethrown; otherwise it returns the parsed answer, with the web sources of the chunks replacing `sources` exactly when chunks are present |
| GeminiService.SuggestionPrompt | services/geminiService.ts:95-97 | an empty history asks for foundational topics; a non-empty one gives the prompt that opens with the recent-queries lead, ends with the follow-up request, and contains `history.join(', ')`, so every query appears |
| GeminiService.DynamicSuggestions | services/geminiService.ts:92-123 | the parsed reply when the call and the parse succeed, else the four default topics |
| GeminiService.DynamicSuggestionsStrings | services/geminiService.ts:99-122 | when the parser only accepts arrays of strings, as the request's response schema demands, the caller always gets an array of strings, and the four defaults whenever the call fails or the reply does not parse |
| AzureClient.CommandBody | services/azureOpenAIService.ts:13-18 | the proxy reads back the query, the model and `forceSearch` it was given, the image exactly when one was given, and no action |
| AzureClient.MessageOr | services/azureOpenAIService.ts:23 | the thrown message is `String` of a truthy field, else the fallback |
| AzureClient.CommandInfo | services/azureOpenAIService.ts:6-32 | a network error is passed on; a status outside 200-299 throws the body's `message`, or `API request failed: <status>` when the body has none or cannot be read, and a JSON `null` body throws the engine's error for reading `message` of null; on success the parsed body is returned |
| AzureClient.FailedStatusReadable | services/azureOpenAIService.ts:23 | the status can be read back from the fallback message |
| AzureClient.FailedStatusInjective | services/azureOpenAIService.ts:23 | different statuses give different messages |
| AzureClient.RejectedWithMessage | services/azureOpenAIService.ts:21-24 | an error reply with a non-empty `message` rejects with exactly that message |
| AzureClient.SuggestionPrompt | services/azureOpenAIService.ts:38-40 | an empty history asks for foundational topics; a non-empty one gives the prompt that opens with the recent-queries lead, ends with the follow-up request, and contains `history.join(', ')`, so every query appears |
| AzureClient.DynamicSuggestions | services/azureOpenAIService.ts:37-64 | the reply's `suggestions` when the call succeeds with a readable body and that field is truthy; the four fallback topics otherwise |
| AzureClient.DynamicSuggestionsTruthy | services/azureOpenAIService.ts:59-62 | the suggestions are never falsy |
| AzureClient.SpeechBody | services/azureOpenAIService.ts:101 | the proxy reads the body as the `tts` action with this text and no query |
| AzureClient.SpeechReply | services/azureOpenAIService.ts:97-114 | in source order: 501 rejects as unsupported; another status outside 200-299 rejects with the body's `error` or `TTS request failed: <status>`, or with the engine's error for reading `error` of a JSON `null` body; an unreadable body rejects; a `null` body throws on destructuring; a reply is accepted iff its audio is truthy; the rate and channel count default to 24000 and 1 |
| AzureClient.SpeechDefaults | services/azureOpenAIService.ts:113 | a reply carrying only audio gets 24000 Hz and one channel |
| AzureClient.DecodeBase64 | services/azureOpenAIService.ts:68-76 | a fresh byte array as long as the binary string, holding each character code modulo 256 |
| AzureClient.Int16Of | services/azureOpenAIService.ts:84 | a little-endian byte pair read as a signed 16-bit sample, in range and congruent to its bytes |
| AzureClient.Int16Bytes | services/azureOpenAIService.ts:84 | the sample determines both of its bytes |
| AzureClient.Int16View | services/azureOpenAIService.ts:84 | an odd byte count throws; otherwise there are half as many samples, sample `k` made of bytes `2k` and `2k+1` |
| AzureClient.Deinterleave | services/azureOpenAIService.ts:78-95 | it fails iff the channel count is outside 1 to 32 or there is no whole frame; otherwise it returns a fresh channels-by-frames buffer with frame `i` of channel `c` equal to sample `i * channels + c` |
| AzureClient.FillChannel | services/azureOpenAIService.ts:89-92 | one channel is filled with every whole frame of that channel, frame `i` taking sample `i * channels + c`, and the other channels are untouched |
| AzureClient.FrameIndex | services/azureOpenAIService.ts:90-91 | a frame below the frame count only reads samples that exist |
| AzureClient.DeinterleaveCovers | services/azureOpenAIService.ts:88-93 | when the samples fill whole frames, every sample lands in some channel and frame |
| AzureClient.DeinterleaveUnique | services/azureOpenAIService.ts:91 | no two channel and frame positions read the same sample |
| Proxy.Failure | api/azure-openai.ts:171-176 | the catch block answers 500 with a body whose `error` is `Failed to process request` and whose `message` is the thrown message, or `Unknown error` when that is empty |
| Proxy.Ssml | api/azure-openai.ts:92 | the SSML document opens with the `speak` and `voice` tags and ends with the escaped text and the closing tags |
| Proxy.SpeechResponse | api/azure-openai.ts:105-113 | a speech failure is passed on with its status, `Azure Speech request failed` and the error text; the answer is 200 iff the speech call succeeded and its audio was read, and then carries the audio at 24000 Hz, one channel |
| Proxy.TtsBranch | api/azure-openai.ts:80-113 | a falsy text gets 400 and a missing speech configuration 500, both without a call; the speech service is called iff the text is truthy, configured and a string, with the SSML of that text, and its reply decides the answer; a truthy, configured text that is not a string gets the catch block's `input.replace is not a function` failure; without a call the status is 400 or 500 |
| Proxy.SuggestionText | server.js:74 | the completion's trimmed text, or `[]` when it is absent or blank; never empty |
| Proxy.SuggestionList | server.js:76 | the parsed text when it parses, else the text as a one-item list (empty text gives the empty list) |
| Proxy.SuggestionFallbacks | api/azure-openai.ts:128-134 | a missing or blank completion gives the empty list, and unparsable text gives a list holding that text |
| Proxy.SuggestionsBranch | server.js:63-78 | the chat model is always asked; the answer is 200 iff the completion succeeds, and then its `suggestions` are the list made from the completion text; a rejected completion gets the catch block's 500 answer with its message |
| Proxy.CommandPromptPrefix | server.js:82-84 | with `forceSearch` truthy the prompt is the search prefix followed by the query; otherwise it is the query |
| Proxy.CommandText | api/azure-openai.ts:157-160 | the trimmed completion, absent iff the completion is absent or blank |
| Proxy.CommandData | api/azure-openai.ts:162-167 | the parsed text when it parses, else an object whose `reasoning` is the text |
| Proxy.CommandBranch | api/azure-openai.ts:139-176 | the answer is 400 `Query is required` without a call iff the query is falsy; otherwise the chat model is asked with the command request and the status is 200 or 500: a rejected completion gets the catch block's answer with its message, a blank one 500 `Empty response from Azure OpenAI`, and non-blank text 200 with the parsed data (or its `reasoning` fallback) as the body |
| Proxy.Dispatch | api/azure-openai.ts:67-178 | a missing or `null` body throws the engine's destructuring error (500); any service call needs a body and the Azure configuration; a speech call only for the `tts` action with speech configured; a chat call uses the suggestions system prompt for the `suggestions` action and the command prompt otherwise; without a call the status is 400 or 500 |
| Proxy.ConfigCheckedFirst | api/azure-openai.ts:68-72 | without the endpoint or key every request gets 500 and no service is called, whatever its action |
| Proxy.TtsChecks | api/azure-openai.ts:80-92 | a falsy text gets 400; missing speech settings get 500; the speech service is called iff the text is truthy, the settings exist, and the text is a string |
| Proxy.TtsSuccess | server.js:57-59 | a 200 text-to-speech answer carries audio, `sampleRate` 24000 and `channels` 1 |
| Proxy.SuggestionsNeedNoQuery | server.js:63-78 | the suggestions action answers 200 or 500, never 400, and without a query it asks about general Cisco networking with 256 tokens |
| Proxy.CommandNeedsQuery | server.js:81 | a command request gets 400 `Query is required` iff its query is falsy |
| Proxy.CommandFallbacks | api/azure-openai.ts:139-169 | a command request calls the chat model once; a blank completion gives 500, and text that does not parse gives 200 with the text as `reasoning` |
| Proxy.SsmlEscapesText | api/azure-openai.ts:92 | the text is placed into the SSML escaped, so it cannot break out of the voice element |
| Proxy.SsmlEscapesVoice | server.js:39 | the Express proxy places the voice name into the attribute escaped |
| Proxy.VoiceEscapingDiffers | api/azure-openai.ts:92 | the two proxies build the same SSML for a voice name without special characters, and different SSML for a name with a quote between two plain characters |
| ServerlessHandler.Handler | api/azure-openai.ts:48-178 | `OPTIONS` gets an empty 200 and calls nothing; any other method but `POST` gets 405 `Method not allowed`; a `POST` is the shared handler without voice escaping |
| ExpressServer.Route | server.js:17-140 | the route is the shared handler with the voice escaped |
| ChatSession.Begin | App.tsx:42-63 | the submit is ignored iff the trimmed input is empty or a request is in flight; it is refused as too long iff it is not ignored and the trimmed input exceeds 1000 characters; both leave the state alone; otherwise exactly one user message holding the trimmed input is appended, earlier messages are kept, the input is cleared, the query is pending and the model is kept |
| ChatSession.Settle | App.tsx:65-85 | exactly one assistant message is appended and earlier messages kept: `Details for: ` and the query with the answer attached on success, the apology without an answer on failure; nothing is pending afterwards, and the input and model are kept |
| ChatSession.SubmitCycle | App.tsx:42-86 | a whole submit from an idle, well-formed state adds a question and its answer, keeps the earlier log, and leaves a well-formed idle state |
| ChatSession.InitialWellFormed | App.tsx:15-19 | the first render has an empty log, nothing in flight, and satisfies the log invariant |
| ChatSession.BeginPreserves | App.tsx:42-63 | the submit keeps the log invariant: user and assistant messages alternate, user messages hold accepted queries, each assistant message answers the one before it, and the log has odd length exactly while a query is in flight, that query being the last message |
| ChatSession.SettlePreserves | App.tsx:65-85 | settling keeps the log invariant |
| ChatSession.EditingPreserves | App.tsx:137 | typing or picking another model while a query is in flight keeps the invariant |
| ChatSession.PickedModelRequest | App.tsx:66 | for any model of the menu the lookup goes to `gemini-3-pro-preview` with search on, with the query and then the model's id as JPEG data |
| ChatSession.StartedRequest | App.tsx:66 | whatever model is picked, the lookup a submit starts goes to `gemini-3-pro-preview` with search on, and it carries the query and then the picked model's id as JPEG data |
| ChatSession.CounterBands | App.tsx:245-247 | the counter shows from 701 characters and is red from 1000; a red counter is always shown |
| ChatSession.EmptyStateOnlyAtStart | App.tsx:165 | the welcome panel disappears at the first accepted submit and does not come back |
| ChatSession.ChatApp.constructor | App.tsx:15-19 | the component starts empty, idle, with the first model selected |
| ChatSession.ChatApp.SubmitButtonDisabled | App.tsx:255 | the button is disabled iff the submit guard would ignore a submit |
| ChatSession.ChatApp.HandleSubmit | App.tsx:42-63 | the new state and the started request are those of `Begin`, and the invariant holds |
| ChatSession.ChatApp.Resume | App.tsx:66-85 | the new state is that of `Settle` with the lookup's outcome, loading ends, and the invariant holds |
| ChatSession.ChatApp.SetInput | App.tsx:183 | only the input changes |
| ChatSession.ChatApp.SelectModel | App.tsx:136-139 | only the selected model changes, and it is one of the menu's models |

## Left out

- Strings are sequences of Unicode code points. JavaScript measures `length` in UTF-16 code units, so the 1000-character limit, the counter and the 100-character complexity threshold can differ for text outside the Basic Multilingual Plane.
- JsString.ToLower: lowercases ASCII letters only. For the ASCII words searched for (`config`, `exec`, `design`, `troubleshoot`) no other character lowers into a match, so those searches are exact.
- JSON numbers are integers. Floating point does not occur in the modelled paths except in the audio code below.
- `JSON.parse`, the Gemini SDK, `fetch`, the Azure OpenAI client, the Azure Speech endpoint, `atob`, `Buffer` and its base64 encoding are foreign and appear as function parameters. Their own behaviour is not modelled.
- AzureClient.Deinterleave: works on the integer samples. It leaves out the division by 32768.0 into floats, the `AudioContext`, and the sample-rate validation of `createBuffer`. A fractional frame count is truncated as `createBuffer` does.
- The speech request headers, the output format string, and the body-size limit of `express.json` are not modelled.
- The CORS headers, static file serving, the SPA fallback route and `listen` of `server.js` are not modelled. They are configuration, not logic.
- Rendering, scrolling, the theme toggle, the menu open state and all CSS classes of React components are not modelled. Only the state they depend on is.
- The system instruction texts are a placeholder constant (`Proxy.CommandSystem`). The response schema and `responseMimeType` of the Gemini calls, and the temperature of 0.2 of the Azure calls, are not modelled. They are prompts and settings passed to the services.
- GeminiService.GetCiscoCommandInfo: the parser's type returns a `CiscoQueryResponse`, so the response schema is built into the model. A reply that parses to `null` or to a number has no counterpart, and neither has the TypeError that the source's `result.sources = …` then throws when chunks are present.
- AzureClient.CommandInfo: the default arguments `model = 'gpt-4o-mini'` and `forceSearch = false` of `getCiscoCommandInfo` are not modelled; the model always takes both explicitly, and no caller in the core relies on the defaults.
- The `maxLength` attribute of the input box is not modelled. It limits typing, not submitting, and the handler checks the length itself.
- The messages thrown by V8 are written as constants: for a missing and for a `null` request body (`Proxy.NoBodyMessage`, `Proxy.NullBodyMessage`), for a non-string `text` (`Proxy.NotAStringMessage`), for reading a property of a `null` reply body (`AzureClient.NullReadMessage`) and for destructuring one (`AzureClient.NullDestructureMessage`). Their wording belongs to the engine.
- Proxy.CommandData: non-string message contents from the chat client are not modelled. The completion content is an optional string.
- `alert`, `console.error` and `console.warn` are not modelled. The too-long alert is the `TooLong` outcome.
