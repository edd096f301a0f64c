/** The records of types.ts: the structured answer and one entry of the chat log. */
module Types {
  import opened Base

  /** A grounding source of an answer. */
  datatype Source = Source(title: Option<string>, uri: Option<string>)

  /** `CiscoQueryResponse`. `deviceCategory` is declared as `Switch`, `Router` or
      `Universal`, but it arrives from parsed text and is kept as a string; `sources` is
      the field the Gemini client adds after parsing. */
  datatype CiscoQueryResponse = CiscoQueryResponse(
    reasoning: string,
    syntax: string,
    description: string,
    usageContext: string,
    options: string,
    notes: string,
    examples: string,
    deviceCategory: string,
    commandMode: string,
    correction: Option<string>,
    sources: Option<seq<Source>>)

  datatype Role = User | Assistant

  /** `ChatMessage`; the timestamp is a `Date.now()` reading in milliseconds. */
  datatype ChatMessage = ChatMessage(
    id: string,
    role: Role,
    content: string,
    timestamp: nat,
    metadata: Option<CiscoQueryResponse>)
}
