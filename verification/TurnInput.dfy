/** The parts of a turn request that the gateway's translations look at. JSON values are kept serialized. */
module TurnInput {
  import opened Prelude

  type Json = string

  /** A field that is missing or has the wrong JSON type reads as `None`. */
  datatype Call = Call(id: Option<string>, name: Option<string>, input: Option<Json>)

  datatype BlockKind = TextBlock | JsonBlock | ImageBlock | UnknownBlock(name: string) | UntypedBlock

  datatype Block = Block(
    kind: BlockKind,
    text: Option<string>,
    value: Option<Json>,
    mediaType: Option<string>,
    dataBase64: Option<string>,
    artifactId: Option<string>)

  /** Message content: a string, a list of content blocks, or any other JSON value. */
  datatype Content = Text(text: string) | Blocks(blocks: seq<Block>) | OtherJson(json: Json)

  datatype RawRole =
    AssistantRole | ToolRole | UserRole | SystemRole | ModelRole | RuntimeRole | OtherRole(name: string)

  datatype Message = Message(
    role: Option<RawRole>,
    toolCalls: Option<seq<Call>>,
    toolUseId: Option<string>,
    toolName: Option<string>,
    content: Option<Content>,
    text: Option<Content>,
    kind: Option<string>,
    serialized: Json)

  /** The tool names a message mentions: those of its calls, then its own. */
  function HistoricalNames(message: Message): seq<string> {
    (if message.toolCalls.Some? then CallNames(message.toolCalls.value) else [])
    + if message.toolName.Some? then [message.toolName.value] else []
  }

  function CallNames(calls: seq<Call>): (names: seq<string>)
    ensures forall c :: c in calls && c.name.Some? ==> c.name.value in names
    ensures forall n :: n in names ==> exists c :: c in calls && c.name == Some(n)
  {
    if calls == [] then []
    else
      var last := calls[|calls| - 1];
      CallNames(calls[..|calls| - 1]) + if last.name.Some? then [last.name.value] else []
  }

  function AllHistoricalNames(messages: seq<Message>): (names: seq<string>)
    ensures forall m, n :: m in messages && n in HistoricalNames(m) ==> n in names
  {
    if messages == [] then []
    else AllHistoricalNames(messages[..|messages| - 1]) + HistoricalNames(messages[|messages| - 1])
  }

  lemma MentionedByMessage(message: Message, n: string)
    ensures n in HistoricalNames(message) <==>
              || message.toolName == Some(n)
              || (message.toolCalls.Some? && exists c :: c in message.toolCalls.value && c.name == Some(n))
  {
  }

  /** And nothing else. */
  lemma {:induction false} HistoricalNamesAreMentioned(messages: seq<Message>, n: string)
    ensures n in AllHistoricalNames(messages) ==> exists m :: m in messages && n in HistoricalNames(m)
  {
    if messages != [] {
      HistoricalNamesAreMentioned(messages[..|messages| - 1], n);
    }
  }
}
