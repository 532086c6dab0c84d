/**
 `normalize_messages`: the conversation of a turn request becomes the message list of a provider. Compaction may
 have dropped the assistant message that declared a tool call, so results whose declaration is missing get a
 synthesized one, and images in places where a provider takes only text are repeated in a user message.
 */
module ToolHistory {
  import opened Prelude
  import opened TurnInput
  import A = ToolAliases

  datatype Role = Assistant | User | System

  datatype OutCall = OutCall(id: string, name: string, arguments: Json)

  datatype OutBlock = OutText(text: string) | OutImage(mediaType: string, data: string)

  /** A provider message: tool-call declaration, tool result, user message of blocks, or plain text. */
  datatype OutMessage =
    | Declaration(calls: seq<OutCall>)
    | ToolResult(id: string, text: string)
    | Multimodal(blocks: seq<OutBlock>)
    | Plain(role: Role, text: string)

  datatype Refusal =
    | MissingRole
    | UnsupportedRole
    | CallWithoutId
    | CallWithoutName
    | ToolWithoutId
    | OrphanWithoutName
    | MissingContent
    | UnsupportedBlock
    | UnresolvedImage

  // ----- Content -----

  function ConvertBlock(block: Block): Result<OutBlock, Refusal> {
    match block.kind
    case TextBlock => Ok(OutText(if block.text.Some? then block.text.value else ""))
    case JsonBlock => Ok(OutText(if block.value.Some? then block.value.value else "null"))
    case ImageBlock =>
      if block.mediaType.None? || block.dataBase64.None? then Err(UnresolvedImage)
      else Ok(OutImage(block.mediaType.value, block.dataBase64.value))
    case UnknownBlock(_) => Err(UnsupportedBlock)
    case UntypedBlock => Err(UnsupportedBlock)
  }

  function ConvertBlocks(blocks: seq<Block>): Result<seq<OutBlock>, Refusal> {
    if blocks == [] then Ok([])
    else
      match ConvertBlocks(blocks[..|blocks| - 1])
      case Err(e) => Err(e)
      case Ok(rest) =>
        match ConvertBlock(blocks[|blocks| - 1])
        case Err(e) => Err(e)
        case Ok(b) => Ok(rest + [b])
  }

  /** `provider_content_blocks`: only a list of blocks is multimodal. */
  function ContentBlocks(content: Content): Result<Option<seq<OutBlock>>, Refusal> {
    match content
    case Blocks(blocks) =>
      (match ConvertBlocks(blocks) case Ok(bs) => Ok(Some(bs)) case Err(e) => Err(e))
    case _ => Ok(None)
  }

  predicate HasImage(blocks: seq<OutBlock>) {
    exists b :: b in blocks && b.OutImage?
  }

  function ContentString(content: Content): string {
    match content
    case Text(text) => text
    case Blocks(_) => ""
    case OtherJson(json) => json
  }

  function BlockTexts(blocks: seq<Block>): seq<string> {
    if blocks == [] then []
    else
      var b := blocks[|blocks| - 1];
      BlockTexts(blocks[..|blocks| - 1]) +
      match b.kind
      case TextBlock => if b.text.Some? then [b.text.value] else []
      case JsonBlock => [if b.value.Some? then b.value.value else "null"]
      case ImageBlock =>
        ["[bound visual artifact: " + (if b.artifactId.Some? then b.artifactId.value else "unknown") + "]"]
      case _ => []
  }

  function Joined(parts: seq<string>): string {
    if parts == [] then ""
    else if |parts| == 1 then parts[0]
    else Joined(parts[..|parts| - 1]) + "\n" + parts[|parts| - 1]
  }

  /** `content_blocks_text`. */
  function ContentText(content: Content): string {
    if content.Blocks? then Joined(BlockTexts(content.blocks)) else ContentString(content)
  }

  // ----- One message, whatever came before it -----

  function RoleOf(raw: RawRole): Role {
    match raw
    case AssistantRole => Assistant
    case UserRole => User
    case _ => System
  }

  predicate Declares(m: Message) {
    m.role == Some(AssistantRole) && m.toolCalls.Some?
  }

  predicate IsToolResult(m: Message) {
    m.role == Some(ToolRole)
  }

  function ConvertCalls(alias: A.Aliasing, aliases: A.AliasMap, calls: seq<Call>): Result<seq<OutCall>, Refusal> {
    if calls == [] then Ok([])
    else
      match ConvertCalls(alias, aliases, calls[..|calls| - 1])
      case Err(e) => Err(e)
      case Ok(rest) =>
        var call := calls[|calls| - 1];
        if call.id.None? then Err(CallWithoutId)
        else if call.name.None? then Err(CallWithoutName)
        else Ok(rest + [OutCall(call.id.value, A.EmittedName(alias, aliases, call.name.value),
                                if call.input.Some? then call.input.value else "{}")])
  }

  /** A system message without content but with a kind is passed on as its whole JSON. */
  function ContentOf(m: Message): Option<Content> {
    if m.content.Some? then m.content
    else if m.text.Some? then m.text
    else if m.role.Some? && RoleOf(m.role.value).System? && m.kind.Some? then Some(OtherJson(m.serialized))
    else None
  }

  /** The messages one input message becomes: itself, and a copy of its images where they need one. */
  datatype Converted = Converted(main: OutMessage, copy: Option<OutMessage>)

  function Convert(alias: A.Aliasing, aliases: A.AliasMap, m: Message): Result<Converted, Refusal> {
    if m.role.None? then Err(MissingRole)
    else if m.role.value.OtherRole? then Err(UnsupportedRole)
    else if Declares(m) then
      match ConvertCalls(alias, aliases, m.toolCalls.value)
      case Err(e) => Err(e)
      case Ok(calls) => Ok(Converted(Declaration(calls), None))
    else if IsToolResult(m) then
      if m.toolUseId.None? then Err(ToolWithoutId)
      else
        var content := if m.content.Some? then m.content.value else OtherJson("null");
        match ContentBlocks(content)
        case Err(e) => Err(e)
        case Ok(blocks) =>
          Ok(Converted(ToolResult(m.toolUseId.value, ContentText(content)),
                       if blocks.Some? && HasImage(blocks.value) then Some(Multimodal(blocks.value)) else None))
    else if ContentOf(m).None? then Err(MissingContent)
    else
      var content := ContentOf(m).value;
      var role := RoleOf(m.role.value);
      match ContentBlocks(content)
      case Err(e) => Err(e)
      case Ok(None) => Ok(Converted(Plain(role, ContentString(content)), None))
      case Ok(Some(blocks)) =>
        if role.User? then Ok(Converted(Multimodal(blocks), None))
        else Ok(Converted(Plain(role, ContentText(content)),
                          if HasImage(blocks) then Some(Multimodal(blocks)) else None))
  }

  /** A call as it is sent to the provider: its id, the emitted form of its name, and its input or an empty object. */
  predicate SentAs(alias: A.Aliasing, aliases: A.AliasMap, call: Call, sent: OutCall) {
    && call.id == Some(sent.id)
    && call.name.Some? && sent.name == A.EmittedName(alias, aliases, call.name.value)
    && sent.arguments == if call.input.Some? then call.input.value else "{}"
  }

  /** Calls are converted one by one, exactly if all have an id and a name. */
  lemma {:induction false} CallsConvertOneByOne(alias: A.Aliasing, aliases: A.AliasMap, calls: seq<Call>)
    ensures ConvertCalls(alias, aliases, calls).Ok?
            <==> forall k :: 0 <= k < |calls| ==> calls[k].id.Some? && calls[k].name.Some?
    ensures ConvertCalls(alias, aliases, calls).Ok? ==>
              var sent := ConvertCalls(alias, aliases, calls).value;
              && |sent| == |calls| && forall k :: 0 <= k < |calls| ==> SentAs(alias, aliases, calls[k], sent[k])
  {
    if calls != [] {
      CallsConvertOneByOne(alias, aliases, calls[..|calls| - 1]);
    }
  }

  /** The refusal of the first call without an id or a name. */
  lemma {:induction false} FirstBadCallRefuses(alias: A.Aliasing, aliases: A.AliasMap, calls: seq<Call>)
    returns (k: nat)
    requires ConvertCalls(alias, aliases, calls).Err?
    ensures k < |calls| && (calls[k].id.None? || calls[k].name.None?)
    ensures forall j :: 0 <= j < k ==> calls[j].id.Some? && calls[j].name.Some?
    ensures ConvertCalls(alias, aliases, calls).error == if calls[k].id.None? then CallWithoutId else CallWithoutName
  {
    var shorter := calls[..|calls| - 1];
    if ConvertCalls(alias, aliases, shorter).Err? {
      k := FirstBadCallRefuses(alias, aliases, shorter);
    } else {
      CallsConvertOneByOne(alias, aliases, shorter);
      k := |calls| - 1;
    }
  }

  lemma {:induction false} TextsOfBlocks(a: seq<Block>, b: seq<Block>)
    ensures BlockTexts(a + b) == BlockTexts(a) + BlockTexts(b)
  {
    if b == [] {
      assert a + b == a;
    } else {
      TextsOfBlocks(a, b[..|b| - 1]);
      assert (a + b)[..|a + b| - 1] == a + b[..|b| - 1];
    }
  }

  /** What one block contributes to a text: itself, or a note where an image stood. */
  lemma TextOfBlock(block: Block)
    ensures block.kind.TextBlock? ==> BlockTexts([block]) == if block.text.Some? then [block.text.value] else []
    ensures block.kind.JsonBlock? ==> BlockTexts([block]) == [if block.value.Some? then block.value.value else "null"]
    ensures block.kind.ImageBlock? ==>
              BlockTexts([block]) == ["[bound visual artifact: "
                                      + (if block.artifactId.Some? then block.artifactId.value else "unknown") + "]"]
    ensures block.kind.UnknownBlock? || block.kind.UntypedBlock? ==> BlockTexts([block]) == []
  {
    assert [block][..0] == [];
  }

  lemma TextOfContent(content: Content)
    ensures content.Text? ==> ContentText(content) == content.text
    ensures content.OtherJson? ==> ContentText(content) == content.json
    ensures content.Blocks? ==> ContentText(content) == Joined(BlockTexts(content.blocks))
  {
  }

  /** The texts stand one to a line. */
  lemma {:induction false} JoinedByLines(a: seq<string>, b: seq<string>)
    requires a != [] && b != []
    ensures Joined(a + b) == Joined(a) + "\n" + Joined(b)
    ensures |a| == 1 ==> Joined(a) == a[0]
  {
    var shorter := b[..|b| - 1];
    assert (a + b)[..|a + b| - 1] == a + shorter;
    if shorter == [] {
      assert a + shorter == a;
    } else {
      JoinedByLines(a, shorter);
      assert Joined(a) + "\n" + Joined(shorter) + "\n" + b[|b| - 1]
          == Joined(a) + "\n" + (Joined(shorter) + "\n" + b[|b| - 1]);
    }
  }

  /** A block with its own content: text, the text of a JSON value, or an image with its type and data. */
  predicate ShownAs(block: Block, out: OutBlock) {
    match out
    case OutText(text) =>
      || (block.kind.TextBlock? && text == if block.text.Some? then block.text.value else "")
      || (block.kind.JsonBlock? && text == if block.value.Some? then block.value.value else "null")
    case OutImage(mediaType, data) =>
      block.kind.ImageBlock? && block.mediaType == Some(mediaType) && block.dataBase64 == Some(data)
  }

  predicate Showable(block: Block) {
    || block.kind.TextBlock? || block.kind.JsonBlock?
    || (block.kind.ImageBlock? && block.mediaType.Some? && block.dataBase64.Some?)
  }

  /** Exactly text, JSON and resolved images can be shown; otherwise the first other block decides the refusal. */
  lemma {:induction false} BlocksConvertExactly(blocks: seq<Block>)
    ensures ConvertBlocks(blocks).Ok? <==> forall k :: 0 <= k < |blocks| ==> Showable(blocks[k])
    ensures ConvertBlocks(blocks).Err? ==>
              exists k :: && 0 <= k < |blocks| && !Showable(blocks[k])
                          && (forall j :: 0 <= j < k ==> Showable(blocks[j]))
                          && ConvertBlocks(blocks).error
                             == if blocks[k].kind.ImageBlock? then UnresolvedImage else UnsupportedBlock
  {
    if blocks != [] {
      var shorter := blocks[..|blocks| - 1];
      BlocksConvertExactly(shorter);
      if ConvertBlocks(shorter).Err? {
        var k :| && 0 <= k < |shorter| && !Showable(shorter[k])
                 && (forall j :: 0 <= j < k ==> Showable(shorter[j]))
                 && ConvertBlocks(shorter).error
                    == if shorter[k].kind.ImageBlock? then UnresolvedImage else UnsupportedBlock;
        assert blocks[k] == shorter[k] && forall j :: 0 <= j < k ==> blocks[j] == shorter[j];
      } else {
        assert forall j :: 0 <= j < |shorter| ==> blocks[j] == shorter[j];
        assert Showable(blocks[|blocks| - 1]) ==> ConvertBlocks(blocks).Ok?;
      }
    }
  }

  predicate ContentShowable(content: Content) {
    content.Blocks? ==> forall k :: 0 <= k < |content.blocks| ==> Showable(content.blocks[k])
  }

  /** Which messages convert on their own. */
  lemma ConvertsExactly(alias: A.Aliasing, aliases: A.AliasMap, m: Message)
    ensures Convert(alias, aliases, m).Ok? <==>
              && m.role.Some? && !m.role.value.OtherRole?
              && if Declares(m) then
                   forall k :: 0 <= k < |m.toolCalls.value| ==>
                     m.toolCalls.value[k].id.Some? && m.toolCalls.value[k].name.Some?
                 else if IsToolResult(m) then
                   m.toolUseId.Some? && (m.content.Some? ==> ContentShowable(m.content.value))
                 else ContentOf(m).Some? && ContentShowable(ContentOf(m).value)
  {
    if Declares(m) {
      CallsConvertOneByOne(alias, aliases, m.toolCalls.value);
    } else if IsToolResult(m) {
      if m.content.Some? && m.content.value.Blocks? {
        BlocksConvertExactly(m.content.value.blocks);
      }
    } else if ContentOf(m).Some? && ContentOf(m).value.Blocks? {
      BlocksConvertExactly(ContentOf(m).value.blocks);
    }
  }

  /** What is read of a message: its content, else its text, else for a system message of some kind its whole JSON. */
  lemma ContentIsTakenFrom(m: Message)
    ensures m.content.Some? ==> ContentOf(m) == m.content
    ensures m.content.None? && m.text.Some? ==> ContentOf(m) == m.text
    ensures m.content.None? && m.text.None?
            && m.role != Some(ToolRole) && !(m.role.Some? && m.role.value.OtherRole?) ==>
              ContentOf(m) == if m.role in {Some(SystemRole), Some(ModelRole), Some(RuntimeRole)} && m.kind.Some?
                              then Some(OtherJson(m.serialized)) else None
  {
  }

  /** The refusal of a message without a known role, of a result without an id, and of one without anything to read. */
  lemma RefusesWith(alias: A.Aliasing, aliases: A.AliasMap, m: Message)
    ensures m.role.None? ==> Convert(alias, aliases, m) == Err(MissingRole)
    ensures m.role.Some? && m.role.value.OtherRole? ==> Convert(alias, aliases, m) == Err(UnsupportedRole)
    ensures m.role == Some(ToolRole) && m.toolUseId.None? ==> Convert(alias, aliases, m) == Err(ToolWithoutId)
    ensures m.role.Some? && !m.role.value.OtherRole? && m.role != Some(ToolRole)
            && !(m.role == Some(AssistantRole) && m.toolCalls.Some?) && ContentOf(m).None? ==>
              Convert(alias, aliases, m) == Err(MissingContent)
  {
  }

  /** What a message becomes: its calls, the text of its result under its id, its blocks, or its text under its role. */
  lemma ConvertsTo(alias: A.Aliasing, aliases: A.AliasMap, m: Message)
    requires Convert(alias, aliases, m).Ok?
    ensures match Convert(alias, aliases, m).value.main
            case Declaration(calls) =>
              && m.role == Some(AssistantRole) && m.toolCalls.Some? && |calls| == |m.toolCalls.value|
              && forall k :: 0 <= k < |calls| ==> SentAs(alias, aliases, m.toolCalls.value[k], calls[k])
            case ToolResult(id, text) =>
              && m.role == Some(ToolRole) && m.toolUseId == Some(id)
              && text == if m.content.Some? then ContentText(m.content.value) else "null"
            case Multimodal(_) => m.role == Some(UserRole) && ContentOf(m).Some? && ContentOf(m).value.Blocks?
            case Plain(role, text) =>
              && m.role != Some(ToolRole) && !(m.role == Some(AssistantRole) && m.toolCalls.Some?)
              && ContentOf(m).Some? && text == ContentText(ContentOf(m).value)
              && match role
                 case Assistant => m.role == Some(AssistantRole)
                 case User => m.role == Some(UserRole) && !ContentOf(m).value.Blocks?
                 case System => m.role in {Some(SystemRole), Some(ModelRole), Some(RuntimeRole)}
  {
    if Declares(m) {
      CallsConvertOneByOne(alias, aliases, m.toolCalls.value);
    }
  }

  /** Blocks are converted one by one, and images to images. */
  lemma {:induction false} BlocksConvertOneByOne(blocks: seq<Block>)
    requires ConvertBlocks(blocks).Ok?
    ensures var out := ConvertBlocks(blocks).value;
            && |out| == |blocks|
            && forall k :: 0 <= k < |blocks| ==>
                 ConvertBlock(blocks[k]) == Ok(out[k]) && (out[k].OutImage? <==> blocks[k].kind.ImageBlock?)
    ensures forall k :: 0 <= k < |blocks| ==> ShownAs(blocks[k], ConvertBlocks(blocks).value[k])
  {
    if blocks != [] {
      BlocksConvertOneByOne(blocks[..|blocks| - 1]);
    }
  }

  predicate ShowsImage(content: Option<Content>) {
    content.Some? && content.value.Blocks? && exists b :: b in content.value.blocks && b.kind.ImageBlock?
  }

  /** The content a message is read from. */
  function Source(m: Message): Option<Content> {
    if IsToolResult(m) then m.content else ContentOf(m)
  }

  /** The blocks stand in the message itself or in its copy. */
  predicate Carries(converted: Converted, blocks: seq<OutBlock>) {
    converted.main == Multimodal(blocks) || converted.copy == Some(Multimodal(blocks))
  }

  /** The message is its tool calls alone: any other content converts to the same. */
  ghost predicate DropsContent(alias: A.Aliasing, aliases: A.AliasMap, m: Message, converted: Converted) {
    && converted.main.Declaration? && converted.copy.None?
    && forall content, text :: Convert(alias, aliases, m.(content := content, text := text)) == Ok(converted)
  }

  /** A user message keeps images in place and the others in a copy, which exactly images cause. */
  predicate KeepsImages(m: Message, converted: Converted) {
    && (converted.copy.Some? <==> m.role != Some(UserRole) && ShowsImage(Source(m)))
    && (ShowsImage(Source(m)) ==>
          && ConvertBlocks(Source(m).value.blocks).Ok?
          && HasImage(ConvertBlocks(Source(m).value.blocks).value)
          && Carries(converted, ConvertBlocks(Source(m).value.blocks).value))
  }

  lemma OthersKeepImages(alias: A.Aliasing, aliases: A.AliasMap, m: Message)
    requires Convert(alias, aliases, m).Ok? && !Declares(m)
    ensures KeepsImages(m, Convert(alias, aliases, m).value)
  {
    if Source(m).Some? && Source(m).value.Blocks? {
      var blocks := Source(m).value.blocks;
      var out := ConvertBlocks(blocks).value;
      BlocksConvertOneByOne(blocks);
      forall k | 0 <= k < |blocks| ensures out[k] in out && blocks[k] in blocks {}
    }
  }

  /**
   What becomes of the content of an accepted message: one that declares tool calls keeps none of it, and every other
   one keeps its images.
   */
  lemma ImagesAreKept(alias: A.Aliasing, aliases: A.AliasMap, m: Message)
    requires Convert(alias, aliases, m).Ok?
    ensures var converted := Convert(alias, aliases, m).value;
            if Declares(m) then DropsContent(alias, aliases, m, converted) else KeepsImages(m, converted)
  {
    if !Declares(m) {
      OthersKeepImages(alias, aliases, m);
    }
  }

  /** An image of an accepted message is lost exactly if the message declares tool calls. */
  lemma ImagesAreLostExactlyBesideCalls(alias: A.Aliasing, aliases: A.AliasMap, m: Message)
    requires Convert(alias, aliases, m).Ok? && ShowsImage(Source(m))
    ensures (exists blocks :: HasImage(blocks) && Carries(Convert(alias, aliases, m).value, blocks)) <==> !Declares(m)
  {
    ImagesAreKept(alias, aliases, m);
  }

  // ----- Repair -----

  /** The declaration synthesized for an orphaned result: every tool result of the run that starts there. */
  function OrphanCalls(alias: A.Aliasing, aliases: A.AliasMap, messages: seq<Message>, i: nat):
    (r: Result<seq<OutCall>, Refusal>)
    requires i <= |messages|
    ensures r.Ok? && i < |messages| && IsToolResult(messages[i]) ==> r.value != []
    decreases |messages| - i
  {
    if i == |messages| || !IsToolResult(messages[i]) then Ok([])
    else if messages[i].toolUseId.None? then Err(ToolWithoutId)
    else if messages[i].toolName.None? then Err(OrphanWithoutName)
    else
      match OrphanCalls(alias, aliases, messages, i + 1)
      case Err(e) => Err(e)
      case Ok(rest) =>
        var name := A.EmittedName(alias, aliases, messages[i].toolName.value);
        Ok([OutCall(messages[i].toolUseId.value, name, "{}")] + rest)
  }

  function IdsOf(calls: seq<OutCall>): set<string> {
    set c | c in calls :: c.id
  }

  /** Where an output message comes from. */
  datatype Origin = Prompt | Input(index: nat) | Repair(index: nat) | ImageCopy(index: nat)

  datatype Tagged = Tagged(origin: Origin, message: OutMessage)

  datatype Progress = Progress(output: seq<Tagged>, pending: set<string>)

  function RepairMessages(i: nat, calls: seq<OutCall>): seq<Tagged> {
    if calls == [] then [] else [Tagged(Repair(i), Declaration(calls))]
  }

  /** A converted message with its image copy. */
  function OwnMessages(i: nat, converted: Converted): seq<Tagged> {
    [Tagged(Input(i), converted.main)]
    + if converted.copy.Some? then [Tagged(ImageCopy(i), converted.copy.value)] else []
  }

  /** The declaration a tool result needs first: none while its id is pending. */
  function RepairFor(alias: A.Aliasing, aliases: A.AliasMap, messages: seq<Message>, i: nat, pending: set<string>):
    Result<seq<OutCall>, Refusal>
    requires i < |messages|
  {
    if IsToolResult(messages[i]) && messages[i].toolUseId.Some? && messages[i].toolUseId.value !in pending
    then OrphanCalls(alias, aliases, messages, i)
    else Ok([])
  }

  /** What one turn of the loop adds, and the ids that are pending after it. */
  function Step(alias: A.Aliasing, aliases: A.AliasMap, messages: seq<Message>, i: nat, pending: set<string>):
    Result<Progress, Refusal>
    requires i < |messages|
  {
    var m := messages[i];
    match RepairFor(alias, aliases, messages, i, pending)
    case Err(e) => Err(e)
    case Ok(calls) =>
      match Convert(alias, aliases, m)
      case Err(e) => Err(e)
      case Ok(converted) =>
        Ok(Progress(RepairMessages(i, calls) + OwnMessages(i, converted),
                    if Declares(m) then IdsOf(converted.main.calls)
                    else if IsToolResult(m) then pending + IdsOf(calls) - {m.toolUseId.value}
                    else {}))
  }

  function Start(prompt: string): Progress {
    Progress([Tagged(Prompt, Plain(System, prompt))], {})
  }

  function NormalizeTo(alias: A.Aliasing, aliases: A.AliasMap, prompt: string, messages: seq<Message>, n: nat):
    (r: Result<Progress, Refusal>)
    requires n <= |messages|
  {
    if n == 0 then Ok(Start(prompt))
    else
      match NormalizeTo(alias, aliases, prompt, messages, n - 1)
      case Err(e) => Err(e)
      case Ok(p) =>
        match Step(alias, aliases, messages, n - 1, p.pending)
        case Err(e) => Err(e)
        case Ok(next) => Ok(Progress(p.output + next.output, next.pending))
  }

  function Untagged(output: seq<Tagged>): (r: seq<OutMessage>)
    ensures |r| == |output| && forall j :: 0 <= j < |r| ==> r[j] == output[j].message
  {
    if output == [] then [] else Untagged(output[..|output| - 1]) + [output[|output| - 1].message]
  }

  function Normalize(alias: A.Aliasing, aliases: A.AliasMap, prompt: string, messages: seq<Message>):
    Result<seq<OutMessage>, Refusal>
  {
    match NormalizeTo(alias, aliases, prompt, messages, |messages|)
    case Err(e) => Err(e)
    case Ok(p) => Ok(Untagged(p.output))
  }

  // ----- The loop as written -----

  function After(calls: seq<OutCall>, r: Result<seq<OutCall>, Refusal>): Result<seq<OutCall>, Refusal> {
    match r
    case Err(e) => Err(e)
    case Ok(rest) => Ok(calls + rest)
  }

  lemma AfterNothing(r: Result<seq<OutCall>, Refusal>)
    ensures After([], r) == r
  {
    if r.Ok? {
      assert [] + r.value == r.value;
    }
  }

  method CollectOrphans(alias: A.Aliasing, aliases: A.AliasMap, messages: seq<Message>, start: nat)
    returns (r: Result<seq<OutCall>, Refusal>)
    requires start <= |messages|
    ensures r == OrphanCalls(alias, aliases, messages, start)
  {
    var calls: seq<OutCall> := [];
    var i := start;
    AfterNothing(OrphanCalls(alias, aliases, messages, i));
    while i < |messages| && IsToolResult(messages[i])
      invariant start <= i <= |messages|
      invariant OrphanCalls(alias, aliases, messages, start) == After(calls, OrphanCalls(alias, aliases, messages, i))
      decreases |messages| - i
    {
      var orphan := messages[i];
      if orphan.toolUseId.None? {
        return Err(ToolWithoutId);
      }
      if orphan.toolName.None? {
        return Err(OrphanWithoutName);
      }
      var call := OutCall(orphan.toolUseId.value, A.EmittedName(alias, aliases, orphan.toolName.value), "{}");
      ghost var rest := OrphanCalls(alias, aliases, messages, i + 1);
      assert rest.Ok? ==> calls + ([call] + rest.value) == (calls + [call]) + rest.value;
      calls := calls + [call];
      i := i + 1;
    }
    assert calls + [] == calls;
    r := Ok(calls);
  }

  /** The same messages without their origin. */
  function Pushed(calls: seq<OutCall>, converted: Converted): seq<OutMessage> {
    (if calls == [] then [] else [Declaration(calls)])
    + if converted.copy.Some? then [converted.main, converted.copy.value] else [converted.main]
  }

  lemma UntaggedOwn(i: nat, calls: seq<OutCall>, converted: Converted)
    ensures Untagged(RepairMessages(i, calls) + OwnMessages(i, converted)) == Pushed(calls, converted)
  {
  }

  /** Looks for the declarations a tool result needs, if its id is not pending. */
  method LookForOrphans(
    alias: A.Aliasing, aliases: A.AliasMap, messages: seq<Message>, index: nat, pending: set<string>)
    returns (r: Result<seq<OutCall>, Refusal>)
    requires index < |messages|
    ensures r == RepairFor(alias, aliases, messages, index, pending)
  {
    var m := messages[index];
    if IsToolResult(m) && m.toolUseId.Some? && m.toolUseId.value !in pending {
      r := CollectOrphans(alias, aliases, messages, index);
    } else {
      r := Ok([]);
    }
  }

  /** The body of the loop: what it pushes, and the pending ids it leaves. */
  method NormalizeNext(
    alias: A.Aliasing, aliases: A.AliasMap, messages: seq<Message>, index: nat, pending: set<string>)
    returns (r: Result<(seq<OutMessage>, set<string>), Refusal>)
    requires index < |messages|
    ensures match Step(alias, aliases, messages, index, pending)
            case Err(e) => r == Err(e)
            case Ok(next) => r == Ok((Untagged(next.output), next.pending))
  {
    var m := messages[index];
    var repair := LookForOrphans(alias, aliases, messages, index, pending);
    if repair.Err? {
      return Err(repair.error);
    }
    var calls := repair.value;
    var declared := pending + IdsOf(calls);
    var pushed := if calls == [] then [] else [Declaration(calls)];
    var converted := Convert(alias, aliases, m);
    if converted.Err? {
      return Err(converted.error);
    }
    UntaggedOwn(index, calls, converted.value);
    pushed := pushed + [converted.value.main];
    if converted.value.copy.Some? {
      pushed := pushed + [converted.value.copy.value];
    }
    assert pushed == Pushed(calls, converted.value);
    if Declares(m) {
      declared := IdsOf(converted.value.main.calls);
    } else if IsToolResult(m) {
      declared := declared - {m.toolUseId.value};
    } else {
      declared := {};
    }
    r := Ok((pushed, declared));
  }

  /** `normalize_messages`. */
  method NormalizeMessages(alias: A.Aliasing, aliases: A.AliasMap, prompt: string, messages: seq<Message>)
    returns (r: Result<seq<OutMessage>, Refusal>)
    ensures r == Normalize(alias, aliases, prompt, messages)
  {
    var output := [Plain(System, prompt)];
    var pending: set<string> := {};
    ghost var tagged := [Tagged(Prompt, Plain(System, prompt))];
    for index := 0 to |messages|
      invariant NormalizeTo(alias, aliases, prompt, messages, index) == Ok(Progress(tagged, pending))
      invariant output == Untagged(tagged)
    {
      NextTurn(alias, aliases, prompt, messages, index, tagged, pending);
      ghost var next := Step(alias, aliases, messages, index, pending);
      var pushed := NormalizeNext(alias, aliases, messages, index, pending);
      if pushed.Err? {
        return Err(pushed.error);
      }
      output := output + pushed.value.0;
      pending := pushed.value.1;
      tagged := tagged + next.value.output;
    }
    r := Ok(output);
  }

  lemma OneMore(alias: A.Aliasing, aliases: A.AliasMap, prompt: string, messages: seq<Message>, n: nat)
    requires n < |messages| && NormalizeTo(alias, aliases, prompt, messages, n).Ok?
    ensures var p := NormalizeTo(alias, aliases, prompt, messages, n).value;
            NormalizeTo(alias, aliases, prompt, messages, n + 1)
            == match Step(alias, aliases, messages, n, p.pending)
               case Err(e) => Err(e)
               case Ok(next) => Ok(Progress(p.output + next.output, next.pending))
  {
  }

  lemma NextTurn(
    alias: A.Aliasing, aliases: A.AliasMap, prompt: string, messages: seq<Message>, n: nat,
    tagged: seq<Tagged>, pending: set<string>)
    requires n < |messages| && NormalizeTo(alias, aliases, prompt, messages, n) == Ok(Progress(tagged, pending))
    ensures var step := Step(alias, aliases, messages, n, pending);
            && (step.Err? ==> Normalize(alias, aliases, prompt, messages) == Err(step.error))
            && (step.Ok? ==>
                  && NormalizeTo(alias, aliases, prompt, messages, n + 1)
                     == Ok(Progress(tagged + step.value.output, step.value.pending))
                  && Untagged(tagged + step.value.output) == Untagged(tagged) + Untagged(step.value.output))
  {
    var step := Step(alias, aliases, messages, n, pending);
    OneMore(alias, aliases, prompt, messages, n);
    if step.Err? {
      ErrorsStay(alias, aliases, prompt, messages, n + 1);
    } else {
      UntaggedConcat(tagged, step.value.output);
    }
  }

  // ----- Histories of turns -----

  /** One turn of the loop, from one progress to the next. */
  ghost predicate TurnTo(
    alias: A.Aliasing, aliases: A.AliasMap, messages: seq<Message>, i: nat, p: Progress, q: Progress)
    requires i < |messages|
  {
    var step := Step(alias, aliases, messages, i, p.pending);
    step.Ok? && q == Progress(p.output + step.value.output, step.value.pending)
  }

  /** All progresses of a loop that has done `n` turns. */
  ghost predicate Turns(
    alias: A.Aliasing, aliases: A.AliasMap, prompt: string, messages: seq<Message>, n: nat, ps: seq<Progress>)
    requires n <= |messages|
  {
    && |ps| == n + 1 && ps[0] == Start(prompt)
    && forall k :: 0 <= k < n ==> TurnTo(alias, aliases, messages, k, ps[k], ps[k + 1])
  }

  lemma {:induction false} TurnsOf(
    alias: A.Aliasing, aliases: A.AliasMap, prompt: string, messages: seq<Message>, n: nat)
    returns (ps: seq<Progress>)
    requires n <= |messages| && NormalizeTo(alias, aliases, prompt, messages, n).Ok?
    ensures Turns(alias, aliases, prompt, messages, n, ps)
    ensures NormalizeTo(alias, aliases, prompt, messages, n) == Ok(ps[n])
  {
    if n == 0 {
      ps := [Start(prompt)];
    } else {
      var q := NormalizeTo(alias, aliases, prompt, messages, n).value;
      var p := LastTurn(alias, aliases, prompt, messages, n, q);
      var before := TurnsOf(alias, aliases, prompt, messages, n - 1);
      TurnsPlus(alias, aliases, prompt, messages, n, before, q);
      ps := before + [q];
    }
  }

  lemma LastTurn(alias: A.Aliasing, aliases: A.AliasMap, prompt: string, messages: seq<Message>, n: nat, q: Progress)
    returns (p: Progress)
    requires 0 < n <= |messages| && NormalizeTo(alias, aliases, prompt, messages, n) == Ok(q)
    ensures NormalizeTo(alias, aliases, prompt, messages, n - 1) == Ok(p)
    ensures TurnTo(alias, aliases, messages, n - 1, p, q)
  {
    p := NormalizeTo(alias, aliases, prompt, messages, n - 1).value;
  }

  lemma TurnsPlus(
    alias: A.Aliasing, aliases: A.AliasMap, prompt: string, messages: seq<Message>, n: nat, ps: seq<Progress>,
    q: Progress)
    requires 0 < n <= |messages| && Turns(alias, aliases, prompt, messages, n - 1, ps)
    requires TurnTo(alias, aliases, messages, n - 1, ps[n - 1], q)
    ensures Turns(alias, aliases, prompt, messages, n, ps + [q])
  {
  }

  lemma {:induction false} ErrorsStay(
    alias: A.Aliasing, aliases: A.AliasMap, prompt: string, messages: seq<Message>, n: nat)
    requires n <= |messages| && NormalizeTo(alias, aliases, prompt, messages, n).Err?
    ensures Normalize(alias, aliases, prompt, messages) == Err(NormalizeTo(alias, aliases, prompt, messages, n).error)
    decreases |messages| - n
  {
    if n < |messages| {
      ErrorsStay(alias, aliases, prompt, messages, n + 1);
    }
  }

  // ----- Every result answers a declaration -----

  /** The ids of the tool results that follow without interruption from position `i`. */
  function RunIds(messages: seq<Message>, i: nat): set<string>
    requires i <= |messages|
    decreases |messages| - i
  {
    if i == |messages| || !IsToolResult(messages[i]) || messages[i].toolUseId.None? then {}
    else {messages[i].toolUseId.value} + RunIds(messages, i + 1)
  }

  lemma {:induction false} OrphansCoverTheRun(alias: A.Aliasing, aliases: A.AliasMap, messages: seq<Message>, i: nat)
    requires i <= |messages| && OrphanCalls(alias, aliases, messages, i).Ok?
    ensures IdsOf(OrphanCalls(alias, aliases, messages, i).value) == RunIds(messages, i)
    decreases |messages| - i
  {
    if i < |messages| && IsToolResult(messages[i]) {
      OrphansCoverTheRun(alias, aliases, messages, i + 1);
    }
  }

  /** The run of tool results is declared one by one, exactly if each of them has an id and a name. */
  lemma {:induction false} OrphansAreTheRun(alias: A.Aliasing, aliases: A.AliasMap, messages: seq<Message>, i: nat)
    returns (end: nat)
    requires i <= |messages|
    ensures i <= end <= |messages| && (end < |messages| ==> !IsToolResult(messages[end]))
    ensures forall k :: i <= k < end ==> IsToolResult(messages[k])
    ensures OrphanCalls(alias, aliases, messages, i).Ok?
            <==> forall k :: i <= k < end ==> messages[k].toolUseId.Some? && messages[k].toolName.Some?
    ensures OrphanCalls(alias, aliases, messages, i).Ok? ==>
              var calls := OrphanCalls(alias, aliases, messages, i).value;
              && |calls| == end - i
              && forall k :: i <= k < end ==>
                   calls[k - i] == OutCall(messages[k].toolUseId.value,
                                           A.EmittedName(alias, aliases, messages[k].toolName.value), "{}")
    decreases |messages| - i
  {
    if i == |messages| || !IsToolResult(messages[i]) {
      end := i;
    } else {
      end := OrphansAreTheRun(alias, aliases, messages, i + 1);
    }
  }

  /** The first result of the run without an id or a name decides the refusal. */
  lemma {:induction false} FirstBadOrphanRefuses(
    alias: A.Aliasing, aliases: A.AliasMap, messages: seq<Message>, i: nat) returns (k: nat)
    requires i <= |messages| && OrphanCalls(alias, aliases, messages, i).Err?
    ensures i <= k < |messages| && IsToolResult(messages[k])
    ensures messages[k].toolUseId.None? || messages[k].toolName.None?
    ensures forall j :: i <= j < k ==>
              IsToolResult(messages[j]) && messages[j].toolUseId.Some? && messages[j].toolName.Some?
    ensures OrphanCalls(alias, aliases, messages, i).error
         == if messages[k].toolUseId.None? then ToolWithoutId else OrphanWithoutName
    decreases |messages| - i
  {
    k := i;
    if messages[i].toolUseId.Some? && messages[i].toolName.Some? {
      k := FirstBadOrphanRefuses(alias, aliases, messages, i + 1);
    }
  }

  /**
   All these ids are declared by the last declaration of the output, and only results of other ids and user messages
   carrying images follow it.
   */
  predicate Open(output: seq<OutMessage>, ids: set<string>) {
    ids == {} || (output != [] &&
      var rest := output[..|output| - 1];
      match output[|output| - 1]
      case Declaration(calls) => ids <= IdsOf(calls)
      case ToolResult(id, _) => id !in ids && Open(rest, ids)
      case Multimodal(blocks) => HasImage(blocks) && Open(rest, ids)
      case Plain(_, _) => false)
  }

  /** Every tool result of the output answers a call that was still open. */
  predicate Answers(output: seq<OutMessage>) {
    forall j :: 0 <= j < |output| && output[j].ToolResult? ==> Open(output[..j], {output[j].id})
  }

  lemma {:induction false} OpenForFewer(output: seq<OutMessage>, ids: set<string>, fewer: set<string>)
    requires Open(output, ids) && fewer <= ids
    ensures Open(output, fewer)
  {
    if fewer != {} && !output[|output| - 1].Declaration? {
      OpenForFewer(output[..|output| - 1], ids, fewer);
    }
  }

  lemma AnswersExtend(output: seq<OutMessage>, m: OutMessage)
    requires Answers(output) && (m.ToolResult? ==> Open(output, {m.id}))
    ensures Answers(output + [m])
  {
    var longer := output + [m];
    forall j | 0 <= j < |longer| && longer[j].ToolResult? ensures Open(longer[..j], {longer[j].id}) {
      assert longer[..j] == output[..j];
      assert output[..|output|] == output;
    }
  }

  /** After one more message these ids are open. */
  predicate KeepsOpen(output: seq<OutMessage>, m: OutMessage, ids: set<string>) {
    match m
    case Declaration(calls) => ids <= IdsOf(calls)
    case ToolResult(id, _) => id !in ids && Open(output, ids)
    case Multimodal(blocks) => (HasImage(blocks) && Open(output, ids)) || ids == {}
    case Plain(_, _) => ids == {}
  }

  lemma OpenAfter(output: seq<OutMessage>, m: OutMessage, ids: set<string>)
    requires KeepsOpen(output, m, ids)
    ensures Open(output + [m], ids)
  {
    assert (output + [m])[..|output|] == output;
  }

  ghost predicate Sound(messages: seq<Message>, n: nat, output: seq<OutMessage>, pending: set<string>)
    requires n <= |messages|
  {
    Answers(output) && Open(output, pending * RunIds(messages, n))
  }

  /** What a converted message looks like, by the kind of its source. */
  predicate WellConverted(m: Message, converted: Converted) {
    && (converted.copy.Some? ==> converted.copy.value.Multimodal? && HasImage(converted.copy.value.blocks))
    && (converted.main.Declaration? <==> Declares(m))
    && (converted.main.Declaration? ==> converted.copy.None?)
    && (converted.main.ToolResult? <==> IsToolResult(m))
    && (converted.main.ToolResult? ==> m.toolUseId == Some(converted.main.id))
  }

  lemma ConvertedWell(alias: A.Aliasing, aliases: A.AliasMap, m: Message)
    ensures Convert(alias, aliases, m).Ok? ==> WellConverted(m, Convert(alias, aliases, m).value)
  {
  }

  /** The converted message itself, after its declaration is in place if it needs one. */
  lemma OwnMessagesAreSound(m: Message, output: seq<OutMessage>, converted: Converted, after: set<string>)
    requires Answers(output) && WellConverted(m, converted)
    requires KeepsOpen(output, converted.main, after)
    requires converted.main.ToolResult? ==> Open(output, {converted.main.id})
    ensures Answers(output + Pushed([], converted)) && Open(output + Pushed([], converted), after)
  {
    var longer := output + [converted.main];
    AnswersExtend(output, converted.main);
    OpenAfter(output, converted.main, after);
    if converted.copy.Some? {
      AnswersExtend(longer, converted.copy.value);
      OpenAfter(longer, converted.copy.value, after);
      assert longer + [converted.copy.value] == output + Pushed([], converted);
    } else {
      assert Pushed([], converted) == [converted.main];
    }
  }

  lemma UntaggedConcat(a: seq<Tagged>, b: seq<Tagged>)
    ensures Untagged(a + b) == Untagged(a) + Untagged(b)
  {
  }

  /** The pending ids after a message. */
  function PendingAfter(m: Message, converted: Converted, calls: seq<OutCall>, pending: set<string>): set<string>
    requires WellConverted(m, converted)
  {
    match converted.main
    case Declaration(declared) => IdsOf(declared)
    case ToolResult(id, _) => pending + IdsOf(calls) - {id}
    case _ => {}
  }

  /** A tool result that was declared, and every message that needs no declaration. */
  lemma PushedIsSound(
    messages: seq<Message>, i: nat, output: seq<OutMessage>, pending: set<string>, converted: Converted)
    requires i < |messages| && Sound(messages, i, output, pending) && WellConverted(messages[i], converted)
    requires converted.main.ToolResult? ==> converted.main.id in pending
    ensures Sound(messages, i + 1, output + Pushed([], converted), PendingAfter(messages[i], converted, [], pending))
  {
    var after := PendingAfter(messages[i], converted, [], pending) * RunIds(messages, i + 1);
    if converted.main.ToolResult? {
      OpenForFewer(output, pending * RunIds(messages, i), {converted.main.id});
      OpenForFewer(output, pending * RunIds(messages, i), after);
    }
    OwnMessagesAreSound(messages[i], output, converted, after);
  }

  /** An orphaned result behind the declaration of its whole run. */
  lemma RepairedIsSound(
    messages: seq<Message>, i: nat, output: seq<OutMessage>, pending: set<string>, converted: Converted,
    calls: seq<OutCall>)
    requires i < |messages| && Sound(messages, i, output, pending) && WellConverted(messages[i], converted)
    requires converted.main.ToolResult? && converted.main.id !in pending
    requires calls != [] && IdsOf(calls) == RunIds(messages, i)
    ensures Sound(messages, i + 1, output + Pushed(calls, converted),
                  PendingAfter(messages[i], converted, calls, pending))
  {
    var after := PendingAfter(messages[i], converted, calls, pending) * RunIds(messages, i + 1);
    var repaired := output + [Declaration(calls)];
    AnswersExtend(output, Declaration(calls));
    OpenAfter(output, Declaration(calls), {converted.main.id});
    OpenAfter(output, Declaration(calls), after);
    OwnMessagesAreSound(messages[i], repaired, converted, after);
    assert repaired + Pushed([], converted) == output + Pushed(calls, converted);
  }

  lemma StepIsSound(
    alias: A.Aliasing, aliases: A.AliasMap, messages: seq<Message>, i: nat, p: Progress, q: Progress)
    requires i < |messages| && Sound(messages, i, Untagged(p.output), p.pending)
    requires TurnTo(alias, aliases, messages, i, p, q)
    ensures Sound(messages, i + 1, Untagged(q.output), q.pending)
  {
    var converted := Convert(alias, aliases, messages[i]).value;
    var calls := RepairFor(alias, aliases, messages, i, p.pending).value;
    ConvertedWell(alias, aliases, messages[i]);
    UntaggedOwn(i, calls, converted);
    UntaggedConcat(p.output, RepairMessages(i, calls) + OwnMessages(i, converted));
    if converted.main.ToolResult? && converted.main.id !in p.pending {
      OrphansCoverTheRun(alias, aliases, messages, i);
      RepairedIsSound(messages, i, Untagged(p.output), p.pending, converted, calls);
    } else {
      PushedIsSound(messages, i, Untagged(p.output), p.pending, converted);
    }
  }

  lemma {:induction false} TurnsAreSound(
    alias: A.Aliasing, aliases: A.AliasMap, prompt: string, messages: seq<Message>, n: nat, ps: seq<Progress>)
    requires n <= |messages| && Turns(alias, aliases, prompt, messages, n, ps)
    ensures Sound(messages, n, Untagged(ps[n].output), ps[n].pending)
  {
    if n > 0 {
      TurnsAreSound(alias, aliases, prompt, messages, n - 1, ps[..n]);
      StepIsSound(alias, aliases, messages, n - 1, ps[n - 1], ps[n]);
    }
  }

  /** The position of the declaration an open id belongs to. */
  lemma {:induction false} OpenNamesADeclaration(output: seq<OutMessage>, id: string) returns (d: nat)
    requires Open(output, {id})
    ensures d < |output| && output[d].Declaration? && id in IdsOf(output[d].calls)
    ensures forall k :: d < k < |output| ==>
              || (output[k].ToolResult? && output[k].id != id)
              || (output[k].Multimodal? && HasImage(output[k].blocks))
  {
    d := |output| - 1;
    if !output[d].Declaration? {
      d := OpenNamesADeclaration(output[..|output| - 1], id);
    } else {
      assert id in {id};
    }
  }

  // ----- Theorems -----

  /**
   In every successful normalization each tool result answers a call of the nearest preceding declaration; between
   the two stand only results of other calls and user messages with images, so no call is answered twice.
   */
  lemma EveryResultAnswersItsDeclaration(
    alias: A.Aliasing, aliases: A.AliasMap, prompt: string, messages: seq<Message>, j: nat) returns (d: nat)
    requires Normalize(alias, aliases, prompt, messages).Ok?
    requires j < |Normalize(alias, aliases, prompt, messages).value|
    requires Normalize(alias, aliases, prompt, messages).value[j].ToolResult?
    ensures var output := Normalize(alias, aliases, prompt, messages).value;
            && d < j && output[d].Declaration? && output[j].id in IdsOf(output[d].calls)
            && (forall k :: d < k < j ==>
                  || (output[k].ToolResult? && output[k].id != output[j].id)
                  || (output[k].Multimodal? && HasImage(output[k].blocks)))
  {
    var output := Normalize(alias, aliases, prompt, messages).value;
    var ps := TurnsOf(alias, aliases, prompt, messages, |messages|);
    TurnsAreSound(alias, aliases, prompt, messages, |messages|, ps);
    d := OpenNamesADeclaration(output[..j], output[j].id);
    forall k | d < k < j
      ensures || (output[k].ToolResult? && output[k].id != output[j].id)
              || (output[k].Multimodal? && HasImage(output[k].blocks))
    {
      assert output[k] == output[..j][k];
    }
  }

  /** The output without synthesized declarations and image copies. */
  function Erased(output: seq<Tagged>): seq<OutMessage> {
    if output == [] then []
    else
      var last := output[|output| - 1];
      Erased(output[..|output| - 1]) + if last.origin.Prompt? || last.origin.Input? then [last.message] else []
  }

  /** What is added is recognizable: repairs are declarations, copies are user messages with images. */
  predicate Recognizable(t: Tagged) {
    && (t.origin.Repair? ==> t.message.Declaration?)
    && (t.origin.ImageCopy? ==> t.message.Multimodal? && HasImage(t.message.blocks))
  }

  lemma {:induction false} ErasedConcat(a: seq<Tagged>, b: seq<Tagged>)
    ensures Erased(a + b) == Erased(a) + Erased(b)
  {
    if b == [] {
      assert a + b == a;
    } else {
      ErasedConcat(a, b[..|b| - 1]);
      assert (a + b)[..|a + b| - 1] == a + b[..|b| - 1];
    }
  }

  lemma AddedErases(i: nat, calls: seq<OutCall>, converted: Converted)
    ensures Erased(RepairMessages(i, calls) + OwnMessages(i, converted)) == [converted.main]
  {
    var repair := RepairMessages(i, calls);
    var main := [Tagged(Input(i), converted.main)];
    var copy := if converted.copy.Some? then [Tagged(ImageCopy(i), converted.copy.value)] else [];
    ErasedConcat(main, copy);
    ErasedConcat(repair, main + copy);
  }

  lemma StepAddsTheInput(alias: A.Aliasing, aliases: A.AliasMap, messages: seq<Message>, i: nat, pending: set<string>)
    requires i < |messages| && Step(alias, aliases, messages, i, pending).Ok?
    ensures var next := Step(alias, aliases, messages, i, pending).value;
            && Erased(next.output) == [Convert(alias, aliases, messages[i]).value.main]
            && forall t :: t in next.output ==> Recognizable(t)
  {
    var converted := Convert(alias, aliases, messages[i]).value;
    ConvertedWell(alias, aliases, messages[i]);
    AddedErases(i, RepairFor(alias, aliases, messages, i, pending).value, converted);
  }

  /** The message an input message itself becomes. */
  predicate GivesBack(alias: A.Aliasing, aliases: A.AliasMap, m: Message, output: OutMessage) {
    Convert(alias, aliases, m).Ok? && output == Convert(alias, aliases, m).value.main
  }

  /** The system prompt, then each message itself, one to one and in order. */
  predicate GivesAllBack(
    alias: A.Aliasing, aliases: A.AliasMap, prompt: string, messages: seq<Message>, n: nat, erased: seq<OutMessage>)
    requires n <= |messages|
  {
    && |erased| == n + 1 && erased[0] == Plain(System, prompt)
    && forall k :: 0 <= k < n ==> GivesBack(alias, aliases, messages[k], erased[k + 1])
  }

  lemma OneMoreBack(
    alias: A.Aliasing, aliases: A.AliasMap, prompt: string, messages: seq<Message>, n: nat, erased: seq<OutMessage>,
    main: OutMessage)
    requires n < |messages| && GivesAllBack(alias, aliases, prompt, messages, n, erased)
    requires GivesBack(alias, aliases, messages[n], main)
    ensures GivesAllBack(alias, aliases, prompt, messages, n + 1, erased + [main])
  {
  }

  lemma TurnErases(alias: A.Aliasing, aliases: A.AliasMap, messages: seq<Message>, i: nat, p: Progress, q: Progress)
    returns (main: OutMessage)
    requires i < |messages| && TurnTo(alias, aliases, messages, i, p, q)
    ensures GivesBack(alias, aliases, messages[i], main) && Erased(q.output) == Erased(p.output) + [main]
  {
    main := Convert(alias, aliases, messages[i]).value.main;
    StepAddsTheInput(alias, aliases, messages, i, p.pending);
    ErasedConcat(p.output, Step(alias, aliases, messages, i, p.pending).value.output);
  }

  lemma OnlyThePrompt(alias: A.Aliasing, aliases: A.AliasMap, prompt: string, messages: seq<Message>)
    ensures GivesAllBack(alias, aliases, prompt, messages, 0, Erased(Start(prompt).output))
  {
    assert [Tagged(Prompt, Plain(System, prompt))][..0] == [];
  }

  lemma {:induction false} TurnsGiveAllBack(
    alias: A.Aliasing, aliases: A.AliasMap, prompt: string, messages: seq<Message>, n: nat, ps: seq<Progress>)
    requires n <= |messages| && Turns(alias, aliases, prompt, messages, n, ps)
    ensures GivesAllBack(alias, aliases, prompt, messages, n, Erased(ps[n].output))
  {
    if n > 0 {
      TurnsGiveAllBack(alias, aliases, prompt, messages, n - 1, ps[..n]);
      var main := TurnErases(alias, aliases, messages, n - 1, ps[n - 1], ps[n]);
      OneMoreBack(alias, aliases, prompt, messages, n - 1, Erased(ps[n - 1].output), main);
    } else {
      OnlyThePrompt(alias, aliases, prompt, messages);
    }
  }

  lemma TurnIsRecognizable(
    alias: A.Aliasing, aliases: A.AliasMap, messages: seq<Message>, i: nat, p: Progress, q: Progress)
    requires i < |messages| && TurnTo(alias, aliases, messages, i, p, q)
    requires forall t :: t in p.output ==> Recognizable(t)
    ensures forall t :: t in q.output ==> Recognizable(t)
  {
    StepAddsTheInput(alias, aliases, messages, i, p.pending);
  }

  lemma {:induction false} TurnsAreRecognizable(
    alias: A.Aliasing, aliases: A.AliasMap, prompt: string, messages: seq<Message>, n: nat, ps: seq<Progress>)
    requires n <= |messages| && Turns(alias, aliases, prompt, messages, n, ps)
    ensures forall t :: t in ps[n].output ==> Recognizable(t)
  {
    if n > 0 {
      TurnsAreRecognizable(alias, aliases, prompt, messages, n - 1, ps[..n]);
      TurnIsRecognizable(alias, aliases, messages, n - 1, ps[n - 1], ps[n]);
    }
  }

  /**
   Erasing what was synthesized gives back the input: after the system prompt, each input message's own conversion,
   one to one and in order, independent of the repairs around it. Only declarations and user messages with images
   are synthesized.
   */
  lemma ErasureGivesTheInputBack(alias: A.Aliasing, aliases: A.AliasMap, prompt: string, messages: seq<Message>)
    returns (tagged: seq<Tagged>)
    requires Normalize(alias, aliases, prompt, messages).Ok?
    ensures Normalize(alias, aliases, prompt, messages) == Ok(Untagged(tagged))
    ensures GivesAllBack(alias, aliases, prompt, messages, |messages|, Erased(tagged))
    ensures forall t :: t in tagged ==> Recognizable(t)
  {
    var ps := TurnsOf(alias, aliases, prompt, messages, |messages|);
    TurnsGiveAllBack(alias, aliases, prompt, messages, |messages|, ps);
    TurnsAreRecognizable(alias, aliases, prompt, messages, |messages|, ps);
    tagged := ps[|messages|].output;
  }

  /** Where every tool result carries its id and its name, no history is refused for being compacted. */
  predicate WellNamed(messages: seq<Message>) {
    forall m :: m in messages && IsToolResult(m) ==> m.toolName.Some? && m.toolUseId.Some?
  }

  lemma StepAccepted(alias: A.Aliasing, aliases: A.AliasMap, messages: seq<Message>, i: nat, pending: set<string>)
    requires i < |messages| && WellNamed(messages)
    ensures Step(alias, aliases, messages, i, pending).Ok? <==> Convert(alias, aliases, messages[i]).Ok?
  {
    NamedOrphansAreRepaired(alias, aliases, messages, i);
  }

  predicate AllConvert(alias: A.Aliasing, aliases: A.AliasMap, messages: seq<Message>, n: nat)
    requires n <= |messages|
  {
    n == 0 || (AllConvert(alias, aliases, messages, n - 1) && Convert(alias, aliases, messages[n - 1]).Ok?)
  }

  /** With such a history, exactly the messages that convert on their own are accepted. */
  lemma {:induction false} NamedHistoriesAreAccepted(
    alias: A.Aliasing, aliases: A.AliasMap, prompt: string, messages: seq<Message>, n: nat)
    requires n <= |messages| && WellNamed(messages)
    ensures NormalizeTo(alias, aliases, prompt, messages, n).Ok? <==> AllConvert(alias, aliases, messages, n)
  {
    if n > 0 {
      NamedHistoriesAreAccepted(alias, aliases, prompt, messages, n - 1);
      var before := NormalizeTo(alias, aliases, prompt, messages, n - 1);
      if before.Ok? {
        StepAccepted(alias, aliases, messages, n - 1, before.value.pending);
      }
    }
  }

  lemma {:induction false} NamedOrphansAreRepaired(
    alias: A.Aliasing, aliases: A.AliasMap, messages: seq<Message>, i: nat)
    requires i <= |messages| && WellNamed(messages)
    ensures OrphanCalls(alias, aliases, messages, i).Ok?
    decreases |messages| - i
  {
    if i < |messages| {
      NamedOrphansAreRepaired(alias, aliases, messages, i + 1);
    }
  }

  // ----- When nothing needs repair -----

  /** The ids an assistant message declares. */
  function DeclaredIds(m: Message): set<string> {
    if m.toolCalls.None? then {} else set c | c in m.toolCalls.value && c.id.Some? :: c.id.value
  }

  /** A tool result of a call that the nearest assistant message declares, with only results of other calls between. */
  ghost predicate Answered(messages: seq<Message>, i: nat, d: nat) {
    && d < i < |messages| && messages[i].toolUseId.Some?
    && Declares(messages[d]) && messages[i].toolUseId.value in DeclaredIds(messages[d])
    && forall k :: d < k < i ==> IsToolResult(messages[k]) && messages[k].toolUseId != messages[i].toolUseId
  }

  /** The first `n` messages are as they were before any compaction: every result answers a call, once. */
  ghost predicate WellDeclared(messages: seq<Message>, n: nat)
    requires n <= |messages|
  {
    forall i: nat :: i < n && IsToolResult(messages[i]) ==> exists d: nat :: Answered(messages, i, d)
  }

  /** The declared ids that are not answered yet. */
  function Unanswered(messages: seq<Message>, n: nat): set<string>
    requires n <= |messages|
  {
    if n == 0 then {}
    else
      var m := messages[n - 1];
      if Declares(m) then DeclaredIds(m)
      else if IsToolResult(m) then
        Unanswered(messages, n - 1) - if m.toolUseId.Some? then {m.toolUseId.value} else {}
      else {}
  }

  ghost predicate DeclaredBefore(messages: seq<Message>, i: nat, id: string, d: nat)
    requires i <= |messages|
  {
    && d < i && Declares(messages[d]) && id in DeclaredIds(messages[d])
    && forall k :: d < k < i ==> IsToolResult(messages[k]) && messages[k].toolUseId != Some(id)
  }

  lemma {:induction false} UnansweredExactly(messages: seq<Message>, i: nat, id: string)
    requires i <= |messages|
    ensures id in Unanswered(messages, i) <==> exists d: nat :: DeclaredBefore(messages, i, id, d)
  {
    if i > 0 {
      var last: nat := i - 1;
      var m := messages[last];
      UnansweredExactly(messages, last, id);
      if Declares(m) && id in DeclaredIds(m) {
        assert DeclaredBefore(messages, i, id, last);
      } else if IsToolResult(m) && m.toolUseId != Some(id) {
        if d: nat :| DeclaredBefore(messages, last, id, d) {
          assert DeclaredBefore(messages, i, id, d);
        }
      }
      if d: nat :| DeclaredBefore(messages, i, id, d) {
        assert d < last ==> DeclaredBefore(messages, last, id, d);
      }
    }
  }

  lemma {:induction false} AnsweredExactly(messages: seq<Message>, i: nat)
    requires i < |messages| && messages[i].toolUseId.Some?
    ensures (exists d: nat :: Answered(messages, i, d)) <==> messages[i].toolUseId.value in Unanswered(messages, i)
  {
    var id := messages[i].toolUseId.value;
    UnansweredExactly(messages, i, id);
    if d: nat :| Answered(messages, i, d) {
      assert DeclaredBefore(messages, i, id, d);
    }
    if d: nat :| DeclaredBefore(messages, i, id, d) {
      assert Answered(messages, i, d);
    }
  }

  predicate NoRepairs(output: seq<Tagged>) {
    forall t :: t in output ==> !t.origin.Repair?
  }

  /** The ids sent are the ids declared. */
  lemma {:induction false} IdsOfCalls(alias: A.Aliasing, aliases: A.AliasMap, calls: seq<Call>)
    requires ConvertCalls(alias, aliases, calls).Ok?
    ensures IdsOf(ConvertCalls(alias, aliases, calls).value) == set c | c in calls && c.id.Some? :: c.id.value
  {
    if calls != [] {
      var shorter, last := calls[..|calls| - 1], calls[|calls| - 1];
      var sent := ConvertCalls(alias, aliases, shorter).value;
      IdsOfCalls(alias, aliases, shorter);
      var o := ConvertCalls(alias, aliases, calls).value[|sent|];
      assert ConvertCalls(alias, aliases, calls).value == sent + [o] && calls == shorter + [last];
      IdsOfOneMore(sent, o);
      OneMoreDeclared(shorter, last);
    }
  }

  lemma IdsOfOneMore(calls: seq<OutCall>, o: OutCall)
    ensures IdsOf(calls + [o]) == IdsOf(calls) + {o.id}
  {
    forall c ensures c in calls + [o] <==> c in calls || c == o {}
    assert o in calls + [o];
  }

  lemma OneMoreDeclared(calls: seq<Call>, last: Call)
    requires last.id.Some?
    ensures (set c | c in calls + [last] && c.id.Some? :: c.id.value)
         == (set c | c in calls && c.id.Some? :: c.id.value) + {last.id.value}
  {
    forall c ensures c in calls + [last] <==> c in calls || c == last {}
    assert last in calls + [last];
  }

  /** While nothing was repaired the pending ids are the unanswered ones, and the next turn repairs only an orphan. */
  lemma NextNeedsRepairExactly(
    alias: A.Aliasing, aliases: A.AliasMap, messages: seq<Message>, i: nat, pending: set<string>)
    requires i < |messages| && pending == Unanswered(messages, i)
    requires Step(alias, aliases, messages, i, pending).Ok?
    ensures var next := Step(alias, aliases, messages, i, pending).value;
            && (NoRepairs(next.output) <==> IsToolResult(messages[i]) ==> exists d: nat :: Answered(messages, i, d))
            && (NoRepairs(next.output) ==> next.pending == Unanswered(messages, i + 1))
  {
    var m := messages[i];
    var calls := RepairFor(alias, aliases, messages, i, pending).value;
    var next := Step(alias, aliases, messages, i, pending).value;
    if calls != [] {
      assert Tagged(Repair(i), Declaration(calls)) in next.output;
    }
    if IsToolResult(m) {
      AnsweredExactly(messages, i);
    }
    if Declares(m) {
      IdsOfCalls(alias, aliases, m.toolCalls.value);
    }
  }

  lemma NoRepairsInBoth(a: seq<Tagged>, b: seq<Tagged>)
    ensures NoRepairs(a + b) <==> NoRepairs(a) && NoRepairs(b)
  {
    forall t ensures t in a + b <==> t in a || t in b {}
  }

  lemma {:induction false} OneMoreDeclares(messages: seq<Message>, n: nat)
    requires n < |messages|
    ensures WellDeclared(messages, n + 1)
            <==> WellDeclared(messages, n) && (IsToolResult(messages[n]) ==> exists d: nat :: Answered(messages, n, d))
  {
  }

  lemma {:induction false} RepairedExactlyWhereOrphaned(
    alias: A.Aliasing, aliases: A.AliasMap, prompt: string, messages: seq<Message>, n: nat)
    requires n <= |messages| && NormalizeTo(alias, aliases, prompt, messages, n).Ok?
    ensures var p := NormalizeTo(alias, aliases, prompt, messages, n).value;
            && (NoRepairs(p.output) <==> WellDeclared(messages, n))
            && (NoRepairs(p.output) ==> p.pending == Unanswered(messages, n))
  {
    if n > 0 {
      RepairedExactlyWhereOrphaned(alias, aliases, prompt, messages, n - 1);
      var p := NormalizeTo(alias, aliases, prompt, messages, n - 1).value;
      OneMore(alias, aliases, prompt, messages, n - 1);
      NoRepairsInBoth(p.output, Step(alias, aliases, messages, n - 1, p.pending).value.output);
      OneMoreDeclares(messages, n - 1);
      if NoRepairs(p.output) {
        NextNeedsRepairExactly(alias, aliases, messages, n - 1, p.pending);
      }
    }
  }

  lemma DeclaredStepIsAccepted(
    alias: A.Aliasing, aliases: A.AliasMap, messages: seq<Message>, i: nat, pending: set<string>)
    requires i < |messages| && pending == Unanswered(messages, i)
    requires IsToolResult(messages[i]) ==> exists d: nat :: Answered(messages, i, d)
    ensures Step(alias, aliases, messages, i, pending).Ok? <==> Convert(alias, aliases, messages[i]).Ok?
  {
    if IsToolResult(messages[i]) {
      AnsweredExactly(messages, i);
    }
  }

  lemma {:induction false} DeclaredPrefixIsAccepted(
    alias: A.Aliasing, aliases: A.AliasMap, prompt: string, messages: seq<Message>, n: nat)
    requires n <= |messages| && WellDeclared(messages, n)
    ensures NormalizeTo(alias, aliases, prompt, messages, n).Ok? <==> AllConvert(alias, aliases, messages, n)
  {
    if n > 0 {
      DeclaredPrefixIsAccepted(alias, aliases, prompt, messages, n - 1);
      var p := NormalizeTo(alias, aliases, prompt, messages, n - 1);
      if p.Ok? {
        RepairedExactlyWhereOrphaned(alias, aliases, prompt, messages, n - 1);
        DeclaredStepIsAccepted(alias, aliases, messages, n - 1, p.value.pending);
      }
    }
  }

  /**
   A history whose results all answer a declared call, once, needs no tool names and no repair: it is accepted exactly
   if each message converts, and nothing is synthesized but image copies. Every other accepted history is repaired.
   */
  lemma DeclaredHistoriesNeedNoRepair(alias: A.Aliasing, aliases: A.AliasMap, prompt: string, messages: seq<Message>)
    ensures WellDeclared(messages, |messages|) ==>
              (Normalize(alias, aliases, prompt, messages).Ok? <==> AllConvert(alias, aliases, messages, |messages|))
    ensures Normalize(alias, aliases, prompt, messages).Ok? ==>
              (NoRepairs(NormalizeTo(alias, aliases, prompt, messages, |messages|).value.output)
               <==> WellDeclared(messages, |messages|))
  {
    if WellDeclared(messages, |messages|) {
      DeclaredPrefixIsAccepted(alias, aliases, prompt, messages, |messages|);
    }
    if Normalize(alias, aliases, prompt, messages).Ok? {
      RepairedExactlyWhereOrphaned(alias, aliases, prompt, messages, |messages|);
    }
  }

  // ----- The names that are emitted -----

  /** Every call carries the emitted form of a name the history mentions. */
  predicate NamedAfter(alias: A.Aliasing, aliases: A.AliasMap, names: set<string>, calls: seq<OutCall>) {
    forall c :: c in calls ==> exists n :: n in names && c.name == A.EmittedName(alias, aliases, n)
  }

  predicate AllNamedAfter(alias: A.Aliasing, aliases: A.AliasMap, names: set<string>, output: seq<Tagged>) {
    forall t :: t in output && t.message.Declaration? ==> NamedAfter(alias, aliases, names, t.message.calls)
  }

  /** The names cover what the history mentions. */
  ghost predicate Mentioned(messages: seq<Message>, names: set<string>) {
    forall m, n :: m in messages && n in HistoricalNames(m) ==> n in names
  }

  lemma {:induction false} ConvertedCallsAreNamed(
    alias: A.Aliasing, aliases: A.AliasMap, names: set<string>, calls: seq<Call>)
    requires forall c :: c in calls && c.name.Some? ==> c.name.value in names
    ensures ConvertCalls(alias, aliases, calls).Ok?
            ==> NamedAfter(alias, aliases, names, ConvertCalls(alias, aliases, calls).value)
  {
    if calls != [] {
      ConvertedCallsAreNamed(alias, aliases, names, calls[..|calls| - 1]);
    }
  }

  lemma {:induction false} OrphanCallsAreNamed(
    alias: A.Aliasing, aliases: A.AliasMap, names: set<string>, messages: seq<Message>, i: nat)
    requires i <= |messages|
    requires forall m :: m in messages && m.toolName.Some? ==> m.toolName.value in names
    ensures OrphanCalls(alias, aliases, messages, i).Ok?
            ==> NamedAfter(alias, aliases, names, OrphanCalls(alias, aliases, messages, i).value)
    decreases |messages| - i
  {
    if i < |messages| {
      OrphanCallsAreNamed(alias, aliases, names, messages, i + 1);
    }
  }

  lemma StepIsNamed(
    alias: A.Aliasing, aliases: A.AliasMap, names: set<string>, messages: seq<Message>, i: nat, pending: set<string>)
    requires i < |messages| && Step(alias, aliases, messages, i, pending).Ok? && Mentioned(messages, names)
    ensures AllNamedAfter(alias, aliases, names, Step(alias, aliases, messages, i, pending).value.output)
  {
    var m := messages[i];
    if m.toolCalls.Some? {
      forall c | c in m.toolCalls.value && c.name.Some? ensures c.name.value in names {
        assert c.name.value in HistoricalNames(m);
      }
      ConvertedCallsAreNamed(alias, aliases, names, m.toolCalls.value);
    }
    forall other | other in messages && other.toolName.Some? ensures other.toolName.value in names {
      assert other.toolName.value in HistoricalNames(other);
    }
    OrphanCallsAreNamed(alias, aliases, names, messages, i);
  }

  lemma NamedConcat(alias: A.Aliasing, aliases: A.AliasMap, names: set<string>, a: seq<Tagged>, b: seq<Tagged>)
    requires AllNamedAfter(alias, aliases, names, a) && AllNamedAfter(alias, aliases, names, b)
    ensures AllNamedAfter(alias, aliases, names, a + b)
  {
  }

  lemma TurnIsNamed(
    alias: A.Aliasing, aliases: A.AliasMap, names: set<string>, messages: seq<Message>, i: nat, p: Progress,
    q: Progress)
    requires i < |messages| && TurnTo(alias, aliases, messages, i, p, q)
    requires Mentioned(messages, names) && AllNamedAfter(alias, aliases, names, p.output)
    ensures AllNamedAfter(alias, aliases, names, q.output)
  {
    StepIsNamed(alias, aliases, names, messages, i, p.pending);
    NamedConcat(alias, aliases, names, p.output, Step(alias, aliases, messages, i, p.pending).value.output);
  }

  lemma {:induction false} TurnsAreNamed(
    alias: A.Aliasing, aliases: A.AliasMap, names: set<string>, prompt: string, messages: seq<Message>, n: nat,
    ps: seq<Progress>)
    requires n <= |messages| && Turns(alias, aliases, prompt, messages, n, ps) && Mentioned(messages, names)
    ensures AllNamedAfter(alias, aliases, names, ps[n].output)
  {
    if n > 0 {
      TurnsAreNamed(alias, aliases, names, prompt, messages, n - 1, ps[..n]);
      TurnIsNamed(alias, aliases, names, messages, n - 1, ps[n - 1], ps[n]);
    }
  }

  /**
   With the maps built for the request, every name of a declared call, whether from a past call or an orphaned
   result, reads back to a name the history mentions.
   */
  lemma DeclaredNamesReadBack(
    alias: A.Aliasing, aliases: A.AliasMap, tools: set<string>, prompt: string, messages: seq<Message>,
    j: nat, call: OutCall)
    requires A.Describes(alias, aliases, tools, A.SetOf(AllHistoricalNames(messages)))
    requires Normalize(alias, aliases, prompt, messages).Ok?
    requires j < |Normalize(alias, aliases, prompt, messages).value|
    requires Normalize(alias, aliases, prompt, messages).value[j].Declaration?
    requires call in Normalize(alias, aliases, prompt, messages).value[j].calls
    ensures A.RuntimeName(aliases, call.name).Some?
    ensures A.RuntimeName(aliases, call.name).value in AllHistoricalNames(messages)
    ensures call.name == A.EmittedName(alias, aliases, A.RuntimeName(aliases, call.name).value)
  {
    var names := A.SetOf(AllHistoricalNames(messages));
    var ps := TurnsOf(alias, aliases, prompt, messages, |messages|);
    TurnsAreNamed(alias, aliases, names, prompt, messages, |messages|, ps);
    var output := ps[|messages|].output;
    assert NamedAfter(alias, aliases, names, output[j].message.calls);
    var n :| n in names && call.name == A.EmittedName(alias, aliases, n);
    A.EmittedNamesReadBack(alias, aliases, tools, names, n, n);
  }
}
