/**
 Parsing a provider's answer: tool calls are read back through the alias map and checked against the tools the
 request offers. A call to a tool that only the history knows is replaced by a recovery text.
 */
module ProviderResponse {
  import opened Prelude
  import opened TurnInput
  import opened ToolAliases

  const MAX_JSON_STRING_BYTES: nat := 256 * 1024

  datatype RawCall = RawCall(id: Option<string>, name: Option<string>, arguments: Option<string>)

  datatype RawMessage = RawMessage(toolCalls: Option<seq<RawCall>>, content: Option<string>)

  datatype RawChoice = RawChoice(message: Option<RawMessage>, finishReason: Option<string>)

  datatype RawUsage = RawUsage(promptTokens: Option<nat>, completionTokens: Option<nat>, cachedTokens: Option<nat>)

  datatype RawResponse = RawResponse(choices: Option<seq<RawChoice>>, usage: Option<RawUsage>)

  datatype ToolCall = ToolCall(id: string, name: string, input: Json)

  datatype FinishReason = PolicyRecovery | Reported(reason: string)

  datatype ProviderTurn = ProviderTurn(
    toolCalls: seq<ToolCall>,
    text: Option<string>,
    finishReason: FinishReason,
    inputTokens: nat,
    outputTokens: nat,
    cachedInputTokens: nat)

  datatype ParseError = InvalidResponse | UnknownTool | ResponseTooLarge

  const RECOVERY_TEXT :=
    "[runtime_tool_policy_recovery] The requested observation tool is no longer available because its repair budget "
    + "is exhausted. Use only the currently available source-mutation tools, then call preview.publish."

  /** JSON parsing, the depth and size limits on values, and the byte length of text. */
  datatype Codec = Codec(parse: string -> Option<Json>, withinLimits: Json -> bool, byteLength: string -> nat)

  ghost function ReadCall(codec: Codec, m: AliasMap, call: RawCall): Result<ToolCall, ParseError> {
    var arguments := if call.arguments.Some? then call.arguments.value else "{}";
    if call.id.None? || call.name.None? then Err(InvalidResponse)
    else if RuntimeName(m, call.name.value).None? then Err(UnknownTool)
    else if codec.byteLength(arguments) > MAX_JSON_STRING_BYTES then Err(ResponseTooLarge)
    else if codec.parse(arguments).None? then Err(InvalidResponse)
    else Ok(ToolCall(call.id.value, RuntimeName(m, call.name.value).value, codec.parse(arguments).value))
  }

  /** All calls, or the error of the first one that cannot be read. */
  ghost function ReadCalls(codec: Codec, m: AliasMap, calls: seq<RawCall>): Result<seq<ToolCall>, ParseError> {
    if calls == [] then Ok([])
    else
      match ReadCalls(codec, m, calls[..|calls| - 1])
      case Err(e) => Err(e)
      case Ok(rest) =>
        match ReadCall(codec, m, calls[|calls| - 1])
        case Err(e) => Err(e)
        case Ok(call) => Ok(rest + [call])
  }

  method ParseCall(codec: Codec, m: AliasMap, call: RawCall) returns (r: Result<ToolCall, ParseError>)
    ensures r == ReadCall(codec, m, call)
  {
    var arguments := if call.arguments.Some? then call.arguments.value else "{}";
    if call.id.None? || call.name.None? {
      return Err(InvalidResponse);
    }
    var name := LookUpRuntimeName(m, call.name.value);
    if name.None? {
      return Err(UnknownTool);
    }
    if codec.byteLength(arguments) > MAX_JSON_STRING_BYTES {
      return Err(ResponseTooLarge);
    }
    var input := codec.parse(arguments);
    if input.None? {
      return Err(InvalidResponse);
    }
    r := Ok(ToolCall(call.id.value, name.value, input.value));
  }

  method ParseCalls(codec: Codec, m: AliasMap, calls: seq<RawCall>) returns (r: Result<seq<ToolCall>, ParseError>)
    ensures r == ReadCalls(codec, m, calls)
  {
    var read: seq<ToolCall> := [];
    for i := 0 to |calls|
      invariant ReadCalls(codec, m, calls[..i]) == Ok(read)
    {
      assert calls[..i + 1][..i] == calls[..i];
      var call := ParseCall(codec, m, calls[i]);
      if call.Err? {
        FirstErrorWins(codec, m, calls, i + 1);
        return Err(call.error);
      }
      read := read + [call.value];
    }
    assert calls[..|calls|] == calls;
    r := Ok(read);
  }

  lemma {:induction false} FirstErrorWins(codec: Codec, m: AliasMap, calls: seq<RawCall>, n: nat)
    requires n <= |calls| && ReadCalls(codec, m, calls[..n]).Err?
    ensures ReadCalls(codec, m, calls) == ReadCalls(codec, m, calls[..n])
  {
    if n < |calls| {
      var init := calls[..|calls| - 1];
      assert init[..n] == calls[..n];
      FirstErrorWins(codec, m, init, n);
    } else {
      assert calls[..n] == calls;
    }
  }

  /** A call as it was read: its id, the runtime name behind its name, and its arguments as a value. */
  ghost predicate ReadAs(codec: Codec, m: AliasMap, call: RawCall, read: ToolCall) {
    && call.id == Some(read.id)
    && call.name.Some? && RuntimeName(m, call.name.value) == Some(read.name)
    && codec.parse(ArgumentsOf(call)) == Some(read.input)
  }

  function ArgumentsOf(call: RawCall): string {
    if call.arguments.Some? then call.arguments.value else "{}"
  }

  /** What keeps a call from being read, in the order in which it is noticed. */
  ghost function Obstacle(codec: Codec, m: AliasMap, call: RawCall): Option<ParseError> {
    if call.id.None? || call.name.None? then Some(InvalidResponse)
    else if RuntimeName(m, call.name.value).None? then Some(UnknownTool)
    else if codec.byteLength(ArgumentsOf(call)) > MAX_JSON_STRING_BYTES then Some(ResponseTooLarge)
    else if codec.parse(ArgumentsOf(call)).None? then Some(InvalidResponse)
    else None
  }

  lemma CallIsReadExactly(codec: Codec, m: AliasMap, call: RawCall)
    ensures match ReadCall(codec, m, call)
            case Ok(read) => Obstacle(codec, m, call).None? && ReadAs(codec, m, call, read)
            case Err(e) => Obstacle(codec, m, call) == Some(e)
  {
  }

  /** Nothing is in the way of any of these calls. */
  ghost predicate NoObstacles(codec: Codec, m: AliasMap, calls: seq<RawCall>) {
    forall call :: call in calls ==> Obstacle(codec, m, call).None?
  }

  ghost predicate AllReadAs(codec: Codec, m: AliasMap, calls: seq<RawCall>, read: seq<ToolCall>) {
    |read| == |calls| && forall k :: 0 <= k < |calls| ==> ReadAs(codec, m, calls[k], read[k])
  }

  lemma OneMoreRead(codec: Codec, m: AliasMap, calls: seq<RawCall>, call: RawCall, read: seq<ToolCall>, c: ToolCall)
    ensures NoObstacles(codec, m, calls + [call])
            <==> NoObstacles(codec, m, calls) && Obstacle(codec, m, call).None?
    ensures AllReadAs(codec, m, calls, read) && ReadAs(codec, m, call, c) ==>
              AllReadAs(codec, m, calls + [call], read + [c])
  {
    forall x ensures x in calls + [call] <==> x in calls || x == call {}
    if AllReadAs(codec, m, calls, read) && ReadAs(codec, m, call, c) {
      forall k | 0 <= k < |calls| + 1 ensures ReadAs(codec, m, (calls + [call])[k], (read + [c])[k]) {
        assert k < |calls| ==> (calls + [call])[k] == calls[k] && (read + [c])[k] == read[k];
      }
    }
  }

  /** Calls are read one by one, exactly if nothing is in the way of any of them. */
  lemma {:induction false} CallsAreReadOneByOne(codec: Codec, m: AliasMap, calls: seq<RawCall>)
    ensures ReadCalls(codec, m, calls).Ok? <==> NoObstacles(codec, m, calls)
    ensures ReadCalls(codec, m, calls).Ok? ==> AllReadAs(codec, m, calls, ReadCalls(codec, m, calls).value)
  {
    if calls != [] {
      var shorter, last := calls[..|calls| - 1], calls[|calls| - 1];
      assert calls == shorter + [last];
      CallsAreReadOneByOne(codec, m, shorter);
      CallIsReadExactly(codec, m, last);
      var before, next := ReadCalls(codec, m, shorter), ReadCall(codec, m, last);
      OneMoreRead(codec, m, shorter, last, if before.Ok? then before.value else [],
                  if next.Ok? then next.value else ToolCall("", "", ""));
    }
  }

  /** Otherwise the first obstacle is the answer. */
  lemma {:induction false} FirstObstacleIsReported(codec: Codec, m: AliasMap, calls: seq<RawCall>) returns (k: nat)
    requires ReadCalls(codec, m, calls).Err?
    ensures k < |calls| && Obstacle(codec, m, calls[k]) == Some(ReadCalls(codec, m, calls).error)
    ensures NoObstacles(codec, m, calls[..k])
  {
    var shorter, last := calls[..|calls| - 1], calls[|calls| - 1];
    if ReadCalls(codec, m, shorter).Err? {
      k := FirstObstacleIsReported(codec, m, shorter);
      assert shorter[..k] == calls[..k];
    } else {
      CallsAreReadOneByOne(codec, m, shorter);
      CallIsReadExactly(codec, m, last);
      k := |calls| - 1;
    }
  }

  predicate DistinctIds(calls: seq<ToolCall>) {
    forall i, j :: 0 <= i < j < |calls| ==> calls[i].id != calls[j].id
  }

  predicate Offered(tools: seq<string>, calls: seq<ToolCall>) {
    forall call :: call in calls ==> call.name in tools
  }

  method HasDuplicateIds(calls: seq<ToolCall>) returns (duplicate: bool)
    ensures duplicate <==> !DistinctIds(calls)
  {
    var seen: set<string> := {};
    for i := 0 to |calls|
      invariant seen == set j | 0 <= j < i :: calls[j].id
      invariant DistinctIds(calls[..i])
    {
      if calls[i].id in seen {
        return true;
      }
      seen := seen + {calls[i].id};
      assert forall j :: 0 <= j < i ==> calls[j].id in seen;
    }
    assert calls[..|calls|] == calls;
    duplicate := false;
  }

  function CallsOf(message: RawMessage): seq<RawCall> {
    if message.toolCalls.Some? then message.toolCalls.value else []
  }

  /** The content, where there is any. */
  function TextOf(message: RawMessage): (text: Option<string>)
    ensures text.Some? ==> message.content == text && text.value != ""
    ensures text.None? ==> message.content in {None, Some("")}
  {
    if message.content.Some? && message.content.value != "" then message.content else None
  }

  predicate HasMessage(value: RawResponse) {
    value.choices.Some? && value.choices.value != [] && value.choices.value[0].message.Some?
  }

  predicate HasUsage(value: RawResponse) {
    value.usage.Some? && value.usage.value.promptTokens.Some? && value.usage.value.completionTokens.Some?
  }

  /** An answer whose calls are passed on. */
  predicate WellFormed(codec: Codec, calls: seq<ToolCall>, text: Option<string>) {
    && DistinctIds(calls)
    && (forall call :: call in calls ==> codec.withinLimits(call.input))
    && (text.Some? ==> codec.byteLength(text.value) <= MAX_JSON_STRING_BYTES)
    && (calls != [] || text.Some?)
  }

  /** Everything that makes an answer a turn. */
  ghost predicate Acceptable(codec: Codec, m: AliasMap, tools: seq<string>, value: RawResponse) {
    && HasMessage(value) && HasUsage(value)
    && var message := value.choices.value[0].message.value;
    && var read := ReadCalls(codec, m, CallsOf(message));
    && read.Ok?
    && if Offered(tools, read.value) then WellFormed(codec, read.value, TextOf(message))
       else codec.byteLength(RECOVERY_TEXT) <= MAX_JSON_STRING_BYTES
  }

  /** An answer that could be read but is too large to be passed on, or to be replaced. */
  predicate TooLargeToPass(codec: Codec, tools: seq<string>, calls: seq<ToolCall>, text: Option<string>) {
    if Offered(tools, calls) then
      && DistinctIds(calls)
      && ((exists call :: call in calls && !codec.withinLimits(call.input))
          || (text.Some? && codec.byteLength(text.value) > MAX_JSON_STRING_BYTES))
    else codec.byteLength(RECOVERY_TEXT) > MAX_JSON_STRING_BYTES
  }

  /** `parse_openai_response`, without the request and provider ids that only annotate errors. */
  method Parse(codec: Codec, m: AliasMap, tools: seq<string>, value: RawResponse)
    returns (r: Result<ProviderTurn, ParseError>)
    ensures r.Ok? <==> Acceptable(codec, m, tools, value)
    // What a parsed turn is: offered tools only, distinct call ids, and text or calls.
    ensures r.Ok? ==> Offered(tools, r.value.toolCalls) && DistinctIds(r.value.toolCalls)
    ensures r.Ok? ==> r.value.toolCalls != [] || (r.value.text.Some? && r.value.text.value != "")
    // Either every call of the answer is passed on, or one names a tool that is not offered and none is.
    ensures r.Ok? ==>
              && var message := value.choices.value[0].message.value;
              && var read := ReadCalls(codec, m, CallsOf(message)).value;
              && (Offered(tools, read) ==>
                    r.value.toolCalls == read && r.value.text == TextOf(message) && r.value.finishReason.Reported?)
              && (!Offered(tools, read) ==>
                    r.value.toolCalls == [] && r.value.text == Some(RECOVERY_TEXT)
                    && r.value.finishReason.PolicyRecovery?)
    ensures r.Ok? ==>
              && value.usage.value.promptTokens == Some(r.value.inputTokens)
              && value.usage.value.completionTokens == Some(r.value.outputTokens)
              && r.value.cachedInputTokens == (if value.usage.value.cachedTokens.Some?
                                               then value.usage.value.cachedTokens.value else 0)
              && (r.value.finishReason.Reported? ==>
                    var reported := value.choices.value[0].finishReason;
                    r.value.finishReason.reason == if reported.Some? then reported.value else "stop")
    // A refusal names an unknown tool, or the size, exactly where that is what is wrong; all others are just invalid.
    ensures r == Err(UnknownTool)
            <==> HasMessage(value)
                 && ReadCalls(codec, m, CallsOf(value.choices.value[0].message.value)) == Err(UnknownTool)
    ensures r == Err(ResponseTooLarge)
            <==> && HasMessage(value)
                 && var message := value.choices.value[0].message.value;
                 && var read := ReadCalls(codec, m, CallsOf(message));
                 && (read == Err(ResponseTooLarge)
                     || (read.Ok? && TooLargeToPass(codec, tools, read.value, TextOf(message))))
  {
    if value.choices.None? || value.choices.value == [] || value.choices.value[0].message.None? {
      return Err(InvalidResponse);
    }
    var choice := value.choices.value[0];
    var message := choice.message.value;
    var parsed := ParseCalls(codec, m, CallsOf(message));
    if parsed.Err? {
      return Err(parsed.error);
    }
    var unavailable := exists call :: call in parsed.value && call.name !in tools;
    var calls := if unavailable then [] else parsed.value;
    var duplicate := HasDuplicateIds(calls);
    if duplicate {
      return Err(InvalidResponse);
    }
    if exists call :: call in calls && !codec.withinLimits(call.input) {
      return Err(ResponseTooLarge);
    }
    var text := if unavailable then Some(RECOVERY_TEXT) else TextOf(message);
    if text.Some? && codec.byteLength(text.value) > MAX_JSON_STRING_BYTES {
      return Err(ResponseTooLarge);
    }
    if calls == [] && text.None? {
      return Err(InvalidResponse);
    }
    if value.usage.None? || value.usage.value.promptTokens.None? || value.usage.value.completionTokens.None? {
      return Err(InvalidResponse);
    }
    var usage := value.usage.value;
    r := Ok(ProviderTurn(
      calls, text,
      if unavailable then PolicyRecovery
      else Reported(if choice.finishReason.Some? then choice.finishReason.value else "stop"),
      usage.promptTokens.value, usage.completionTokens.value,
      if usage.cachedTokens.Some? then usage.cachedTokens.value else 0));
  }

  /**
   Closure: with the map of a request, a call that is read back names a tool of the request or of its history, so a
   recovery happens exactly when the provider called a tool that the history mentions but the request does not offer.
   */
  lemma {:induction false} ReadCallsBelongToRequest(
    codec: Codec, alias: Aliasing, m: AliasMap, tools: seq<string>, historical: set<string>, calls: seq<RawCall>)
    requires Describes(alias, m, SetOf(tools), historical) && ReadCalls(codec, m, calls).Ok?
    ensures |ReadCalls(codec, m, calls).value| == |calls|
    ensures forall call :: call in ReadCalls(codec, m, calls).value ==> call.name in SetOf(tools) + historical
    ensures !Offered(tools, ReadCalls(codec, m, calls).value) ==>
              exists call :: call in ReadCalls(codec, m, calls).value && call.name in historical && call.name !in tools
  {
    if calls != [] {
      ReadCallsBelongToRequest(codec, alias, m, tools, historical, calls[..|calls| - 1]);
      ReadNamesBelongToRequest(alias, m, SetOf(tools), historical, calls[|calls| - 1].name.value);
    }
  }
}
