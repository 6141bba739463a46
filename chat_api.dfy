/**
 * The serverless chat proxy of math-tutor/api/chat.js: HTTP guards, the
 * outgoing message list, one optional calculator round, a second and final
 * model call, and the shaping of the reply. The model, `JSON.parse`, the
 * expression parser and `JSON.stringify` are oracles passed in as functions.
 */
module ChatApi {
  import opened Wrappers
  import opened Js
  import MathEvaluator

  type EvalOutcome = MathEvaluator.EvalOutcome

  // ---------------------------------------------------------------------
  // The local calculator

  /** The object the local `evaluateMathExpression` returns: `{success, result|error, expression}`. */
  datatype CalcResult =
    | CalcSuccess(result: Value, expression: Value)
    | CalcFailure(error: string, expression: Value)

  /**
   * The local `evaluateMathExpression(expression)`, with `evaluate` standing
   * for `new Parser().evaluate`: whatever the parser returns is a success,
   * whatever it throws a failure. Unlike the client-side gate it neither
   * trims, nor consults a denylist, nor insists on a finite number.
   */
  function LocalEvaluate(evaluate: Value -> EvalOutcome, expression: Value): (r: CalcResult)
    ensures r.expression == expression
    ensures r.CalcSuccess? <==> evaluate(expression).Returned?
    ensures r.CalcSuccess? ==> r.result == evaluate(expression).value
    ensures r.CalcFailure? ==> r.error == evaluate(expression).message
  {
    match evaluate(expression)
    case Returned(v) => CalcSuccess(v, expression)
    case Threw(m) => CalcFailure(m, expression)
  }

  /**
   * An expression the client-side gate refuses as disallowed is still
   * evaluated by the local calculator, whenever the parser returns a value.
   */
  lemma LocalEvaluatorSkipsDenylist(evaluate: Value -> EvalOutcome, parse: string -> EvalOutcome, s: string)
    requires s == "process.exit()" && evaluate(Str(s)).Returned?
    ensures MathEvaluator.Evaluate(parse, Str(s)).Failure?
    ensures LocalEvaluate(evaluate, Str(s)) == CalcSuccess(evaluate(Str(s)).value, Str(s))
  {
    MathEvaluator.ProcessExitDisallowed(parse, s);
  }

  /**
   * A value the client-side gate refuses as not a valid number (an infinity,
   * a NaN, a non-number) is handed to the model as a successful result.
   */
  lemma LocalEvaluatorPassesNonNumbers(evaluate: Value -> EvalOutcome, parse: string -> EvalOutcome, s: string, v: Value)
    requires s != "" && evaluate(Str(s)) == MathEvaluator.Returned(v) && parse(Trim(s)) == MathEvaluator.Returned(v)
    requires !(v.Num? && v.n.Finite?)
    ensures MathEvaluator.Evaluate(parse, Str(s)).Failure?
    ensures LocalEvaluate(evaluate, Str(s)) == CalcSuccess(v, Str(s))
  {
  }

  // ---------------------------------------------------------------------
  // Messages, requests and the oracles

  /** A tool call of an assistant message: its `id`, `function.name` and `function.arguments`. */
  datatype ToolCall = ToolCall(id: string, name: string, arguments: string)

  /** `response.choices[0].message`: its `content` (absent or null as None) and its `tool_calls`. */
  datatype AssistantMessage = AssistantMessage(content: Option<string>, toolCalls: Option<seq<ToolCall>>)

  /** An entry of the `messages` list sent to the model. */
  datatype OutMessage =
    | System(prompt: Value)                         // { role: 'system', content: systemPrompt }
    | Client(message: Value)                        // an element of the client's `messages`, as given
    | Assistant(reply: AssistantMessage)            // the first reply, sent back as it came
    | Tool(toolCallId: string, content: string)     // { tool_call_id, role: "tool", content }

  /** A chat completion request: its messages, whether the calculator tool is offered, and the sampling settings. */
  datatype LlmRequest = LlmRequest(messages: seq<OutMessage>, offersCalculator: bool, temperature: real, maxTokens: nat)

  /** What a model call yields: the first choice's message (None when there is none), or a thrown error's message. */
  datatype LlmOutcome = Replied(message: Option<AssistantMessage>) | Failed(error: string)

  datatype Oracles = Oracles(
    llm: LlmRequest -> LlmOutcome,             // openai.chat.completions.create
    parseJson: string -> Result<Value, string>, // JSON.parse, failing with the SyntaxError's message
    evaluate: Value -> EvalOutcome,            // new Parser().evaluate
    serialize: CalcResult -> string)           // JSON.stringify

  const TEMPERATURE: real := 0.3
  const MAX_TOKENS: nat := 600
  const CALCULATE := "calculate"

  const METHOD_NOT_ALLOWED := "Method not allowed"
  const INVALID_MESSAGES := "Invalid messages format"
  const NO_RESPONSE := "No response generated"
  const FAILED_DEFAULT := "Failed to get response"

  datatype HttpRequest = HttpRequest(verb: string, body: Value)

  /** The JSON bodies the handler sends. */
  datatype ResponseBody =
    | Empty                                                      // {}
    | ErrorOnly(error: string)                                   // { error }
    | FailureBody(error: string)                                 // { success: false, error }
    | Reply(content: Value, metadata: Value, usedCalculator: bool) // { success: true, content, metadata, usedCalculator }

  datatype HttpResponse = HttpResponse(status: nat, body: ResponseBody)

  /** The 500 of the outer `catch`: the error's message, or the default when the message is empty. */
  function ServerFailure(message: string): (r: HttpResponse)
    ensures r.status == 500 && r.body.FailureBody? && r.body.error != ""
    ensures message != "" ==> r.body.error == message
    ensures message == "" ==> r.body.error == FAILED_DEFAULT
  {
    HttpResponse(500, FailureBody(if message == "" then FAILED_DEFAULT else message))
  }

  /**
   * `const { messages, systemPrompt } = req.body`: the two properties, or the
   * TypeError thrown when the body is null or undefined.
   */
  function BodyFields(body: Value): (r: Result<(Value, Value), string>)
    ensures r.Failure? <==> body.Null? || body.Undefined?
    ensures r.Failure? ==> r.error != ""
    ensures body.Obj? ==> r == Success((
              if "messages" in body.properties then body.properties["messages"] else Undefined,
              if "systemPrompt" in body.properties then body.properties["systemPrompt"] else Undefined))
    ensures r.Success? && !body.Obj? ==> r.value == (Undefined, Undefined)
  {
    if body.Null? || body.Undefined? then
      Failure("Cannot destructure property 'messages' of 'req.body' as it is "
        + (if body.Null? then "null" else "undefined") + ".")
    else
      Success((GetProperty(body, "messages").value, GetProperty(body, "systemPrompt").value))
  }

  /** `[{ role: 'system', content: systemPrompt }, ...messages]`. */
  function FullMessages(systemPrompt: Value, messages: seq<Value>): (r: seq<OutMessage>)
    ensures |r| == |messages| + 1 && r[0] == System(systemPrompt)
    ensures forall i :: 0 <= i < |messages| ==> r[i + 1] == Client(messages[i])
  {
    [System(systemPrompt)] + seq(|messages|, i requires 0 <= i < |messages| => Client(messages[i]))
  }

  function FirstRequest(full: seq<OutMessage>): LlmRequest {
    LlmRequest(full, true, TEMPERATURE, MAX_TOKENS)
  }

  /** The second request: the first one's messages, the first reply and the tool results, with no tools offered. */
  function SecondRequest(full: seq<OutMessage>, reply: AssistantMessage, results: seq<OutMessage>): LlmRequest {
    LlmRequest(full + [Assistant(reply)] + results, false, TEMPERATURE, MAX_TOKENS)
  }

  // ---------------------------------------------------------------------
  // The calculator round

  /**
   * `JSON.parse(toolCall.function.arguments).expression`, then logged through
   * the template literal `${args.expression}`: the expression, or the error
   * the parse, the property read or the conversion to a string throws.
   */
  function ArgsExpression(o: Oracles, call: ToolCall): (r: Result<Value, string>)
    ensures o.parseJson(call.arguments).Failure? ==> r == Failure(o.parseJson(call.arguments).error)
    ensures o.parseJson(call.arguments).Success? && GetProperty(o.parseJson(call.arguments).value, "expression").Failure? ==>
              r == GetProperty(o.parseJson(call.arguments).value, "expression")
    ensures o.parseJson(call.arguments).Success? && GetProperty(o.parseJson(call.arguments).value, "expression").Success? ==>
              var expression := GetProperty(o.parseJson(call.arguments).value, "expression").value;
              r == if ToStringThrows(expression) then Failure(TO_PRIMITIVE_ERROR) else Success(expression)
  {
    match o.parseJson(call.arguments)
    case Failure(e) => Failure(e)
    case Success(args) =>
      match GetProperty(args, "expression")
      case Failure(e) => Failure(e)
      case Success(expression) =>
        if ToStringThrows(expression) then Failure(TO_PRIMITIVE_ERROR) else Success(expression)
  }

  /** The tool message for a `calculate` call whose expression was read. */
  function ToolMessage(o: Oracles, call: ToolCall, expression: Value): OutMessage {
    Tool(call.id, o.serialize(LocalEvaluate(o.evaluate, expression)))
  }

  /** Prefixing results already pushed; an error thrown later still ends the turn. */
  function Prepend(pushed: seq<OutMessage>, r: Result<seq<OutMessage>, string>): Result<seq<OutMessage>, string> {
    match r
    case Success(rest) => Success(pushed + rest)
    case Failure(e) => Failure(e)
  }

  /**
   * The `toolResults` the loop over `tool_calls` builds, or the error thrown
   * while reading the arguments of the first `calculate` call that fails.
   */
  function ToolResults(o: Oracles, calls: seq<ToolCall>): Result<seq<OutMessage>, string>
    decreases |calls|
  {
    if calls == [] then Success([])
    else if calls[0].name != CALCULATE then ToolResults(o, calls[1..])
    else
      match ArgsExpression(o, calls[0])
      case Failure(e) => Failure(e)
      case Success(expression) => Prepend([ToolMessage(o, calls[0], expression)], ToolResults(o, calls[1..]))
  }

  /**
   * The calls named `calculate`, in order: the loop skips every other call.
   * `CalculateCallsMembers` and `CalculateCallsAppend` state what it picks.
   */
  function CalculateCalls(calls: seq<ToolCall>): seq<ToolCall>
    decreases |calls|
  {
    if calls == [] then []
    else if calls[0].name == CALCULATE then [calls[0]] + CalculateCalls(calls[1..])
    else CalculateCalls(calls[1..])
  }

  /** The calls picked out are exactly the calls named `calculate`. */
  lemma {:induction false} CalculateCallsMembers(calls: seq<ToolCall>)
    ensures forall c :: c in CalculateCalls(calls) <==> c in calls && c.name == CALCULATE
    decreases |calls|
  {
    if calls != [] {
      CalculateCallsMembers(calls[1..]);
      assert calls == [calls[0]] + calls[1..];
    }
  }

  /** Picking out the `calculate` calls of a + b picks those of a, then those of b. */
  lemma {:induction false} CalculateCallsAppend(a: seq<ToolCall>, b: seq<ToolCall>)
    ensures CalculateCalls(a + b) == CalculateCalls(a) + CalculateCalls(b)
    decreases |a|
  {
    if a == [] {
      assert a + b == b;
    } else {
      assert (a + b)[1..] == a[1..] + b;
      CalculateCallsAppend(a[1..], b);
      if a[0].name == CALCULATE {
        assert CalculateCalls(a + b) == [a[0]] + (CalculateCalls(a[1..]) + CalculateCalls(b));
      }
    }
  }

  /** The calls named `calculate` in calls, when calls starts with one. */
  lemma CalculateCallsCons(calls: seq<ToolCall>)
    requires calls != []
    ensures var cc := CalculateCalls(calls);
            var tail := CalculateCalls(calls[1..]);
            if calls[0].name == CALCULATE then
              |cc| == |tail| + 1 && cc[0] == calls[0] && forall j :: 1 <= j < |cc| ==> cc[j] == tail[j - 1]
            else cc == tail
  {
    if calls[0].name == CALCULATE {
      CalculateCallsKeep(calls);
    }
  }

  lemma CalculateCallsKeep(calls: seq<ToolCall>)
    requires calls != [] && calls[0].name == CALCULATE
    ensures var cc := CalculateCalls(calls);
            var tail := CalculateCalls(calls[1..]);
            |cc| == |tail| + 1 && cc[0] == calls[0] && forall j :: 1 <= j < |cc| ==> cc[j] == tail[j - 1]
  {
    var tail := CalculateCalls(calls[1..]);
    var cc := [calls[0]] + tail;
    assert CalculateCalls(calls) == cc;
    forall j | 1 <= j < |cc| ensures cc[j] == tail[j - 1] {
    }
  }

  /** The tool results are built exactly when every `calculate` call's arguments can be read. */
  lemma {:induction false} ToolResultsSucceedIff(o: Oracles, calls: seq<ToolCall>)
    ensures var cc := CalculateCalls(calls);
            ToolResults(o, calls).Success? <==> forall j :: 0 <= j < |cc| ==> ArgsExpression(o, cc[j]).Success?
    decreases |calls|
  {
    if calls != [] {
      ToolResultsSucceedIff(o, calls[1..]);
      CalculateCallsCons(calls);
      var cc := CalculateCalls(calls);
      var tail := CalculateCalls(calls[1..]);
      if calls[0].name == CALCULATE {
        assert ToolResults(o, calls).Success? <==>
               ArgsExpression(o, calls[0]).Success? && ToolResults(o, calls[1..]).Success?;
        assert (forall j :: 0 <= j < |cc| ==> ArgsExpression(o, cc[j]).Success?) <==>
               ArgsExpression(o, cc[0]).Success? && forall j :: 0 <= j < |tail| ==> ArgsExpression(o, tail[j]).Success?
        by {
          assert forall j :: 0 <= j < |tail| ==> cc[j + 1] == tail[j];
        }
      }
    }
  }

  /**
   * Correlation of the tool results: exactly one tool message per
   * `calculate` call, in order, answering that call's `id` with the
   * serialized local evaluation of its expression; other calls are skipped.
   */
  lemma {:induction false} ToolResultsCorrelated(o: Oracles, calls: seq<ToolCall>)
    requires ToolResults(o, calls).Success?
    ensures var cc := CalculateCalls(calls);
            var rs := ToolResults(o, calls).value;
            && |rs| == |cc|
            && forall j :: 0 <= j < |cc| ==>
                 ArgsExpression(o, cc[j]).Success?
                 && rs[j] == Tool(cc[j].id, o.serialize(LocalEvaluate(o.evaluate, ArgsExpression(o, cc[j]).value)))
    decreases |calls|
  {
    if calls != [] {
      ToolResultsCorrelated(o, calls[1..]);
      CalculateCallsCons(calls);
      if calls[0].name == CALCULATE {
        var r := ToolResults(o, calls[1..]).value;
        var rs := ToolResults(o, calls).value;
        assert rs == [ToolMessage(o, calls[0], ArgsExpression(o, calls[0]).value)] + r;
        assert forall j :: 1 <= j < |rs| ==> rs[j] == r[j - 1];
      }
    }
  }

  /** Otherwise the turn fails with the error of the first `calculate` call whose arguments cannot be read. */
  lemma {:induction false} ToolResultsFailAtFirst(o: Oracles, calls: seq<ToolCall>)
    requires ToolResults(o, calls).Failure?
    ensures var cc := CalculateCalls(calls);
            exists j :: 0 <= j < |cc| && ArgsExpression(o, cc[j]) == Failure(ToolResults(o, calls).error)
                        && forall i :: 0 <= i < j ==> ArgsExpression(o, cc[i]).Success?
    decreases |calls|
  {
    var cc := CalculateCalls(calls);
    CalculateCallsCons(calls);
    if calls[0].name != CALCULATE {
      ToolResultsFailAtFirst(o, calls[1..]);
    } else if ArgsExpression(o, calls[0]).Failure? {
      assert ArgsExpression(o, cc[0]) == Failure(ToolResults(o, calls).error);
    } else {
      ToolResultsFailAtFirst(o, calls[1..]);
      var tail := CalculateCalls(calls[1..]);
      var j :| 0 <= j < |tail| && ArgsExpression(o, tail[j]) == Failure(ToolResults(o, calls[1..]).error)
               && forall i :: 0 <= i < j ==> ArgsExpression(o, tail[i]).Success?;
      assert cc[j + 1] == tail[j];
      assert forall i :: 1 <= i < j + 1 ==> ArgsExpression(o, cc[i]).Success?;
    }
  }

  /** Every tool result is a tool message. */
  lemma {:induction false} ToolResultsAreToolMessages(o: Oracles, calls: seq<ToolCall>)
    requires ToolResults(o, calls).Success?
    ensures forall m :: m in ToolResults(o, calls).value ==> m.Tool?
    decreases |calls|
  {
    if calls != [] {
      ToolResultsAreToolMessages(o, calls[1..]);
    }
  }

  // ---------------------------------------------------------------------
  // The turn

  /**
   * The response built from the final reply's content: 500 when it is
   * missing or blank once trimmed; otherwise always 200. The parsed object's
   * `message` and `metadata` are passed on when both are truthy; if the
   * content does not parse, or either field is falsy, the raw trimmed content
   * is passed on with `metadata: null` instead.
   */
  function Shape(o: Oracles, content: Option<string>, usedCalculator: bool): (r: HttpResponse)
    ensures r.status == 500 <==> content.None? || Trim(content.value) == ""
    ensures r.status == 500 ==> r.body == FailureBody(NO_RESPONSE)
    ensures r.status != 500 ==> r.status == 200 && r.body.Reply? && r.body.usedCalculator == usedCalculator
    ensures r.status == 200 && WellFormed(o, Trim(content.value)) ==>
              var parsed := o.parseJson(Trim(content.value)).value;
              r.body.content == parsed.properties["message"] && r.body.metadata == parsed.properties["metadata"]
    ensures r.status == 200 && !WellFormed(o, Trim(content.value)) ==>
              r.body.content == Str(Trim(content.value)) && r.body.metadata == Null
  {
    if content.None? then HttpResponse(500, FailureBody(NO_RESPONSE))
    else
      var text := Trim(content.value);
      if text == "" then HttpResponse(500, FailureBody(NO_RESPONSE))
      else
        var degraded := HttpResponse(200, Reply(Str(text), Null, usedCalculator));
        match o.parseJson(text)
        case Failure(_) => degraded
        case Success(parsed) =>
          match GetProperty(parsed, "message")
          case Failure(_) => degraded
          case Success(message) =>
            var metadata := GetProperty(parsed, "metadata").value;
            if !Truthy(message) || !Truthy(metadata) then degraded
            else HttpResponse(200, Reply(message, metadata, usedCalculator))
  }

  /** The trimmed content parses to an object whose `message` and `metadata` are both truthy. */
  predicate WellFormed(o: Oracles, text: string) {
    && o.parseJson(text).Success?
    && var parsed := o.parseJson(text).value;
    && parsed.Obj?
    && "message" in parsed.properties && Truthy(parsed.properties["message"])
    && "metadata" in parsed.properties && Truthy(parsed.properties["metadata"])
  }

  function ContentOf(message: Option<AssistantMessage>): Option<string> {
    if message.None? then None else message.value.content
  }

  /** The turn once the guards have passed: the response and the model requests made, in order. */
  function Conversation(o: Oracles, full: seq<OutMessage>): (HttpResponse, seq<LlmRequest>) {
    var first := FirstRequest(full);
    match o.llm(first)
    case Failed(e) => (ServerFailure(e), [first])
    case Replied(None) => (ServerFailure(ReadErrorText(Undefined, "tool_calls")), [first])
    case Replied(Some(reply)) =>
      match reply.toolCalls
      case None => (Shape(o, reply.content, false), [first])
      case Some(calls) =>
        match ToolResults(o, calls)
        case Failure(e) => (ServerFailure(e), [first])
        case Success(results) =>
          var second := SecondRequest(full, reply, results);
          match o.llm(second)
          case Failed(e) => (ServerFailure(e), [first, second])
          case Replied(message) => (Shape(o, ContentOf(message), true), [first, second])
  }

  /** `handler(req, res)`: the response sent and the model requests made, in order. */
  function Turn(o: Oracles, req: HttpRequest): (HttpResponse, seq<LlmRequest>) {
    if req.verb == "OPTIONS" then (HttpResponse(200, Empty), [])
    else if req.verb != "POST" then (HttpResponse(405, ErrorOnly(METHOD_NOT_ALLOWED)), [])
    else
      match BodyFields(req.body)
      case Failure(e) => (ServerFailure(e), [])
      case Success((messages, systemPrompt)) =>
        if !Truthy(messages) || !messages.Arr? then (HttpResponse(400, ErrorOnly(INVALID_MESSAGES)), [])
        else Conversation(o, FullMessages(systemPrompt, messages.items))
  }

  /** `handler(req, res)`: returns the response and the requests sent to the model, in the order they were sent. */
  method Handle(o: Oracles, req: HttpRequest) returns (res: HttpResponse, sent: seq<LlmRequest>)
    ensures (res, sent) == Turn(o, req)
  {
    sent := [];
    if req.verb == "OPTIONS" {
      return HttpResponse(200, Empty), sent;
    }
    if req.verb != "POST" {
      return HttpResponse(405, ErrorOnly(METHOD_NOT_ALLOWED)), sent;
    }
    var fields := BodyFields(req.body);
    if fields.Failure? {
      return ServerFailure(fields.error), sent;
    }
    var (messages, systemPrompt) := fields.value;
    if !Truthy(messages) || !messages.Arr? {
      return HttpResponse(400, ErrorOnly(INVALID_MESSAGES)), sent;
    }
    var full := FullMessages(systemPrompt, messages.items);
    assert Turn(o, req) == Conversation(o, full);
    var request := FirstRequest(full);
    sent := [request];
    var response := o.llm(request);
    if response.Failed? {
      return ServerFailure(response.error), sent;
    }
    var message := response.message;
    var usedCalculator := false;
    if message.None? {
      return ServerFailure(ReadErrorText(Undefined, "tool_calls")), sent;
    }
    var reply := message.value;
    if reply.toolCalls.Some? {
      usedCalculator := true;
      var calls := reply.toolCalls.value;
      var toolResults: seq<OutMessage> := [];
      var i := 0;
      assert calls[i..] == calls;
      PrependNil(ToolResults(o, calls));
      while i < |calls|
        invariant 0 <= i <= |calls|
        invariant ToolResults(o, calls) == Prepend(toolResults, ToolResults(o, calls[i..]))
      {
        var call := calls[i];
        assert calls[i..][1..] == calls[i + 1..];
        if call.name == CALCULATE {
          var expression := ArgsExpression(o, call);
          if expression.Failure? {
            return ServerFailure(expression.error), sent;
          }
          PrependPrepend(toolResults, [ToolMessage(o, call, expression.value)], ToolResults(o, calls[i + 1..]));
          toolResults := toolResults + [ToolMessage(o, call, expression.value)];
        }
        i := i + 1;
      }
      assert calls[i..] == [];
      assert ToolResults(o, calls) == Success(toolResults + []);
      assert toolResults + [] == toolResults;
      request := SecondRequest(full, reply, toolResults);
      sent := [sent[0], request];
      response := o.llm(request);
      if response.Failed? {
        return ServerFailure(response.error), sent;
      }
      message := response.message;
    }
    res := Shape(o, ContentOf(message), usedCalculator);
  }

  lemma PrependNil(r: Result<seq<OutMessage>, string>)
    ensures Prepend([], r) == r
  {
    if r.Success? {
      assert [] + r.value == r.value;
    }
  }

  /** Pushing a, then b, in front of the later results is pushing a + b. */
  lemma PrependPrepend(a: seq<OutMessage>, b: seq<OutMessage>, r: Result<seq<OutMessage>, string>)
    ensures Prepend(a, Prepend(b, r)) == Prepend(a + b, r)
  {
    if r.Success? {
      assert a + (b + r.value) == (a + b) + r.value;
    }
  }

  // ---------------------------------------------------------------------
  // Properties of the turn

  /**
   * The guards come first and in this order: OPTIONS is answered 200, any
   * other method but POST 405, a null or undefined body 500, and missing or
   * non-array `messages` 400; in each case no model request is made, so the
   * oracles play no part.
   */
  lemma GuardsPrecedeModel(o1: Oracles, o2: Oracles, req: HttpRequest)
    ensures req.verb == "OPTIONS" ==> Turn(o1, req) == (HttpResponse(200, Empty), [])
    ensures req.verb != "OPTIONS" && req.verb != "POST" ==>
              Turn(o1, req) == (HttpResponse(405, ErrorOnly(METHOD_NOT_ALLOWED)), [])
    ensures req.verb == "POST" && (req.body.Null? || req.body.Undefined?) ==>
              Turn(o1, req) == (ServerFailure(BodyFields(req.body).error), [])
    ensures req.verb == "POST" && BodyFields(req.body).Success? &&
            !(Truthy(BodyFields(req.body).value.0) && BodyFields(req.body).value.0.Arr?) ==>
              Turn(o1, req) == (HttpResponse(400, ErrorOnly(INVALID_MESSAGES)), [])
    ensures Turn(o1, req).1 == [] ==> Turn(o1, req) == Turn(o2, req)
    ensures Turn(o1, req).1 != [] <==>
              req.verb == "POST" && BodyFields(req.body).Success?
              && Truthy(BodyFields(req.body).value.0) && BodyFields(req.body).value.0.Arr?
  {
  }

  /**
   * The first request carries the system prompt followed by the client's
   * messages in their order, offers the calculator, and uses temperature
   * 0.3 and at most 600 tokens.
   */
  lemma FirstRequestShape(o: Oracles, req: HttpRequest)
    requires Turn(o, req).1 != []
    ensures var (messages, systemPrompt) := BodyFields(req.body).value;
            var first := Turn(o, req).1[0];
            && |first.messages| == |messages.items| + 1
            && first.messages[0] == System(systemPrompt)
            && (forall i :: 0 <= i < |messages.items| ==> first.messages[i + 1] == Client(messages.items[i]))
            && first.offersCalculator && first.temperature == 0.3 && first.maxTokens == 600
  {
    GuardsPrecedeModel(o, o, req);
  }

  /**
   * At most two model requests are made. A second one is made exactly when
   * the first reply carried `tool_calls` and every `calculate` call's
   * arguments could be read; it resends the first request's messages
   * followed by the first reply and the tool messages, with no tool offered,
   * so no third round can be asked for.
   */
  lemma AtMostTwoModelCalls(o: Oracles, full: seq<OutMessage>)
    ensures var (res, sent) := Conversation(o, full);
            && 1 <= |sent| <= 2
            && sent[0] == FirstRequest(full)
            && (|sent| == 2 <==>
                  o.llm(sent[0]).Replied? && o.llm(sent[0]).message.Some?
                  && o.llm(sent[0]).message.value.toolCalls.Some?
                  && ToolResults(o, o.llm(sent[0]).message.value.toolCalls.value).Success?)
    ensures var (res, sent) := Conversation(o, full);
            |sent| == 2 ==>
              var reply := o.llm(sent[0]).message.value;
              var results := ToolResults(o, reply.toolCalls.value).value;
              && sent[1].messages == sent[0].messages + [Assistant(reply)] + results
              && (forall m :: m in results ==> m.Tool?)
              && !sent[1].offersCalculator && sent[1].temperature == 0.3 && sent[1].maxTokens == 600
              && sent[1] != sent[0]
  {
    var first := FirstRequest(full);
    if o.llm(first).Replied? && o.llm(first).message.Some? && o.llm(first).message.value.toolCalls.Some? {
      var calls := o.llm(first).message.value.toolCalls.value;
      if ToolResults(o, calls).Success? {
        ToolResultsAreToolMessages(o, calls);
      }
    }
  }

  /** The handler makes at most two model requests, the first as described. */
  lemma TurnMakesAtMostTwoModelCalls(o: Oracles, req: HttpRequest)
    ensures |Turn(o, req).1| <= 2
  {
    if Turn(o, req).1 != [] {
      GuardsPrecedeModel(o, o, req);
      var (messages, systemPrompt) := BodyFields(req.body).value;
      AtMostTwoModelCalls(o, FullMessages(systemPrompt, messages.items));
    }
  }

  /** A reply's `usedCalculator` is true exactly when the first model reply carried `tool_calls`. */
  lemma UsedCalculatorIffToolCalls(o: Oracles, full: seq<OutMessage>)
    requires Conversation(o, full).0.body.Reply?
    ensures var first := o.llm(FirstRequest(full));
            first.Replied? && first.message.Some? &&
            (Conversation(o, full).0.body.usedCalculator <==> first.message.value.toolCalls.Some?)
  {
  }

  /**
   * How the final reply becomes the response: the turn fails with "No
   * response generated" exactly when its content is missing or blank;
   * otherwise it succeeds with 200, whatever `JSON.parse` makes of the
   * content.
   */
  lemma FinalContentDecides(o: Oracles, full: seq<OutMessage>)
    requires o.llm(FirstRequest(full)).Replied? && o.llm(FirstRequest(full)).message.Some?
    requires var reply := o.llm(FirstRequest(full)).message.value;
             reply.toolCalls.Some? ==>
               ToolResults(o, reply.toolCalls.value).Success?
               && o.llm(SecondRequest(full, reply, ToolResults(o, reply.toolCalls.value).value)).Replied?
    ensures var reply := o.llm(FirstRequest(full)).message.value;
            var final := if reply.toolCalls.None? then reply.content
                         else ContentOf(o.llm(SecondRequest(full, reply, ToolResults(o, reply.toolCalls.value).value)).message);
            var res := Conversation(o, full).0;
            && (res.status == 500 <==> final.None? || Trim(final.value) == "")
            && (res.status == 500 ==> res.body == FailureBody(NO_RESPONSE))
            && (res.status != 500 ==> res.status == 200 && res.body.Reply?)
  {
  }

  /**
   * Any error thrown during the turn (a failed first or second model call,
   * a missing first choice, unreadable tool arguments) is answered 500 with
   * its message, and no further model request is made.
   */
  lemma ThrownErrorsAnswer500(o: Oracles, full: seq<OutMessage>)
    ensures var first := FirstRequest(full);
            o.llm(first).Failed? ==>
              Conversation(o, full) == (ServerFailure(o.llm(first).error), [first])
    ensures var first := FirstRequest(full);
            o.llm(first) == Replied(None) ==>
              Conversation(o, full) == (ServerFailure(ReadErrorText(Undefined, "tool_calls")), [first])
    ensures var first := FirstRequest(full);
            o.llm(first).Replied? && o.llm(first).message.Some? && o.llm(first).message.value.toolCalls.Some?
            && ToolResults(o, o.llm(first).message.value.toolCalls.value).Failure? ==>
              Conversation(o, full) ==
                (ServerFailure(ToolResults(o, o.llm(first).message.value.toolCalls.value).error), [first])
    ensures var first := FirstRequest(full);
            o.llm(first).Replied? && o.llm(first).message.Some? && o.llm(first).message.value.toolCalls.Some?
            && ToolResults(o, o.llm(first).message.value.toolCalls.value).Success? ==>
              var reply := o.llm(first).message.value;
              var second := SecondRequest(full, reply, ToolResults(o, reply.toolCalls.value).value);
              o.llm(second).Failed? ==>
                Conversation(o, full) == (ServerFailure(o.llm(second).error), [first, second])
  {
  }

  /** Malformed arguments of a `calculate` call end the turn with the parse error. */
  lemma MalformedArgumentsEndTheTurn(o: Oracles, full: seq<OutMessage>, id: string, arguments: string, message: string)
    requires message != "" && o.parseJson(arguments) == Failure(message)
    requires o.llm(FirstRequest(full)) == Replied(Some(AssistantMessage(None, Some([ToolCall(id, CALCULATE, arguments)]))))
    ensures Conversation(o, full) == (HttpResponse(500, FailureBody(message)), [FirstRequest(full)])
  {
    var calls := [ToolCall(id, CALCULATE, arguments)];
    assert ToolResults(o, calls) == Failure(message);
  }

  /**
   * An expression that cannot be converted to a string, such as
   * `{"toString": 0}`, makes the logging line throw: the turn ends with the
   * TypeError's 500 after one request, and the evaluator never runs.
   */
  lemma UnprintableExpressionEndsTheTurn(o: Oracles, full: seq<OutMessage>, id: string, arguments: string)
    requires o.parseJson(arguments) == Success(Obj(map["expression" := Obj(map["toString" := Num(Finite(0.0))])]))
    requires o.llm(FirstRequest(full)) == Replied(Some(AssistantMessage(None, Some([ToolCall(id, CALCULATE, arguments)]))))
    ensures Conversation(o, full) == (HttpResponse(500, FailureBody(TO_PRIMITIVE_ERROR)), [FirstRequest(full)])
  {
    var calls := [ToolCall(id, CALCULATE, arguments)];
    assert ToolResults(o, calls) == Failure(TO_PRIMITIVE_ERROR);
  }

  /** Content that is not JSON is passed on raw with `metadata: null`; the turn does not fail. */
  lemma UnparsableContentDegrades(o: Oracles, full: seq<OutMessage>, text: string)
    requires Trim(text) != "" && o.parseJson(Trim(text)).Failure?
    requires o.llm(FirstRequest(full)) == Replied(Some(AssistantMessage(Some(text), None)))
    ensures Conversation(o, full).0 == HttpResponse(200, Reply(Str(Trim(text)), Null, false))
  {
  }
}
