/** The tool-using agent loop (`agent_engine/agent_loop.py`, `AgentLoop.run`). */
module AgentLoop {
  import opened AgentProtocol
  import opened Basics
  import Failover
  import opened Ordering
  import opened ToolArgs

  const ATTEMPTS := 3
  const RESULT_CAP := 8000
  const NUDGED_TURNS := {8, 3}

  /** A tool either returns a text (its value serialised) or raises; an error carries a message. */
  datatype ToolOutcome = Returned(value: string) | ToolRaised(message: string)

  /** The wording of the loop's own messages. */
  datatype Texts = Texts(leaked: string, budgetSpent: string, proseOnly: string, nudge: nat -> string,
                         unknownTool: string -> string, rejection: Rejection -> string)

  /** All a run depends on. The tools are functions of the world, so the same call may answer
      differently each time: the number of tool calls made so far is an argument. */
  datatype Env = Env(provider: Provider, tools: map<string, Schema>, invoke: (nat, string, Args) -> ToolOutcome,
                     leaks: string -> bool, maxTurns: nat, texts: Texts)

  /** The variables of the loop, and the usage ledger. */
  datatype Loop = Loop(messages: seq<Message>, toolLog: seq<string>, tokens: int, modelUsed: Name,
                       skip: set<Name>, leaks: nat, calls: seq<Call>)

  datatype Outcome = Finished(output: Output, calls: seq<Call>) | Aborted(error: GatewayError, calls: seq<Call>)

  datatype Progress = Going(state: Loop) | Stopped(outcome: Outcome)

  // One turn's call.

  datatype Asked = Asked(result: Result<Response, GatewayError>, calls: seq<Call>)

  predicate Retried(e: GatewayError) { e.TransportError? || e.ChainExhausted? }

  function Ask(env: Env, request: Request, calls: seq<Call>): Call { Call(request, env.provider(|calls|, request)) }

  function CallTurn(env: Env, request: Request, calls: seq<Call>, attempt: nat): Asked
    requires attempt < ATTEMPTS
    decreases ATTEMPTS - attempt
  {
    var call := Ask(env, request, calls);
    if call.reply.Answered? then Asked(Ok(call.reply.response), calls + [call])
    else if Retried(call.reply.error) && attempt + 1 < ATTEMPTS then CallTurn(env, request, calls + [call], attempt + 1)
    else Asked(Err(call.reply.error), calls + [call])
  }

  method CallTurnWithRetry(env: Env, request: Request, ledger: seq<Call>)
    returns (result: Result<Response, GatewayError>, calls: seq<Call>)
    ensures Asked(result, calls) == CallTurn(env, request, ledger, 0)
  {
    calls := ledger;
    var error := TransportError;
    for attempt := 0 to ATTEMPTS
      invariant attempt < ATTEMPTS ==> CallTurn(env, request, ledger, 0) == CallTurn(env, request, calls, attempt)
      invariant attempt == ATTEMPTS ==> CallTurn(env, request, ledger, 0) == Asked(Err(error), calls)
    {
      var call := Ask(env, request, calls);
      calls := calls + [call];
      if call.reply.Answered? {
        return Ok(call.reply.response), calls;
      }
      error := call.reply.error;
      if !Retried(error) {
        return Err(error), calls;
      }
    }
    result := Err(error);
  }

  // Tool dispatch.

  function Cap(text: string): string { if |text| <= RESULT_CAP then text else text[..RESULT_CAP] }

  /** The result block of the `n`-th tool call of the run. */
  function ResultOf(env: Env, n: nat, call: Block): (r: Block)
    requires call.ToolCall?
    ensures r.ToolResult?
  {
    if call.name !in env.tools then ToolResult(call.id, false, env.texts.unknownTool(call.name))
    else
      match Rejected(env.tools[call.name], call.args)
      case Some(why) => ToolResult(call.id, false, env.texts.rejection(why))
      case None =>
        match env.invoke(n, call.name, call.args)
        case Returned(value) => ToolResult(call.id, true, Cap(value))
        case ToolRaised(message) => ToolResult(call.id, false, message)
  }

  function Results(env: Env, n: nat, calls: seq<Block>): seq<Block>
    requires forall b | b in calls :: b.ToolCall?
  {
    if calls == [] then []
    else
      var last := |calls| - 1;
      Results(env, n, calls[..last]) + [ResultOf(env, n + last, calls[last])]
  }

  function NamesOf(calls: seq<Block>): seq<string>
    requires forall b | b in calls :: b.ToolCall?
  {
    if calls == [] then [] else NamesOf(calls[..|calls| - 1]) + [calls[|calls| - 1].name]
  }

  method Dispatch(env: Env, log: seq<string>, calls: seq<Block>) returns (results: seq<Block>, toolLog: seq<string>)
    requires forall b | b in calls :: b.ToolCall?
    ensures results == Results(env, |log|, calls)
    ensures toolLog == log + NamesOf(calls)
  {
    results := [];
    toolLog := log;
    for i := 0 to |calls|
      invariant results == Results(env, |log|, calls[..i])
      invariant toolLog == log + NamesOf(calls[..i])
      invariant |toolLog| == |log| + i
    {
      TakeOneMore([], calls, i);
      var call := calls[i];
      Assoc(log, NamesOf(calls[..i]), [call.name]);
      var n := |toolLog|;
      toolLog := toolLog + [call.name];
      if call.name !in env.tools {
        results := results + [ToolResult(call.id, false, env.texts.unknownTool(call.name))];
        continue;
      }
      var why := ValidateToolArgs(env.tools[call.name], call.args);
      if why.Some? {
        results := results + [ToolResult(call.id, false, env.texts.rejection(why.value))];
        continue;
      }
      match env.invoke(n, call.name, call.args)
      case Returned(value) => results := results + [ToolResult(call.id, true, Cap(value))];
      case ToolRaised(message) => results := results + [ToolResult(call.id, false, message)];
    }
    TakeAll(calls);
  }

  // One turn.

  function OrElse(model: Name, otherwise: Name): Name { if model != NO_MODEL then model else otherwise }

  function Nudge(env: Env, remaining: nat): seq<Block> {
    if remaining in NUDGED_TURNS then [Text(env.texts.nudge(remaining))] else []
  }

  function Hear(s: Loop, r: Response, calls: seq<Call>): Loop {
    s.(calls := calls, tokens := s.tokens + r.tokens, modelUsed := OrElse(r.modelUsed, s.modelUsed))
  }

  /** After a reply without tool calls whose text looks like one. */
  function AfterLeak(env: Env, s: Loop, r: Response): Loop {
    var blame := s.leaks >= 1 && r.modelUsed != NO_MODEL;
    s.(leaks := if blame then 0 else s.leaks + 1,
       skip := if blame then s.skip + {r.modelUsed} else s.skip,
       messages := s.messages + [Message(Assistant, r.content), Say(env.texts.leaked)])
  }

  function Feedback(env: Env, s: Loop, r: Response, remaining: nat): Message {
    Message(User, Results(env, |s.toolLog|, ToolCallsOf(r.content)) + Nudge(env, remaining))
  }

  function AfterTools(env: Env, s: Loop, r: Response, remaining: nat): Loop {
    s.(leaks := 0,
       toolLog := s.toolLog + NamesOf(ToolCallsOf(r.content)),
       messages := s.messages + [Message(Assistant, r.content), Feedback(env, s, r, remaining)])
  }

  predicate Leaked(env: Env, r: Response) { ToolCallsOf(r.content) == [] && env.leaks(TextOf(r.content)) }

  /** The turn made when `turn` turns are over. */
  function Turn(env: Env, turn: nat, s: Loop): Progress
    requires turn < env.maxTurns
  {
    var asked := CallTurn(env, Request(s.messages, true, s.skip), s.calls, 0);
    match asked.result
    case Err(e) => Stopped(Aborted(e, asked.calls))
    case Ok(r) =>
      var heard := Hear(s, r, asked.calls);
      if ToolCallsOf(r.content) != [] then Going(AfterTools(env, heard, r, env.maxTurns - (turn + 1)))
      else if env.leaks(TextOf(r.content)) then Going(AfterLeak(env, heard, r))
      else
        var output := Output(TextOf(r.content), heard.toolLog, heard.tokens, heard.modelUsed, turn + 1);
        Stopped(Finished(output, heard.calls))
  }

  function Turns(env: Env, turn: nat, s: Loop): Progress
    requires turn <= env.maxTurns
    decreases env.maxTurns - turn
  {
    if turn == env.maxTurns then Going(s)
    else
      match Turn(env, turn, s)
      case Stopped(outcome) => Stopped(outcome)
      case Going(next) => Turns(env, turn + 1, next)
  }

  // The budget is spent.

  function WrapUpRequest(env: Env, s: Loop): Request {
    Request(s.messages + [Say(env.texts.budgetSpent)], false, s.skip)
  }

  function RetryRequest(env: Env, first: Request, r: Response): Request {
    Request(first.messages + [Message(Assistant, r.content), Say(env.texts.proseOnly)], false,
            if r.modelUsed != NO_MODEL then first.skip + {r.modelUsed} else first.skip)
  }

  function WrapUp(env: Env, s: Loop): Outcome {
    var call := Ask(env, WrapUpRequest(env, s), s.calls);
    match call.reply
    case Failed(e) => Aborted(e, s.calls + [call])
    case Answered(r) =>
      if !env.leaks(TextOf(r.content)) then
        Finished(Output(TextOf(r.content), s.toolLog, s.tokens + r.tokens,
                        OrElse(r.modelUsed, s.modelUsed), env.maxTurns),
                 s.calls + [call])
      else
        var again := Ask(env, RetryRequest(env, call.request, r), s.calls + [call]);
        match again.reply
        case Failed(e) => Aborted(e, s.calls + [call] + [again])
        case Answered(r2) =>
          Finished(Output(TextOf(r2.content), s.toolLog, s.tokens + r.tokens + r2.tokens,
                          OrElse(r2.modelUsed, s.modelUsed), env.maxTurns),
                   s.calls + [call] + [again])
  }

  function Start(prompt: string): Loop { Loop([Say(prompt)], [], 0, NO_MODEL, {}, 0, []) }

  function RunWithTools(env: Env, prompt: string): Outcome {
    match Turns(env, 0, Start(prompt))
    case Stopped(outcome) => outcome
    case Going(s) => WrapUp(env, s)
  }

  /** Without tools a run is one call, whose answer is accepted as it comes. */
  function FromOneshot(session: Failover.Session): Outcome {
    match session.ending
    case Accepted(r) => Finished(Output(TextOf(r.content), [], r.tokens, r.modelUsed, 1), session.calls)
    case Exhausted(_) => Aborted(OtherError("rejected"), session.calls)
    case Raised(e) => Aborted(e, session.calls)
  }

  function Run(env: Env, prompt: string): Outcome {
    if env.tools == map[] then FromOneshot(Failover.Oneshot(env.provider, prompt, _ => true, 0, {}))
    else RunWithTools(env, prompt)
  }

  method RunLoop(env: Env, prompt: string) returns (outcome: Outcome)
    ensures outcome == Run(env, prompt)
  {
    if env.tools == map[] {
      var ending, calls := Failover.RunOneshot(env.provider, prompt, _ => true);
      return FromOneshot(Failover.Session(ending, calls));
    }
    var s := Start(prompt);
    for turn := 0 to env.maxTurns
      invariant Turns(env, 0, Start(prompt)) == Turns(env, turn, s)
    {
      var progress := TakeTurn(env, turn, s);
      if progress.Stopped? {
        return progress.outcome;
      }
      s := progress.state;
    }
    outcome := FinishWithoutTools(env, s);
  }

  lemma TwoMore(ms: seq<Message>, a: Message, b: Message)
    ensures ms + [a] + [b] == ms + [a, b]
  {
  }

  method TakeTurn(env: Env, turn: nat, s: Loop) returns (progress: Progress)
    requires turn < env.maxTurns
    ensures progress == Turn(env, turn, s)
  {
    var messages, skip, leaks, modelUsed := s.messages, s.skip, s.leaks, s.modelUsed;
    var result, calls := CallTurnWithRetry(env, Request(messages, true, skip), s.calls);
    if result.Err? {
      return Stopped(Aborted(result.error, calls));
    }
    var r := result.value;
    var tokens := s.tokens + r.tokens;
    if r.modelUsed != NO_MODEL {
      modelUsed := r.modelUsed;
    }
    messages := messages + [Message(Assistant, r.content)];
    var toolCalls := ToolCallsOf(r.content);
    if toolCalls == [] {
      if !env.leaks(TextOf(r.content)) {
        return Stopped(Finished(Output(TextOf(r.content), s.toolLog, tokens, modelUsed, turn + 1), calls));
      }
      leaks := leaks + 1;
      if leaks >= 2 && r.modelUsed != NO_MODEL {
        skip := skip + {r.modelUsed};
        leaks := 0;
      }
      messages := messages + [Say(env.texts.leaked)];
      TwoMore(s.messages, Message(Assistant, r.content), Say(env.texts.leaked));
      return Going(Loop(messages, s.toolLog, tokens, modelUsed, skip, leaks, calls));
    }
    var results, toolLog := Dispatch(env, s.toolLog, toolCalls);
    var remaining := env.maxTurns - (turn + 1);
    var feedback := results;
    if remaining in NUDGED_TURNS {
      feedback := feedback + [Text(env.texts.nudge(remaining))];
    }
    messages := messages + [Message(User, feedback)];
    assert feedback == results + Nudge(env, remaining);
    TwoMore(s.messages, Message(Assistant, r.content), Message(User, feedback));
    progress := Going(Loop(messages, toolLog, tokens, modelUsed, skip, 0, calls));
  }

  method FinishWithoutTools(env: Env, s: Loop) returns (outcome: Outcome)
    ensures outcome == WrapUp(env, s)
  {
    var tokens, skip, calls := s.tokens, s.skip, s.calls;
    var messages := s.messages + [Say(env.texts.budgetSpent)];
    var call := Ask(env, Request(messages, false, skip), calls);
    calls := calls + [call];
    if call.reply.Failed? {
      return Aborted(call.reply.error, calls);
    }
    var r := call.reply.response;
    tokens := tokens + r.tokens;
    if env.leaks(TextOf(r.content)) {
      if r.modelUsed != NO_MODEL {
        skip := skip + {r.modelUsed};
      }
      messages := messages + [Message(Assistant, r.content), Say(env.texts.proseOnly)];
      call := Ask(env, Request(messages, false, skip), calls);
      calls := calls + [call];
      if call.reply.Failed? {
        return Aborted(call.reply.error, calls);
      }
      r := call.reply.response;
      tokens := tokens + r.tokens;
    }
    outcome := Finished(Output(TextOf(r.content), s.toolLog, tokens, OrElse(r.modelUsed, s.modelUsed), env.maxTurns),
                        calls);
  }
}
