/** What every run of the agent loop keeps, whatever the provider and the tools do. */
module AgentLoopLaws {
  import opened AgentLoop
  import opened AgentProtocol
  import opened Basics
  import opened Ordering
  import ToolArgs

  // The ledger, and the responses heard.

  function Heard(calls: seq<Call>): seq<Response> {
    if calls == [] then []
    else
      var last := calls[|calls| - 1];
      Heard(calls[..|calls| - 1]) + if last.reply.Answered? then [last.reply.response] else []
  }

  /** Only those heard while tools could still be called. */
  function HeardInLoop(calls: seq<Call>): seq<Response> {
    if calls == [] then []
    else
      var last := calls[|calls| - 1];
      HeardInLoop(calls[..|calls| - 1])
      + if last.request.tools && last.reply.Answered? then [last.reply.response] else []
  }

  function TokensOf(heard: seq<Response>): int {
    if heard == [] then 0 else TokensOf(heard[..|heard| - 1]) + heard[|heard| - 1].tokens
  }

  function ToolNames(heard: seq<Response>): seq<string> {
    if heard == [] then [] else ToolNames(heard[..|heard| - 1]) + NamesOf(ToolCallsOf(heard[|heard| - 1].content))
  }

  /** The last model named. */
  function LastModel(heard: seq<Response>): Name {
    if heard == [] then NO_MODEL
    else if heard[|heard| - 1].modelUsed != NO_MODEL then heard[|heard| - 1].modelUsed
    else LastModel(heard[..|heard| - 1])
  }

  lemma HeardOneMore(calls: seq<Call>, c: Call)
    ensures Heard(calls + [c]) == Heard(calls) + if c.reply.Answered? then [c.reply.response] else []
    ensures HeardInLoop(calls + [c])
         == HeardInLoop(calls) + if c.request.tools && c.reply.Answered? then [c.reply.response] else []
  {
    assert (calls + [c])[..|calls|] == calls;
  }

  lemma FoldsOneMore(heard: seq<Response>, r: Response)
    ensures TokensOf(heard + [r]) == TokensOf(heard) + r.tokens
    ensures ToolNames(heard + [r]) == ToolNames(heard) + NamesOf(ToolCallsOf(r.content))
    ensures LastModel(heard + [r]) == OrElse(r.modelUsed, LastModel(heard))
  {
    assert (heard + [r])[..|heard|] == heard;
  }

  /** Every provider call is in the ledger at its own number. */
  ghost predicate Ledger(env: Env, calls: seq<Call>) {
    forall k :: 0 <= k < |calls| ==> LedgerAt(env, calls, k)
  }

  ghost predicate LedgerAt(env: Env, calls: seq<Call>, k: nat)
    requires k < |calls|
  {
    calls[k].reply == env.provider(k, calls[k].request)
  }

  // The retries of one turn.

  /** `asked` made between one and `attempts` calls with one request, all failures but perhaps the last,
      and gave up early only on an error that is not retried. */
  ghost predicate Attempted(env: Env, request: Request, before: seq<Call>, asked: Asked, attempts: nat) {
    && |before| < |asked.calls| <= |before| + attempts
    && asked.calls[..|before|] == before
    && (forall k :: |before| <= k < |asked.calls| ==> asked.calls[k] == Call(request, env.provider(k, request)))
    && (forall k :: |before| <= k < |asked.calls| - 1 ==> FailedTransiently(asked.calls[k]))
    && match asked.result {
         case Ok(r) => asked.calls[|asked.calls| - 1].reply == Answered(r)
         case Err(e) =>
           && asked.calls[|asked.calls| - 1].reply == Failed(e)
           && (IsTransient(e) ==> |asked.calls| == |before| + attempts)
       }
  }

  predicate FailedTransiently(c: Call) { c.reply.Failed? && IsTransient(c.reply.error) }

  /** A transport error, or an exhausted chain. */
  predicate IsTransient(e: GatewayError) { e == TransportError || e == ChainExhausted }

  lemma OneAttemptMore(env: Env, request: Request, before: seq<Call>, call: Call, asked: Asked, attempts: nat)
    requires call == Call(request, env.provider(|before|, request)) && FailedTransiently(call)
    requires Attempted(env, request, before + [call], asked, attempts)
    ensures Attempted(env, request, before, asked, attempts + 1)
  {
    var n := |before|;
    assert asked.calls[n] == asked.calls[..n + 1][n] == call;
    assert asked.calls[..n] == asked.calls[..n + 1][..n] == before;
  }

  lemma {:induction false} CallTurnAttempts(env: Env, request: Request, calls: seq<Call>, attempt: nat)
    requires attempt < 3
    ensures Attempted(env, request, calls, CallTurn(env, request, calls, attempt), 3 - attempt)
    decreases ATTEMPTS - attempt
  {
    var call := Ask(env, request, calls);
    if call.reply.Failed? && Retried(call.reply.error) && attempt + 1 < ATTEMPTS {
      CallTurnAttempts(env, request, calls + [call], attempt + 1);
      var asked := CallTurn(env, request, calls + [call], attempt + 1);
      OneAttemptMore(env, request, calls, call, asked, ATTEMPTS - (attempt + 1));
    }
  }

  /** Failed attempts leave no trace in what is heard. */
  lemma {:induction false} HeardThrough(env: Env, request: Request, before: seq<Call>, asked: Asked, attempts: nat,
                                        k: nat)
    requires Attempted(env, request, before, asked, attempts) && |before| <= k < |asked.calls|
    ensures Heard(asked.calls[..k]) == Heard(before)
    decreases k
  {
    if k > |before| {
      HeardThrough(env, request, before, asked, attempts, k - 1);
      assert asked.calls[..k] == asked.calls[..k - 1] + [asked.calls[k - 1]];
      assert FailedTransiently(asked.calls[k - 1]);
      HeardOneMore(asked.calls[..k - 1], asked.calls[k - 1]);
    }
  }

  lemma HeardAfter(env: Env, request: Request, before: seq<Call>, asked: Asked, attempts: nat)
    requires Attempted(env, request, before, asked, attempts)
    ensures Heard(asked.calls) == Heard(before) + if asked.result.Ok? then [asked.result.value] else []
  {
    var last := |asked.calls| - 1;
    HeardThrough(env, request, before, asked, attempts, last);
    assert asked.calls == asked.calls[..last] + [asked.calls[last]];
    HeardOneMore(asked.calls[..last], asked.calls[last]);
  }

  // Conversations.

  function CallIds(content: seq<Block>): seq<string> { IdsOf(ToolCallsOf(content)) }

  function IdsOf(calls: seq<Block>): seq<string>
    requires forall b | b in calls :: b.ToolCall?
  {
    if calls == [] then [] else IdsOf(calls[..|calls| - 1]) + [calls[|calls| - 1].id]
  }

  function ResultIds(content: seq<Block>): seq<string> {
    if content == [] then []
    else
      var last := content[|content| - 1];
      ResultIds(content[..|content| - 1]) + if last.ToolResult? then [last.callId] else []
  }

  /** User first, then in turns. */
  ghost predicate Alternates(ms: seq<Message>) {
    forall i :: 0 <= i < |ms| ==> ms[i].role == if i % 2 == 0 then User else Assistant
  }

  /** A user message holds results for exactly the tool calls of the assistant message before it, in
      their order, and no assistant message is left without that answer. */
  ghost predicate PairedAt(ms: seq<Message>, i: nat)
    requires i < |ms|
  {
    if ms[i].role == User then
      ResultIds(ms[i].content) == if i > 0 && ms[i - 1].role == Assistant then CallIds(ms[i - 1].content) else []
    else
      i + 1 < |ms| && ms[i + 1].role == User
  }

  ghost predicate Paired(ms: seq<Message>) { forall i :: 0 <= i < |ms| ==> PairedAt(ms, i) }

  /** The assistant's side of the conversation is what was heard, in order. */
  ghost predicate Recorded(ms: seq<Message>, heard: seq<Response>) {
    && |ms| == 2 * |heard| + 1
    && forall j :: 0 <= j < |heard| ==> RecordedAt(ms, heard, j)
  }

  ghost predicate RecordedAt(ms: seq<Message>, heard: seq<Response>, j: nat)
    requires |ms| == 2 * |heard| + 1 && j < |heard|
  {
    ms[2 * j + 1] == Message(Assistant, heard[j].content)
  }

  lemma AlternatesOn(ms: seq<Message>, a: Message, u: Message)
    requires Alternates(ms) && |ms| % 2 == 1 && a.role == Assistant && u.role == User
    ensures Alternates(ms + [a, u])
  {
  }

  lemma PairedOn(ms: seq<Message>, a: Message, u: Message)
    requires Paired(ms) && ms != [] && ms[|ms| - 1].role == User
    requires a.role == Assistant && u.role == User && ResultIds(u.content) == CallIds(a.content)
    ensures Paired(ms + [a, u])
  {
    var longer := ms + [a, u];
    forall i | 0 <= i < |longer| ensures PairedAt(longer, i) {
      if i < |ms| { assert PairedAt(ms, i); }
    }
  }

  lemma RecordedOn(ms: seq<Message>, heard: seq<Response>, r: Response, u: Message)
    requires Recorded(ms, heard)
    ensures Recorded(ms + [Message(Assistant, r.content), u], heard + [r])
  {
    var longer := ms + [Message(Assistant, r.content), u];
    forall j | 0 <= j < |heard| + 1 ensures RecordedAt(longer, heard + [r], j) {
      if j < |heard| { assert RecordedAt(ms, heard, j); }
    }
  }

  // What a reply with tool calls is answered with.

  /** How many tool calls the replies before the `j`-th make. */
  function CallsBefore(heard: seq<Response>, j: nat): nat
    requires j <= |heard|
  {
    if j == 0 then 0 else CallsBefore(heard, j - 1) + |ToolCallsOf(heard[j - 1].content)|
  }

  /** The block answers the `n`-th tool call of the run: an error when the tool is unknown or the
      arguments do not conform, and otherwise what the tool returned, its first 8000 characters, or the
      error it raised. */
  ghost predicate AnswersCall(env: Env, n: nat, call: Block, block: Block)
    requires call.ToolCall?
  {
    && block.ToolResult? && block.callId == call.id
    && if call.name !in env.tools then !block.ok && block.payload == env.texts.unknownTool(call.name)
       else if !ToolArgs.Conforms(env.tools[call.name], call.args) then
         !block.ok && exists why :: ToolArgs.Breaks(env.tools[call.name], call.args, why)
                                    && block.payload == env.texts.rejection(why)
       else
         match env.invoke(n, call.name, call.args)
         case ToolRaised(message) => !block.ok && block.payload == message
         case Returned(value) =>
           block.ok && block.payload <= value && |block.payload| == if |value| <= 8000 then |value| else 8000
  }

  /** The blocks begin with the answers to the calls, the first of which is the `n`-th of the run. */
  ghost predicate AnswersEach(env: Env, n: nat, calls: seq<Block>, blocks: seq<Block>)
    requires forall b | b in calls :: b.ToolCall?
  {
    |calls| <= |blocks| && forall i: nat | i < |calls| :: AnswersCall(env, n + i, calls[i], blocks[i])
  }

  /** The message after the `j`-th reply answers its tool calls one by one and in order, with the budget
      notice behind them when eight or three turns are left; a reply without any leaked. */
  ghost predicate FeedbackAt(env: Env, ms: seq<Message>, heard: seq<Response>, j: nat)
    requires |ms| == 2 * |heard| + 1 && j < |heard|
  {
    var calls, blocks, left := ToolCallsOf(heard[j].content), ms[2 * j + 2].content, env.maxTurns - (j + 1);
    if calls == [] then blocks == [Text(env.texts.leaked)]
    else
      && |blocks| == |calls| + (if left == 8 || left == 3 then 1 else 0)
      && AnswersEach(env, CallsBefore(heard, j), calls, blocks)
      && ((left == 8 || left == 3) ==> blocks[|calls|] == Text(env.texts.nudge(left)))
  }

  ghost predicate Fed(env: Env, ms: seq<Message>, heard: seq<Response>) {
    |ms| == 2 * |heard| + 1 && forall j: nat | j < |heard| :: FeedbackAt(env, ms, heard, j)
  }

  lemma {:induction false} CallsBeforeStays(heard: seq<Response>, r: Response, j: nat)
    requires j <= |heard|
    ensures CallsBefore(heard + [r], j) == CallsBefore(heard, j)
  {
    if j > 0 { CallsBeforeStays(heard, r, j - 1); }
  }

  lemma {:induction false} NamesAreNames(calls: seq<Block>)
    requires forall b | b in calls :: b.ToolCall?
    ensures |NamesOf(calls)| == |calls| && forall i | 0 <= i < |calls| :: NamesOf(calls)[i] == calls[i].name
  {
    if calls != [] { NamesAreNames(calls[..|calls| - 1]); }
  }

  lemma {:induction false} LogCountsCalls(heard: seq<Response>)
    ensures |ToolNames(heard)| == CallsBefore(heard, |heard|)
  {
    if heard != [] {
      var last := |heard| - 1;
      LogCountsCalls(heard[..last]);
      NamesAreNames(ToolCallsOf(heard[last].content));
      CallsBeforeStays(heard[..last], heard[last], last);
      assert heard[..last] + [heard[last]] == heard;
    }
  }

  lemma ResultAnswersCall(env: Env, n: nat, call: Block)
    requires call.ToolCall?
    ensures AnswersCall(env, n, call, ResultOf(env, n, call))
  {
    if call.name in env.tools { ToolArgs.NothingRejectedIffConforms(env.tools[call.name], call.args); }
  }

  lemma {:induction false} ResultsAnswerCalls(env: Env, n: nat, calls: seq<Block>)
    requires forall b | b in calls :: b.ToolCall?
    ensures |Results(env, n, calls)| == |calls| && AnswersEach(env, n, calls, Results(env, n, calls))
  {
    if calls != [] {
      var last := |calls| - 1;
      ResultsAnswerCalls(env, n, calls[..last]);
      ResultAnswersCall(env, n + last, calls[last]);
    }
  }

  lemma AnswersAndMore(env: Env, n: nat, calls: seq<Block>, blocks: seq<Block>, more: seq<Block>)
    requires (forall b | b in calls :: b.ToolCall?) && AnswersEach(env, n, calls, blocks)
    ensures AnswersEach(env, n, calls, blocks + more)
  {
    forall i: nat | i < |calls| ensures AnswersCall(env, n + i, calls[i], (blocks + more)[i]) {
      assert AnswersCall(env, n + i, calls[i], blocks[i]);
    }
  }

  lemma FeedbackStays(env: Env, ms: seq<Message>, heard: seq<Response>, r: Response, a: Message, u: Message, j: nat)
    requires |ms| == 2 * |heard| + 1 && j < |heard| && FeedbackAt(env, ms, heard, j)
    ensures FeedbackAt(env, ms + [a, u], heard + [r], j)
  {
    CallsBeforeStays(heard, r, j);
    var calls := ToolCallsOf(heard[j].content);
    assert (ms + [a, u])[2 * j + 2] == ms[2 * j + 2] && (heard + [r])[j] == heard[j];
  }

  lemma FedOn(env: Env, ms: seq<Message>, heard: seq<Response>, r: Response, a: Message, u: Message)
    requires Fed(env, ms, heard) && FeedbackAt(env, ms + [a, u], heard + [r], |heard|)
    ensures Fed(env, ms + [a, u], heard + [r])
  {
    forall j: nat | j < |heard| + 1 ensures FeedbackAt(env, ms + [a, u], heard + [r], j) {
      if j < |heard| { FeedbackStays(env, ms, heard, r, a, u, j); }
    }
  }

  lemma FeedbackIsLast(env: Env, s: Loop, r: Response, ms: seq<Message>, heard: seq<Response>, left: nat)
    requires |ms| == 2 * |heard| + 3 && ToolCallsOf(r.content) != [] && left == env.maxTurns - (|heard| + 1)
    requires |s.toolLog| == CallsBefore(heard + [r], |heard|) && ms[|ms| - 1] == Feedback(env, s, r, left)
    ensures FeedbackAt(env, ms, heard + [r], |heard|)
  {
    var calls := ToolCallsOf(r.content);
    ResultsAnswerCalls(env, |s.toolLog|, calls);
    AnswersAndMore(env, |s.toolLog|, calls, Results(env, |s.toolLog|, calls), Nudge(env, left));
    assert (heard + [r])[|heard|] == r;
  }

  lemma ToolsAreFed(env: Env, s: Loop, r: Response, ms: seq<Message>, heard: seq<Response>, left: nat)
    requires Fed(env, ms, heard) && ToolCallsOf(r.content) != [] && left == env.maxTurns - (|heard| + 1)
    requires s.toolLog == ToolNames(heard)
    ensures Fed(env, ms + [Message(Assistant, r.content), Feedback(env, s, r, left)], heard + [r])
  {
    var a, u := Message(Assistant, r.content), Feedback(env, s, r, left);
    LogCountsCalls(heard);
    CallsBeforeStays(heard, r, |heard|);
    FeedbackIsLast(env, s, r, ms + [a, u], heard, left);
    FedOn(env, ms, heard, r, a, u);
  }

  lemma LeaksAreFed(env: Env, r: Response, ms: seq<Message>, heard: seq<Response>)
    requires Fed(env, ms, heard) && ToolCallsOf(r.content) == []
    ensures Fed(env, ms + [Message(Assistant, r.content), Say(env.texts.leaked)], heard + [r])
  {
    var a, u := Message(Assistant, r.content), Say(env.texts.leaked);
    assert (ms + [a, u])[2 * |heard| + 2] == u && (heard + [r])[|heard|] == r;
    FedOn(env, ms, heard, r, a, u);
  }

  lemma ResultIdsOneMore(content: seq<Block>, b: Block)
    ensures ResultIds(content + [b]) == ResultIds(content) + if b.ToolResult? then [b.callId] else []
  {
    assert (content + [b])[..|content|] == content;
  }

  lemma {:induction false} ResultsAnswer(env: Env, n: nat, calls: seq<Block>)
    requires forall b | b in calls :: b.ToolCall?
    ensures ResultIds(Results(env, n, calls)) == IdsOf(calls)
  {
    if calls != [] {
      var last := |calls| - 1;
      ResultsAnswer(env, n, calls[..last]);
      ResultIdsOneMore(Results(env, n, calls[..last]), ResultOf(env, n + last, calls[last]));
    }
  }

  /** Whichever branch handled each call, the feedback answers all of them, in order. */
  lemma FeedbackAnswers(env: Env, s: Loop, r: Response, remaining: nat)
    ensures ResultIds(Feedback(env, s, r, remaining).content) == CallIds(r.content)
  {
    var results := Results(env, |s.toolLog|, ToolCallsOf(r.content));
    ResultsAnswer(env, |s.toolLog|, ToolCallsOf(r.content));
    if remaining in NUDGED_TURNS {
      ResultIdsOneMore(results, Text(env.texts.nudge(remaining)));
    } else {
      assert results + [] == results;
    }
  }

  lemma SaysNothingOfTools(text: string)
    ensures ResultIds(Say(text).content) == []
  {
    ResultIdsOneMore([], Text(text));
    assert [] + [Text(text)] == [Text(text)];
  }

  // Skipped models.

  /** The `j`-th response leaked, right after a leak that was not blamed on its own model, and names a model. */
  ghost predicate Blamed(env: Env, heard: seq<Response>, j: nat) {
    && 1 <= j < |heard| && Leaked(env, heard[j]) && heard[j].modelUsed != NO_MODEL
    && Leaked(env, heard[j - 1]) && !Blamed(env, heard, j - 1)
  }

  ghost predicate BlamedOn(env: Env, heard: seq<Response>, j: nat, m: Name) {
    Blamed(env, heard, j) && heard[j].modelUsed == m
  }

  /** Exactly the models on which a leak is blamed are skipped. */
  ghost predicate SkipsLeakers(env: Env, skip: set<Name>, heard: seq<Response>) {
    forall m :: m in skip <==> exists j: nat :: BlamedOn(env, heard, j, m)
  }

  /** What the leak counter remembers: the last response leaked and is not blamed. */
  ghost predicate CountsLeaks(env: Env, s: Loop, heard: seq<Response>) {
    s.leaks > 0 <==> heard != [] && Leaked(env, heard[|heard| - 1]) && !Blamed(env, heard, |heard| - 1)
  }

  lemma {:induction false} BlamedStays(env: Env, heard: seq<Response>, r: Response, j: nat)
    requires j < |heard|
    ensures Blamed(env, heard, j) <==> Blamed(env, heard + [r], j)
  {
    if j > 0 { BlamedStays(env, heard, r, j - 1); }
  }

  /** One response more: its model joins the skip set exactly when the response is blamed. */
  lemma SkipsLeakersOn(env: Env, skip: set<Name>, heard: seq<Response>, r: Response)
    requires SkipsLeakers(env, skip, heard)
    ensures SkipsLeakers(env, if Blamed(env, heard + [r], |heard|) then skip + {r.modelUsed} else skip, heard + [r])
  {
    var longer := heard + [r];
    var wider := if Blamed(env, longer, |heard|) then skip + {r.modelUsed} else skip;
    forall m ensures m in wider <==> exists j: nat :: BlamedOn(env, longer, j, m) {
      if m in skip {
        var j: nat :| BlamedOn(env, heard, j, m);
        BlamedStays(env, heard, r, j);
        assert BlamedOn(env, longer, j, m);
      } else if m in wider {
        assert BlamedOn(env, longer, |heard|, m);
      } else if j: nat :| BlamedOn(env, longer, j, m) {
        if j < |heard| {
          BlamedStays(env, heard, r, j);
          assert BlamedOn(env, heard, j, m);
        }
      }
    }
  }

  /** The counter, reset at every blame and by every other reply, skips exactly the blamed models. */
  lemma LeakKeepsSkips(env: Env, s: Loop, r: Response, heard: seq<Response>)
    requires SkipsLeakers(env, s.skip, heard) && CountsLeaks(env, s, heard) && Leaked(env, r)
    ensures SkipsLeakers(env, AfterLeak(env, s, r).skip, heard + [r])
    ensures CountsLeaks(env, AfterLeak(env, s, r), heard + [r])
  {
    if heard != [] { BlamedStays(env, heard, r, |heard| - 1); }
    SkipsLeakersOn(env, s.skip, heard, r);
  }

  lemma ToolsKeepSkips(env: Env, s: Loop, r: Response, heard: seq<Response>)
    requires SkipsLeakers(env, s.skip, heard) && !Leaked(env, r)
    ensures SkipsLeakers(env, s.skip, heard + [r])
  {
    SkipsLeakersOn(env, s.skip, heard, r);
  }

  /** The `j`-th response and the one before it both leaked, and the `j`-th names its model. */
  ghost predicate LeakedTwice(env: Env, heard: seq<Response>, j: nat, m: Name) {
    && 1 <= j < |heard| && Leaked(env, heard[j - 1]) && Leaked(env, heard[j])
    && heard[j].modelUsed == m && m != NO_MODEL
  }

  /** A skipped model made the second of two leaks in a row, and a model that made both is skipped. */
  lemma SkippedForTwoLeaks(env: Env, skip: set<Name>, heard: seq<Response>, m: Name)
    requires SkipsLeakers(env, skip, heard)
    ensures m in skip ==> exists j: nat :: LeakedTwice(env, heard, j, m)
    ensures (exists j: nat :: LeakedTwice(env, heard, j, m) && heard[j - 1].modelUsed == m) ==> m in skip
  {
    if m in skip {
      var j: nat :| BlamedOn(env, heard, j, m);
      assert LeakedTwice(env, heard, j, m);
    }
    if j: nat :| LeakedTwice(env, heard, j, m) && heard[j - 1].modelUsed == m {
      assert BlamedOn(env, heard, j, m) || BlamedOn(env, heard, j - 1, m);
    }
  }

  // What each turn keeps.

  ghost predicate Converses(ms: seq<Message>, heard: seq<Response>) {
    Recorded(ms, heard) && Alternates(ms) && Paired(ms)
  }

  /** The `k`-th call offers the tools, and asks with the whole conversation and the skip set earned so far. */
  ghost predicate AskedAt(env: Env, calls: seq<Call>, k: nat)
    requires k < |calls|
  {
    && calls[k].request.tools && |Heard(calls[..k])| < env.maxTurns
    && Converses(calls[k].request.messages, Heard(calls[..k]))
    && Fed(env, calls[k].request.messages, Heard(calls[..k]))
    && SkipsLeakers(env, calls[k].request.skip, Heard(calls[..k]))
  }

  ghost predicate AllAsked(env: Env, calls: seq<Call>) { forall k :: 0 <= k < |calls| ==> AskedAt(env, calls, k) }

  ghost predicate Tallied(s: Loop, heard: seq<Response>) {
    s.tokens == TokensOf(heard) && s.toolLog == ToolNames(heard) && s.modelUsed == LastModel(heard)
  }

  /** From one call to the next the conversation is only extended and the skip set only grows. */
  ghost predicate OnlyGrows(calls: seq<Call>) { forall k :: 0 <= k < |calls| - 1 ==> GrowsAt(calls, k) }

  ghost predicate GrowsAt(calls: seq<Call>, k: nat)
    requires k < |calls| - 1
  {
    Extends(calls[k].request, calls[k + 1].request.messages, calls[k + 1].request.skip)
  }

  ghost predicate Extends(request: Request, messages: seq<Message>, skip: set<Name>) {
    request.messages <= messages && request.skip <= skip
  }

  ghost predicate Grown(s: Loop) {
    OnlyGrows(s.calls) && (s.calls != [] ==> Extends(s.calls[|s.calls| - 1].request, s.messages, s.skip))
  }

  ghost predicate Kept(env: Env, turn: nat, s: Loop) {
    var heard := Heard(s.calls);
    && |heard| == turn && |s.calls| <= ATTEMPTS * turn
    && Tallied(s, heard)
    && Converses(s.messages, heard) && Fed(env, s.messages, heard)
    && SkipsLeakers(env, s.skip, heard) && CountsLeaks(env, s, heard)
    && Ledger(env, s.calls) && AllAsked(env, s.calls) && Grown(s)
  }

  lemma StartKept(env: Env, prompt: string)
    ensures Kept(env, 0, Start(prompt))
  {
    SaysNothingOfTools(prompt);
    assert forall j: nat, m :: !BlamedOn(env, [], j, m);
  }

  function InLoop(s: Loop): Request { Request(s.messages, true, s.skip) }

  lemma LedgerOn(env: Env, request: Request, before: seq<Call>, asked: Asked)
    requires Ledger(env, before) && Attempted(env, request, before, asked, ATTEMPTS)
    ensures Ledger(env, asked.calls)
  {
    forall k | 0 <= k < |asked.calls| ensures LedgerAt(env, asked.calls, k) {
      if k < |before| {
        assert LedgerAt(env, before, k);
        assert asked.calls[k] == asked.calls[..|before|][k];
      }
    }
  }

  lemma AskedOn(env: Env, turn: nat, s: Loop, asked: Asked)
    requires Kept(env, turn, s) && turn < env.maxTurns && Attempted(env, InLoop(s), s.calls, asked, ATTEMPTS)
    ensures AllAsked(env, asked.calls)
  {
    forall k | 0 <= k < |asked.calls| ensures AskedAt(env, asked.calls, k) {
      if k < |s.calls| {
        assert AskedAt(env, s.calls, k);
        assert asked.calls[k] == asked.calls[..|s.calls|][k];
        assert asked.calls[..k] == asked.calls[..|s.calls|][..k];
      } else {
        HeardThrough(env, InLoop(s), s.calls, asked, ATTEMPTS, k);
      }
    }
  }

  lemma ConversesOn(ms: seq<Message>, heard: seq<Response>, r: Response, u: Message)
    requires Converses(ms, heard) && u.role == User && ResultIds(u.content) == CallIds(r.content)
    ensures Converses(ms + [Message(Assistant, r.content), u], heard + [r])
  {
    RecordedOn(ms, heard, r, u);
    AlternatesOn(ms, Message(Assistant, r.content), u);
    PairedOn(ms, Message(Assistant, r.content), u);
  }

  /** How a turn that goes on extends the conversation. */
  lemma TurnGoesOn(env: Env, turn: nat, s: Loop) returns (r: Response)
    requires turn < env.maxTurns && Turn(env, turn, s).Going?
    ensures var next := Turn(env, turn, s).state;
            && Heard(next.calls) == Heard(s.calls) + [r]
            && next.messages == s.messages + [Message(Assistant, r.content),
                                              if ToolCallsOf(r.content) == [] then Say(env.texts.leaked)
                                              else Feedback(env, s, r, env.maxTurns - (turn + 1))]
  {
    var asked := CallTurn(env, InLoop(s), s.calls, 0);
    r := asked.result.value;
    CallTurnAttempts(env, InLoop(s), s.calls, 0);
    HeardAfter(env, InLoop(s), s.calls, asked, ATTEMPTS);
  }

  lemma TurnKeepsConversation(env: Env, turn: nat, s: Loop)
    requires turn < env.maxTurns && Turn(env, turn, s).Going? && Converses(s.messages, Heard(s.calls))
    ensures Converses(Turn(env, turn, s).state.messages, Heard(Turn(env, turn, s).state.calls))
  {
    var r := TurnGoesOn(env, turn, s);
    if ToolCallsOf(r.content) != [] {
      FeedbackAnswers(env, s, r, env.maxTurns - (turn + 1));
      ConversesOn(s.messages, Heard(s.calls), r, Feedback(env, s, r, env.maxTurns - (turn + 1)));
    } else {
      SaysNothingOfTools(env.texts.leaked);
      ConversesOn(s.messages, Heard(s.calls), r, Say(env.texts.leaked));
    }
  }

  lemma TurnFeeds(env: Env, turn: nat, s: Loop)
    requires turn < env.maxTurns && Turn(env, turn, s).Going? && Fed(env, s.messages, Heard(s.calls))
    requires s.toolLog == ToolNames(Heard(s.calls)) && |Heard(s.calls)| == turn
    ensures Fed(env, Turn(env, turn, s).state.messages, Heard(Turn(env, turn, s).state.calls))
  {
    var r := TurnGoesOn(env, turn, s);
    if ToolCallsOf(r.content) != [] {
      ToolsAreFed(env, s, r, s.messages, Heard(s.calls), env.maxTurns - (turn + 1));
    } else {
      LeaksAreFed(env, r, s.messages, Heard(s.calls));
    }
  }

  lemma TurnKeepsSkips(env: Env, turn: nat, s: Loop)
    requires Kept(env, turn, s) && turn < env.maxTurns && Turn(env, turn, s).Going?
    ensures var next := Turn(env, turn, s).state;
            SkipsLeakers(env, next.skip, Heard(next.calls)) && CountsLeaks(env, next, Heard(next.calls))
  {
    var asked := CallTurn(env, InLoop(s), s.calls, 0);
    CallTurnAttempts(env, InLoop(s), s.calls, 0);
    HeardAfter(env, InLoop(s), s.calls, asked, ATTEMPTS);
    var r := asked.result.value;
    var heard := Hear(s, r, asked.calls);
    if ToolCallsOf(r.content) != [] {
      ToolsKeepSkips(env, heard, r, Heard(s.calls));
    } else {
      LeakKeepsSkips(env, heard, r, Heard(s.calls));
    }
  }

  lemma TurnKeepsTally(env: Env, turn: nat, s: Loop)
    requires turn < env.maxTurns && Turn(env, turn, s).Going? && Tallied(s, Heard(s.calls))
    ensures var next := Turn(env, turn, s).state;
            |Heard(next.calls)| == |Heard(s.calls)| + 1 && Tallied(next, Heard(next.calls))
  {
    var r := TurnAdds(env, turn, s);
    FoldsOneMore(Heard(s.calls), r);
  }

  lemma TurnAdds(env: Env, turn: nat, s: Loop) returns (r: Response)
    requires turn < env.maxTurns && Turn(env, turn, s).Going?
    ensures var next := Turn(env, turn, s).state;
            && Heard(next.calls) == Heard(s.calls) + [r] && next.tokens == s.tokens + r.tokens
            && next.toolLog == s.toolLog + NamesOf(ToolCallsOf(r.content))
            && next.modelUsed == OrElse(r.modelUsed, s.modelUsed)
  {
    var asked := CallTurn(env, InLoop(s), s.calls, 0);
    r := asked.result.value;
    CallTurnAttempts(env, InLoop(s), s.calls, 0);
    HeardAfter(env, InLoop(s), s.calls, asked, ATTEMPTS);
    assert s.toolLog + [] == s.toolLog;
  }

  lemma TurnKeepsLedger(env: Env, turn: nat, s: Loop)
    requires Kept(env, turn, s) && turn < env.maxTurns && Turn(env, turn, s).Going?
    ensures var next := Turn(env, turn, s).state;
            |next.calls| <= ATTEMPTS * (turn + 1) && Ledger(env, next.calls) && AllAsked(env, next.calls)
  {
    var asked := CallTurn(env, InLoop(s), s.calls, 0);
    CallTurnAttempts(env, InLoop(s), s.calls, 0);
    LedgerOn(env, InLoop(s), s.calls, asked);
    AskedOn(env, turn, s, asked);
  }

  lemma GrowsOn(before: seq<Call>, asked: seq<Call>, request: Request)
    requires OnlyGrows(before) && |before| < |asked| && asked[..|before|] == before
    requires before != [] ==> Extends(before[|before| - 1].request, request.messages, request.skip)
    requires forall k :: |before| <= k < |asked| ==> asked[k].request == request
    ensures OnlyGrows(asked)
  {
    forall k | 0 <= k < |asked| - 1 ensures GrowsAt(asked, k) {
      if k < |before| {
        assert asked[k] == asked[..|before|][k];
        if k < |before| - 1 {
          assert GrowsAt(before, k);
          assert asked[k + 1] == asked[..|before|][k + 1];
        }
      }
    }
  }

  lemma TurnKeepsGrowth(env: Env, turn: nat, s: Loop)
    requires Kept(env, turn, s) && turn < env.maxTurns
    ensures OnlyGrows(CallTurn(env, InLoop(s), s.calls, 0).calls)
    ensures Turn(env, turn, s).Going? ==> Grown(Turn(env, turn, s).state)
  {
    CallTurnAttempts(env, InLoop(s), s.calls, 0);
    GrowsOn(s.calls, CallTurn(env, InLoop(s), s.calls, 0).calls, InLoop(s));
  }

  lemma TurnKeeps(env: Env, turn: nat, s: Loop)
    requires Kept(env, turn, s) && turn < env.maxTurns && Turn(env, turn, s).Going?
    ensures Kept(env, turn + 1, Turn(env, turn, s).state)
  {
    TurnKeepsConversation(env, turn, s);
    TurnFeeds(env, turn, s);
    TurnKeepsSkips(env, turn, s);
    TurnKeepsTally(env, turn, s);
    TurnKeepsLedger(env, turn, s);
    TurnKeepsGrowth(env, turn, s);
  }

  /** What every turn that goes on keeps holds when the last turn begins. */
  lemma {:induction false} LastTurn(env: Env, keeps: (nat, Loop) -> bool, turn: nat, s: Loop)
    returns (t: nat, last: Loop)
    requires keeps(turn, s) && turn <= env.maxTurns
    requires forall n: nat, x | n < env.maxTurns && keeps(n, x) && Turn(env, n, x).Going? ::
               keeps(n + 1, Turn(env, n, x).state)
    ensures t <= env.maxTurns && keeps(t, last)
    ensures match Turns(env, turn, s)
            case Going(end) => t == env.maxTurns && last == end
            case Stopped(_) => t < env.maxTurns && Turn(env, t, last) == Turns(env, turn, s)
    decreases env.maxTurns - turn
  {
    t, last := turn, s;
    if turn < env.maxTurns && Turn(env, turn, s).Going? {
      t, last := LastTurn(env, keeps, turn + 1, Turn(env, turn, s).state);
    }
  }

  // Whole runs.

  ghost function KeptBy(env: Env): (nat, Loop) -> bool { (turn: nat, s: Loop) => Kept(env, turn, s) }

  lemma TurnsKeep(env: Env)
    ensures forall n: nat, x | n < env.maxTurns && KeptBy(env)(n, x) && Turn(env, n, x).Going? ::
              KeptBy(env)(n + 1, Turn(env, n, x).state)
  {
    forall n: nat, x | n < env.maxTurns && KeptBy(env)(n, x) && Turn(env, n, x).Going?
      ensures KeptBy(env)(n + 1, Turn(env, n, x).state)
    {
      TurnKeeps(env, n, x);
    }
  }

  lemma RunEnds(env: Env, prompt: string) returns (t: nat, last: Loop)
    requires env.tools != map[]
    ensures t <= env.maxTurns && Kept(env, t, last)
    ensures if t < env.maxTurns then Turn(env, t, last) == Stopped(Run(env, prompt))
            else Run(env, prompt) == WrapUp(env, last)
  {
    StartKept(env, prompt);
    TurnsKeep(env);
    t, last := LastTurn(env, KeptBy(env), 0, Start(prompt));
  }

  lemma WrapUpCalls(env: Env, s: Loop)
    ensures var calls, n := WrapUp(env, s).calls, |s.calls|;
            && n < |calls| <= n + 2 && calls[..n] == s.calls
            && calls[n] == Ask(env, WrapUpRequest(env, s), s.calls)
            && (|calls| == n + 2 ==>
                  && calls[n].reply.Answered?
                  && calls[n + 1].request == RetryRequest(env, calls[n].request, calls[n].reply.response)
                  && LedgerAt(env, calls, n + 1))
  {
  }

  lemma LoopRecords(env: Env, turn: nat, s: Loop)
    requires Kept(env, turn, s) && turn < env.maxTurns && Turn(env, turn, s).Stopped?
    ensures var calls := Turn(env, turn, s).outcome.calls;
            Ledger(env, calls) && |calls| <= ATTEMPTS * (turn + 1)
  {
    CallTurnAttempts(env, InLoop(s), s.calls, 0);
    LedgerOn(env, InLoop(s), s.calls, CallTurn(env, InLoop(s), s.calls, 0));
  }

  lemma WrapUpRecords(env: Env, s: Loop)
    requires Ledger(env, s.calls)
    ensures Ledger(env, WrapUp(env, s).calls)
  {
    WrapUpCalls(env, s);
    var calls := WrapUp(env, s).calls;
    forall k | 0 <= k < |calls| ensures LedgerAt(env, calls, k) {
      if k < |s.calls| {
        assert LedgerAt(env, s.calls, k);
        assert calls[k] == calls[..|s.calls|][k];
      }
    }
  }

  /** Every provider call of a run is in the ledger once, at its own number, and there are at most
      three for each turn and two for the wrap-up. */
  lemma EveryCallIsRecorded(env: Env, prompt: string)
    requires env.tools != map[]
    ensures Ledger(env, Run(env, prompt).calls) && |Run(env, prompt).calls| <= 3 * env.maxTurns + 2
  {
    var t, s := RunEnds(env, prompt);
    if t < env.maxTurns {
      LoopRecords(env, t, s);
    } else {
      WrapUpCalls(env, s);
      WrapUpRecords(env, s);
    }
  }

  /** The conversation so far, and the request to answer without tools. */
  ghost predicate WrapsUp(env: Env, ms: seq<Message>, heard: seq<Response>) {
    && ms != [] && ms[|ms| - 1] == Message(User, [Text(env.texts.budgetSpent)])
    && Recorded(ms[..|ms| - 1], heard) && Fed(env, ms[..|ms| - 1], heard)
  }

  /** The conversation of the `k`-th call of a run. With tools offered it is well formed: user first
      and last, alternating, the assistant's side exactly what was heard, every tool call answered by
      the next message. The wrap-up keeps the answers paired but never alternates; its retry pairs
      them exactly when the leaking wrap-up made no tool call. Exactly the blamed models are skipped,
      and by the retry the one that leaked the wrap-up. */
  ghost predicate ConversesAt(env: Env, calls: seq<Call>, k: nat)
    requires k < |calls|
  {
    var ms := calls[k].request.messages;
    if calls[k].request.tools then AskedAt(env, calls, k)
    else
      && !Alternates(ms)
      && if k == 0 || calls[k - 1].request.tools then
           && Paired(ms) && |Heard(calls[..k])| == env.maxTurns
           && WrapsUp(env, ms, Heard(calls[..k]))
           && SkipsLeakers(env, calls[k].request.skip, Heard(calls[..k]))
         else
           && calls[k - 1].reply.Answered?
           && var r := calls[k - 1].reply.response;
              && (Paired(ms) <==> ToolCallsOf(r.content) == [])
              && ms == calls[k - 1].request.messages
                       + [Message(Assistant, r.content), Message(User, [Text(env.texts.proseOnly)])]
              && calls[k].request.skip == calls[k - 1].request.skip + ({r.modelUsed} - {NO_MODEL})
  }

  lemma {:induction false} NoToolCallNoId(content: seq<Block>)
    ensures CallIds(content) == [] <==> ToolCallsOf(content) == []
  {
  }

  lemma AskingAgainPairs(ms: seq<Message>, text: string)
    requires Paired(ms) && ms != [] && ms[|ms| - 1].role == User
    ensures Paired(ms + [Say(text)])
  {
    var longer := ms + [Say(text)];
    SaysNothingOfTools(text);
    forall i | 0 <= i < |longer| ensures PairedAt(longer, i) {
      if i < |ms| { assert PairedAt(ms, i); }
    }
  }

  lemma AskingTwiceNeverAlternates(ms: seq<Message>, text: string)
    requires |ms| % 2 == 1
    ensures !Alternates(ms + [Say(text)])
  {
    assert (ms + [Say(text)])[|ms|].role == User;
  }

  lemma RetryPairsIff(ms: seq<Message>, content: seq<Block>, text: string)
    requires Paired(ms) && !Alternates(ms) && ms != [] && ms[|ms| - 1].role == User
    ensures var longer := ms + [Message(Assistant, content), Say(text)];
            (Paired(longer) <==> ToolCallsOf(content) == []) && !Alternates(longer)
  {
    var longer := ms + [Message(Assistant, content), Say(text)];
    SaysNothingOfTools(text);
    NoToolCallNoId(content);
    if ToolCallsOf(content) == [] {
      PairedOn(ms, Message(Assistant, content), Say(text));
    } else {
      assert !PairedAt(longer, |ms| + 1);
    }
    if Alternates(longer) {
      forall i | 0 <= i < |ms| ensures ms[i].role == if i % 2 == 0 then User else Assistant {
        assert longer[i] == ms[i];
      }
    }
  }

  lemma LoopCallsStillConverse(env: Env, s: Loop, k: nat)
    requires AllAsked(env, s.calls) && k < |s.calls|
    ensures AskedAt(env, WrapUp(env, s).calls, k)
  {
    WrapUpCalls(env, s);
    var calls, n := WrapUp(env, s).calls, |s.calls|;
    assert AskedAt(env, s.calls, k);
    assert calls[k] == calls[..n][k] && calls[..k] == calls[..n][..k];
  }

  lemma WrapUpMessages(env: Env, s: Loop)
    requires Converses(s.messages, Heard(s.calls))
    ensures var ms := WrapUpRequest(env, s).messages;
            Paired(ms) && !Alternates(ms) && ms != [] && ms[|ms| - 1].role == User
  {
    AskingAgainPairs(s.messages, env.texts.budgetSpent);
    AskingTwiceNeverAlternates(s.messages, env.texts.budgetSpent);
  }

  /** The request to wrap up a conversation, whatever calls made it. */
  lemma AskingToWrapUpConverses(env: Env, calls: seq<Call>, k: nat, ms: seq<Message>)
    requires k < |calls| && !calls[k].request.tools && (k == 0 || calls[k - 1].request.tools)
    requires calls[k].request.messages == ms + [Say(env.texts.budgetSpent)]
    requires Paired(calls[k].request.messages) && !Alternates(calls[k].request.messages)
    requires Recorded(ms, Heard(calls[..k])) && Fed(env, ms, Heard(calls[..k]))
    requires |Heard(calls[..k])| == env.maxTurns && SkipsLeakers(env, calls[k].request.skip, Heard(calls[..k]))
    ensures ConversesAt(env, calls, k)
  {
    assert calls[k].request.messages[..|ms|] == ms;
  }

  lemma FirstWrapUpConverses(env: Env, s: Loop)
    requires Kept(env, env.maxTurns, s)
    ensures ConversesAt(env, WrapUp(env, s).calls, |s.calls|)
  {
    WrapUpCalls(env, s);
    WrapUpMessages(env, s);
    if s.calls != [] { LoopCallsStillConverse(env, s, |s.calls| - 1); }
    AskingToWrapUpConverses(env, WrapUp(env, s).calls, |s.calls|, s.messages);
  }

  /** A retry past a leaking wrap-up, whatever came before the two calls. */
  lemma RetryConverses(env: Env, calls: seq<Call>, k: nat)
    requires 0 < k < |calls| && !calls[k - 1].request.tools && calls[k - 1].reply.Answered?
    requires calls[k].request == RetryRequest(env, calls[k - 1].request, calls[k - 1].reply.response)
    requires var ms := calls[k - 1].request.messages;
             Paired(ms) && !Alternates(ms) && ms != [] && ms[|ms| - 1].role == User
    ensures ConversesAt(env, calls, k)
  {
    RetryPairsIff(calls[k - 1].request.messages, calls[k - 1].reply.response.content, env.texts.proseOnly);
  }

  lemma SecondWrapUpConverses(env: Env, s: Loop)
    requires Converses(s.messages, Heard(s.calls)) && |WrapUp(env, s).calls| == |s.calls| + 2
    ensures ConversesAt(env, WrapUp(env, s).calls, |s.calls| + 1)
  {
    WrapUpCalls(env, s);
    WrapUpMessages(env, s);
    RetryConverses(env, WrapUp(env, s).calls, |s.calls| + 1);
  }

  lemma WrapUpConverses(env: Env, s: Loop, k: nat)
    requires Kept(env, env.maxTurns, s) && k < |WrapUp(env, s).calls|
    ensures ConversesAt(env, WrapUp(env, s).calls, k)
  {
    WrapUpCalls(env, s);
    if k < |s.calls| {
      LoopCallsStillConverse(env, s, k);
    } else if k == |s.calls| {
      FirstWrapUpConverses(env, s);
    } else {
      SecondWrapUpConverses(env, s);
    }
  }

  lemma LoopConverses(env: Env, turn: nat, s: Loop, k: nat)
    requires Kept(env, turn, s) && turn < env.maxTurns && Turn(env, turn, s).Stopped?
    requires k < |Turn(env, turn, s).outcome.calls|
    ensures AskedAt(env, Turn(env, turn, s).outcome.calls, k)
  {
    CallTurnAttempts(env, InLoop(s), s.calls, 0);
    AskedOn(env, turn, s, CallTurn(env, InLoop(s), s.calls, 0));
  }

  /** The tool protocol is well formed at every call of every run. */
  lemma EveryCallConverses(env: Env, prompt: string, k: nat)
    requires env.tools != map[] && k < |Run(env, prompt).calls|
    ensures ConversesAt(env, Run(env, prompt).calls, k)
  {
    var t, s := RunEnds(env, prompt);
    if t < env.maxTurns {
      LoopConverses(env, t, s, k);
    } else {
      WrapUpConverses(env, s, k);
    }
  }

  /** The `i`-th tool call of the `j`-th reply has its answer in the message after that reply. */
  ghost predicate CallAnswered(env: Env, ms: seq<Message>, heard: seq<Response>, j: nat, i: nat)
    requires j < |heard| && i < |ToolCallsOf(heard[j].content)|
  {
    && |ms| > 2 * j + 2 && ms[2 * j + 1] == Message(Assistant, heard[j].content)
    && ms[2 * j + 2].role == User && i < |ms[2 * j + 2].content|
    && AnswersCall(env, CallsBefore(heard, j) + i, ToolCallsOf(heard[j].content)[i], ms[2 * j + 2].content[i])
  }

  ghost predicate ToolCallsAnswered(env: Env, ms: seq<Message>, heard: seq<Response>) {
    forall j: nat, i: nat | j < |heard| && i < |ToolCallsOf(heard[j].content)| :: CallAnswered(env, ms, heard, j, i)
  }

  lemma FedIsAnswered(env: Env, ms: seq<Message>, heard: seq<Response>, more: seq<Message>)
    requires Recorded(ms, heard) && Fed(env, ms, heard) && Paired(ms + more)
    ensures ToolCallsAnswered(env, ms + more, heard)
  {
    forall j: nat, i: nat | j < |heard| && i < |ToolCallsOf(heard[j].content)|
      ensures CallAnswered(env, ms + more, heard, j, i)
    {
      assert FeedbackAt(env, ms, heard, j) && RecordedAt(ms, heard, j);
      assert PairedAt(ms + more, 2 * j + 1);
    }
  }

  lemma ConversationIsAnswered(env: Env, calls: seq<Call>, k: nat)
    requires k < |calls| && ConversesAt(env, calls, k)
    requires calls[k].request.tools || k == 0 || calls[k - 1].request.tools
    ensures ToolCallsAnswered(env, calls[k].request.messages, Heard(calls[..k]))
  {
    var ms, heard := calls[k].request.messages, Heard(calls[..k]);
    if calls[k].request.tools {
      assert ms + [] == ms;
      FedIsAnswered(env, ms, heard, []);
    } else {
      var last := |ms| - 1;
      assert ms[..last] + [ms[last]] == ms;
      FedIsAnswered(env, ms[..last], heard, [ms[last]]);
    }
  }

  /** Every request with tools, and the first without, carries an answer to every tool call heard before
      it: an error for a tool that is unknown or arguments that do not conform, and else what that tool
      returned or raised when it was run, as the `n`-th of the whole run. */
  lemma EveryToolCallIsAnswered(env: Env, prompt: string, k: nat)
    requires env.tools != map[] && k < |Run(env, prompt).calls|
    requires Run(env, prompt).calls[k].request.tools || k == 0 || Run(env, prompt).calls[k - 1].request.tools
    ensures ToolCallsAnswered(env, Run(env, prompt).calls[k].request.messages, Heard(Run(env, prompt).calls[..k]))
  {
    EveryCallConverses(env, prompt, k);
    ConversationIsAnswered(env, Run(env, prompt).calls, k);
  }

  lemma WrapUpGrows(env: Env, s: Loop)
    requires Grown(s)
    ensures OnlyGrows(WrapUp(env, s).calls)
  {
    WrapUpCalls(env, s);
    var calls, n := WrapUp(env, s).calls, |s.calls|;
    assert calls[..n + 1][..n] == calls[..n];
    GrowsOn(s.calls, calls[..n + 1], WrapUpRequest(env, s));
    if |calls| == n + 2 {
      GrowsOn(calls[..n + 1], calls, calls[n + 1].request);
    } else {
      assert calls[..n + 1] == calls;
    }
  }

  /** Through the wrap-up as well, the conversation and the skip set only grow. */
  lemma EveryRunOnlyGrows(env: Env, prompt: string)
    requires env.tools != map[]
    ensures OnlyGrows(Run(env, prompt).calls)
  {
    var t, s := RunEnds(env, prompt);
    if t < env.maxTurns {
      TurnKeepsGrowth(env, t, s);
    } else {
      WrapUpGrows(env, s);
    }
  }

  function CallsOf(p: Progress): seq<Call> { if p.Going? then p.state.calls else p.outcome.calls }

  /** A turn adds a call, the first of which is its request. */
  lemma TurnAsks(env: Env, turn: nat, s: Loop)
    requires turn < env.maxTurns
    ensures var calls, n := CallsOf(Turn(env, turn, s)), |s.calls|;
            s.calls <= calls && |calls| > n && calls[n].request == InLoop(s)
  {
    CallTurnAttempts(env, InLoop(s), s.calls, 0);
  }

  lemma {:induction false} TurnsExtendLedger(env: Env, turn: nat, s: Loop)
    requires turn <= env.maxTurns
    ensures s.calls <= CallsOf(Turns(env, turn, s))
    decreases env.maxTurns - turn
  {
    if turn < env.maxTurns {
      TurnAsks(env, turn, s);
      if Turn(env, turn, s).Going? { TurnsExtendLedger(env, turn + 1, Turn(env, turn, s).state); }
    }
  }

  lemma TurnsExtendTurn(env: Env, turn: nat, s: Loop)
    requires turn < env.maxTurns
    ensures CallsOf(Turn(env, turn, s)) <= CallsOf(Turns(env, turn, s))
  {
    if Turn(env, turn, s).Going? { TurnsExtendLedger(env, turn + 1, Turn(env, turn, s).state); }
  }

  lemma RunExtendsTurns(env: Env, prompt: string)
    requires env.tools != map[]
    ensures CallsOf(Turns(env, 0, Start(prompt))) <= Run(env, prompt).calls
  {
    var all := Turns(env, 0, Start(prompt));
    if all.Going? { WrapUpCalls(env, all.state); }
  }

  /** Every run starts by asking the prompt, with no model skipped; as conversations only grow, every
      call goes on to carry it first. */
  lemma EveryRunAsksThePrompt(env: Env, prompt: string)
    requires env.tools != map[]
    ensures var calls := Run(env, prompt).calls;
            && calls != [] && [Message(User, [Text(prompt)])] <= calls[0].request.messages
            && calls[0].request.skip == {}
  {
    var s := Start(prompt);
    if env.maxTurns == 0 {
      WrapUpCalls(env, s);
    } else {
      TurnAsks(env, 0, s);
      TurnsExtendTurn(env, 0, s);
      RunExtendsTurns(env, prompt);
    }
  }

  /** Without tools a run is one call, which offers none and asks the prompt; its answer is the run's. */
  lemma ToollessRunIsOneCall(env: Env, prompt: string)
    requires env.tools == map[]
    ensures var request := Request([Message(User, [Text(prompt)])], false, {});
            var reply := env.provider(0, request);
            var calls := [Call(request, reply)];
            Run(env, prompt) == match reply
                                case Failed(e) => Aborted(e, calls)
                                case Answered(r) =>
                                  Finished(Output(TextOf(r.content), [], r.tokens, r.modelUsed, 1), calls)
  {
  }

  // What a run reports.

  lemma {:induction false} AllInLoop(env: Env, calls: seq<Call>)
    requires AllAsked(env, calls)
    ensures HeardInLoop(calls) == Heard(calls)
  {
    if calls != [] {
      var before := calls[..|calls| - 1];
      forall k | 0 <= k < |before| ensures AskedAt(env, before, k) {
        assert AskedAt(env, calls, k);
        assert calls[..k] == before[..k];
      }
      AllInLoop(env, before);
      assert AskedAt(env, calls, |calls| - 1);
    }
  }

  /** The names of all tool calls, reply by reply and call by call. */
  ghost predicate NamesEveryCall(names: seq<string>, heard: seq<Response>) {
    |names| == CallsBefore(heard, |heard|) && forall j: nat | j < |heard| :: NamesCallsOf(names, heard, j)
  }

  ghost predicate NamesCallsOf(names: seq<string>, heard: seq<Response>, j: nat)
    requires j < |heard|
  {
    var n, calls := CallsBefore(heard, j), ToolCallsOf(heard[j].content);
    n + |calls| <= |names| && forall i | 0 <= i < |calls| :: names[n + i] == calls[i].name
  }

  lemma OneReplyNamed(names: seq<string>, heard: seq<Response>, r: Response)
    requires NamesEveryCall(names, heard)
    ensures NamesEveryCall(names + NamesOf(ToolCallsOf(r.content)), heard + [r])
  {
    var more, longer := names + NamesOf(ToolCallsOf(r.content)), heard + [r];
    NamesAreNames(ToolCallsOf(r.content));
    CallsBeforeStays(heard, r, |heard|);
    forall j: nat | j < |longer| ensures NamesCallsOf(more, longer, j) {
      CallsBeforeStays(heard, r, if j < |heard| then j else |heard|);
      if j < |heard| { assert NamesCallsOf(names, heard, j); }
    }
  }

  lemma {:induction false} ToolNamesNameEveryCall(heard: seq<Response>)
    ensures NamesEveryCall(ToolNames(heard), heard)
  {
    if heard != [] {
      var last := |heard| - 1;
      ToolNamesNameEveryCall(heard[..last]);
      OneReplyNamed(ToolNames(heard[..last]), heard[..last], heard[last]);
      assert heard[..last] + [heard[last]] == heard;
    }
  }

  /** The report of a run against its ledger: the text is the last response's, the tool names are those
      of all responses heard while tools were offered, the tokens those of every response. */
  ghost predicate Reports(output: Output, calls: seq<Call>) {
    var heard, inLoop := Heard(calls), HeardInLoop(calls);
    && heard != []
    && output.text == TextOf(heard[|heard| - 1].content)
    && output.toolCallsMade == ToolNames(inLoop)
    && output.tokens == TokensOf(heard)
    && output.modelUsed == LastModel(inLoop + [heard[|heard| - 1]])
    && output.turns == |inLoop|
  }

  lemma LoopReports(env: Env, turn: nat, s: Loop)
    requires Kept(env, turn, s) && turn < env.maxTurns
    requires Turn(env, turn, s).Stopped? && Turn(env, turn, s).outcome.Finished?
    ensures Reports(Turn(env, turn, s).outcome.output, Turn(env, turn, s).outcome.calls)
  {
    var asked := CallTurn(env, InLoop(s), s.calls, 0);
    var r := asked.result.value;
    CallTurnAttempts(env, InLoop(s), s.calls, 0);
    HeardAfter(env, InLoop(s), s.calls, asked, ATTEMPTS);
    AskedOn(env, turn, s, asked);
    AllInLoop(env, asked.calls);
    FoldsOneMore(Heard(s.calls), r);
    FoldsOneMore(Heard(s.calls) + [r], r);
    assert ToolNames(Heard(s.calls)) + NamesOf([]) == ToolNames(Heard(s.calls));
  }

  lemma WrapUpHears(env: Env, s: Loop)
    requires WrapUp(env, s).Finished?
    ensures var calls, n := WrapUp(env, s).calls, |s.calls|;
            && HeardInLoop(calls) == HeardInLoop(s.calls)
            && calls[n].reply.Answered? && calls[|calls| - 1].reply.Answered?
            && Heard(calls) == Heard(s.calls) + [calls[n].reply.response]
                               + if |calls| == n + 1 then [] else [calls[n + 1].reply.response]
  {
    var call := Ask(env, WrapUpRequest(env, s), s.calls);
    var r := call.reply.response;
    HeardOneMore(s.calls, call);
    if env.leaks(TextOf(r.content)) {
      HeardOneMore(s.calls + [call], Ask(env, RetryRequest(env, call.request, r), s.calls + [call]));
    }
  }

  /** The output of a wrap-up, from what was heard in the loop and after. */
  lemma WrapUpOutput(env: Env, s: Loop)
    requires WrapUp(env, s).Finished?
    ensures var calls, n, output := WrapUp(env, s).calls, |s.calls|, WrapUp(env, s).output;
            && n < |calls| <= n + 2 && calls[n].reply.Answered? && calls[|calls| - 1].reply.Answered?
            && var last := calls[|calls| - 1].reply.response;
               && output.text == TextOf(last.content)
               && output.toolCallsMade == s.toolLog && output.turns == env.maxTurns
               && output.modelUsed == OrElse(last.modelUsed, s.modelUsed)
               && output.tokens == s.tokens + calls[n].reply.response.tokens
                                   + if |calls| == n + 1 then 0 else last.tokens
  {
    WrapUpCalls(env, s);
  }

  /** A report from what was heard before the last response and what of it in the loop. */
  lemma ReportsLast(output: Output, calls: seq<Call>, inLoop: seq<Response>, before: seq<Response>, last: Response)
    requires Heard(calls) == before + [last] && HeardInLoop(calls) == inLoop
    requires output.text == TextOf(last.content) && output.toolCallsMade == ToolNames(inLoop)
    requires output.tokens == TokensOf(before) + last.tokens && output.turns == |inLoop|
    requires output.modelUsed == OrElse(last.modelUsed, LastModel(inLoop))
    ensures Reports(output, calls)
  {
    FoldsOneMore(before, last);
    FoldsOneMore(inLoop, last);
  }

  lemma OneWrapUpReports(env: Env, s: Loop)
    requires Tallied(s, Heard(s.calls)) && |Heard(s.calls)| == env.maxTurns && HeardInLoop(s.calls) == Heard(s.calls)
    requires WrapUp(env, s).Finished? && |WrapUp(env, s).calls| == |s.calls| + 1
    ensures Reports(WrapUp(env, s).output, WrapUp(env, s).calls)
  {
    var calls, n, heard := WrapUp(env, s).calls, |s.calls|, Heard(s.calls);
    WrapUpOutput(env, s);
    WrapUpHears(env, s);
    var r := calls[n].reply.response;
    FoldsOneMore(heard, r);
    assert heard + [] == heard && Heard(calls) == heard + [r];
    ReportsLast(WrapUp(env, s).output, calls, heard, heard, r);
  }

  lemma TwoWrapUpsReport(env: Env, s: Loop)
    requires Tallied(s, Heard(s.calls)) && |Heard(s.calls)| == env.maxTurns && HeardInLoop(s.calls) == Heard(s.calls)
    requires WrapUp(env, s).Finished? && |WrapUp(env, s).calls| == |s.calls| + 2
    ensures Reports(WrapUp(env, s).output, WrapUp(env, s).calls)
  {
    var calls, n, heard := WrapUp(env, s).calls, |s.calls|, Heard(s.calls);
    WrapUpOutput(env, s);
    WrapUpHears(env, s);
    var r, last := calls[n].reply.response, calls[n + 1].reply.response;
    FoldsOneMore(heard, r);
    FoldsOneMore(heard + [r], last);
    assert Heard(calls) == heard + [r] + [last];
    ReportsLast(WrapUp(env, s).output, calls, heard, heard + [r], last);
  }

  lemma WrapUpReports(env: Env, s: Loop)
    requires Tallied(s, Heard(s.calls)) && |Heard(s.calls)| == env.maxTurns && HeardInLoop(s.calls) == Heard(s.calls)
    requires WrapUp(env, s).Finished?
    ensures Reports(WrapUp(env, s).output, WrapUp(env, s).calls)
  {
    WrapUpCalls(env, s);
    if |WrapUp(env, s).calls| == |s.calls| + 1 {
      OneWrapUpReports(env, s);
    } else {
      TwoWrapUpsReport(env, s);
    }
  }

  /** While tools are offered, only a reply free of tool calls and of leaked ones is an answer. */
  ghost predicate AnswerIsClean(env: Env, outcome: Outcome) {
    && outcome.calls != [] && outcome.calls[|outcome.calls| - 1].reply.Answered?
    && (outcome.calls[|outcome.calls| - 1].request.tools && outcome.Finished? ==>
          && ToolCallsOf(outcome.calls[|outcome.calls| - 1].reply.response.content) == []
          && !env.leaks(outcome.output.text))
  }

  lemma LoopAnswers(env: Env, turn: nat, s: Loop)
    requires turn < env.maxTurns && Turn(env, turn, s).Stopped? && Turn(env, turn, s).outcome.Finished?
    ensures AnswerIsClean(env, Turn(env, turn, s).outcome)
  {
    CallTurnAttempts(env, InLoop(s), s.calls, 0);
  }

  /** Every run that ends with an answer reports its ledger faithfully, and an answer given while tools
      were offered carries no tool call, real or leaked. */
  lemma EveryAnswerIsAccountedFor(env: Env, prompt: string)
    requires env.tools != map[] && Run(env, prompt).Finished?
    ensures Reports(Run(env, prompt).output, Run(env, prompt).calls)
    ensures NamesEveryCall(Run(env, prompt).output.toolCallsMade, HeardInLoop(Run(env, prompt).calls))
    ensures AnswerIsClean(env, Run(env, prompt))
  {
    var t, s := RunEnds(env, prompt);
    ToolNamesNameEveryCall(HeardInLoop(Run(env, prompt).calls));
    if t < env.maxTurns {
      LoopReports(env, t, s);
      LoopAnswers(env, t, s);
    } else {
      AllInLoop(env, s.calls);
      WrapUpReports(env, s);
      WrapUpCalls(env, s);
      WrapUpHears(env, s);
    }
  }

  /** The error raised is the last call's; while tools were offered, an error that is retried ends the
      run only after three such failures of one request. */
  ghost predicate FailsLast(outcome: Outcome)
    requires outcome.Aborted?
  {
    var calls := outcome.calls;
    && calls != [] && calls[|calls| - 1].reply == Failed(outcome.error)
    && (calls[|calls| - 1].request.tools && IsTransient(outcome.error) ==>
          && |calls| >= 3
          && forall k :: |calls| - 3 <= k < |calls| ==>
               FailedTransiently(calls[k]) && calls[k].request == calls[|calls| - 1].request)
  }

  lemma LoopFails(env: Env, turn: nat, s: Loop)
    requires turn < env.maxTurns && Turn(env, turn, s).Stopped? && Turn(env, turn, s).outcome.Aborted?
    ensures FailsLast(Turn(env, turn, s).outcome)
  {
    CallTurnAttempts(env, InLoop(s), s.calls, 0);
  }

  lemma EveryFailureIsTheLastCalls(env: Env, prompt: string)
    requires env.tools != map[] && Run(env, prompt).Aborted?
    ensures FailsLast(Run(env, prompt))
  {
    var t, s := RunEnds(env, prompt);
    if t < env.maxTurns {
      LoopFails(env, t, s);
    } else {
      WrapUpCalls(env, s);
    }
  }

  /** The failures among the first `n` calls were transient, and the same request followed. */
  ghost predicate RetriedUpTo(calls: seq<Call>, n: nat) { forall k: nat | k < n <= |calls| :: RetriedAt(calls, k) }

  ghost predicate RetriedAt(calls: seq<Call>, k: nat)
    requires k < |calls|
  {
    calls[k].reply.Failed? ==>
      IsTransient(calls[k].reply.error) && k + 1 < |calls| && calls[k + 1].request == calls[k].request
  }

  lemma AttemptsAreRetried(env: Env, request: Request, before: seq<Call>, asked: Asked)
    requires Attempted(env, request, before, asked, ATTEMPTS) && RetriedUpTo(before, |before|)
    ensures RetriedUpTo(asked.calls, |asked.calls| - if asked.result.Ok? then 0 else 1)
  {
    forall k: nat | k < |asked.calls| - 1 ensures RetriedAt(asked.calls, k) {
      if k < |before| {
        assert RetriedAt(before, k);
        assert asked.calls[k] == asked.calls[..|before|][k];
        if k + 1 < |before| { assert asked.calls[k + 1] == asked.calls[..|before|][k + 1]; }
      } else {
        assert FailedTransiently(asked.calls[k]);
      }
    }
  }

  lemma WrapUpIsNotRetried(env: Env, s: Loop)
    requires RetriedUpTo(s.calls, |s.calls|)
    ensures RetriedUpTo(WrapUp(env, s).calls, |WrapUp(env, s).calls| - 1)
  {
    WrapUpCalls(env, s);
    var calls := WrapUp(env, s).calls;
    forall k: nat | k < |calls| - 1 ensures RetriedAt(calls, k) {
      if k < |s.calls| {
        assert RetriedAt(s.calls, k);
        assert calls[k] == calls[..|s.calls|][k];
        if k + 1 < |s.calls| { assert calls[k + 1] == calls[..|s.calls|][k + 1]; }
      }
    }
  }

  ghost function RetriedBy(): (nat, Loop) -> bool { (_: nat, s: Loop) => RetriedUpTo(s.calls, |s.calls|) }

  lemma TurnIsRetried(env: Env, turn: nat, s: Loop)
    requires turn < env.maxTurns && RetriedUpTo(s.calls, |s.calls|)
    ensures var calls := CallsOf(Turn(env, turn, s));
            calls != [] && RetriedUpTo(calls, |calls| - if Turn(env, turn, s).Going? then 0 else 1)
  {
    CallTurnAttempts(env, InLoop(s), s.calls, 0);
    AttemptsAreRetried(env, InLoop(s), s.calls, CallTurn(env, InLoop(s), s.calls, 0));
  }

  /** Only a transient failure is got over, by the same request again; any other ends the run. */
  lemma EveryFailureIsRetriedOrLast(env: Env, prompt: string)
    requires env.tools != map[]
    ensures var calls := Run(env, prompt).calls; calls != [] && RetriedUpTo(calls, |calls| - 1)
  {
    forall n: nat, s | n < env.maxTurns && RetriedBy()(n, s) && Turn(env, n, s).Going?
      ensures RetriedBy()(n + 1, Turn(env, n, s).state)
    {
      TurnIsRetried(env, n, s);
    }
    var t, s := LastTurn(env, RetriedBy(), 0, Start(prompt));
    if t < env.maxTurns {
      TurnIsRetried(env, t, s);
    } else {
      WrapUpCalls(env, s);
      WrapUpIsNotRetried(env, s);
    }
  }

  /** A tool call, real or leaked. */
  predicate CallsTools(env: Env, content: seq<Block>) { ToolCallsOf(content) != [] || env.leaks(TextOf(content)) }

  /** A reply that is not the run's answer: one with a tool call, real or leaked, while tools were
      offered, and a leak in the first request without. */
  ghost predicate GoesOn(env: Env, calls: seq<Call>, k: nat)
    requires k < |calls| && calls[k].reply.Answered?
  {
    var content := calls[k].reply.response.content;
    if calls[k].request.tools then CallsTools(env, content)
    else env.leaks(TextOf(content)) && (k == 0 || calls[k - 1].request.tools)
  }

  ghost predicate LeadsOn(env: Env, calls: seq<Call>, k: nat)
    requires k < |calls|
  {
    calls[k].request.tools && (calls[k].reply.Answered? ==> GoesOn(env, calls, k))
  }

  ghost predicate AllLeadOn(env: Env, calls: seq<Call>, n: nat) {
    forall k: nat | k < n <= |calls| :: LeadsOn(env, calls, k)
  }

  ghost function LeadsOnBy(env: Env): (nat, Loop) -> bool { (_: nat, s: Loop) => AllLeadOn(env, s.calls, |s.calls|) }

  /** The run's answer is in none of the calls but the last, and there only when the run stops. */
  ghost predicate LeadOnUntil(env: Env, calls: seq<Call>, going: bool) {
    && calls != [] && calls[|calls| - 1].request.tools
    && AllLeadOn(env, calls, |calls| - if going then 0 else 1)
    && (!going && calls[|calls| - 1].reply.Answered? ==> !GoesOn(env, calls, |calls| - 1))
  }

  lemma AttemptsLeadOn(env: Env, request: Request, before: seq<Call>, asked: Asked)
    requires request.tools && Attempted(env, request, before, asked, ATTEMPTS) && AllLeadOn(env, before, |before|)
    ensures LeadOnUntil(env, asked.calls, asked.result.Ok? && CallsTools(env, asked.result.value.content))
  {
    forall k: nat | k < |asked.calls| - 1 ensures LeadsOn(env, asked.calls, k) {
      if k < |before| {
        assert LeadsOn(env, before, k);
        assert asked.calls[k] == asked.calls[..|before|][k];
      } else {
        assert FailedTransiently(asked.calls[k]);
      }
    }
  }

  lemma LeadOnDecides(env: Env, calls: seq<Call>, k: nat)
    requires LeadOnUntil(env, calls, false) && k < |calls| && calls[k].reply.Answered?
    ensures k + 1 < |calls| <==> GoesOn(env, calls, k)
  {
    if k + 1 < |calls| { assert LeadsOn(env, calls, k); }
  }

  lemma TurnStopsIff(env: Env, turn: nat, s: Loop)
    requires turn < env.maxTurns
    ensures var asked := CallTurn(env, InLoop(s), s.calls, 0);
            && CallsOf(Turn(env, turn, s)) == asked.calls
            && (Turn(env, turn, s).Going? <==> asked.result.Ok? && CallsTools(env, asked.result.value.content))
  {
  }

  lemma TurnLeadsOn(env: Env, turn: nat, s: Loop)
    requires turn < env.maxTurns && AllLeadOn(env, s.calls, |s.calls|)
    ensures LeadOnUntil(env, CallsOf(Turn(env, turn, s)), Turn(env, turn, s).Going?)
  {
    TurnStopsIff(env, turn, s);
    CallTurnAttempts(env, InLoop(s), s.calls, 0);
    AttemptsLeadOn(env, InLoop(s), s.calls, CallTurn(env, InLoop(s), s.calls, 0));
  }

  lemma WrapUpGoesOn(env: Env, s: Loop, k: nat)
    requires AllLeadOn(env, s.calls, |s.calls|) && k < |WrapUp(env, s).calls|
    requires WrapUp(env, s).calls[k].reply.Answered?
    ensures k + 1 < |WrapUp(env, s).calls| <==> GoesOn(env, WrapUp(env, s).calls, k)
  {
    WrapUpCalls(env, s);
    var calls := WrapUp(env, s).calls;
    if 0 < k <= |s.calls| { assert LeadsOn(env, s.calls, k - 1) && calls[k - 1] == calls[..|s.calls|][k - 1]; }
    if k < |s.calls| { assert LeadsOn(env, s.calls, k) && calls[k] == calls[..|s.calls|][k]; }
  }

  lemma TurnsLeadOn(env: Env, prompt: string) returns (t: nat, last: Loop)
    requires env.tools != map[]
    ensures t <= env.maxTurns && AllLeadOn(env, last.calls, |last.calls|)
    ensures if t < env.maxTurns then Turn(env, t, last) == Stopped(Run(env, prompt))
            else Run(env, prompt) == WrapUp(env, last)
  {
    forall n: nat, s | n < env.maxTurns && LeadsOnBy(env)(n, s) && Turn(env, n, s).Going?
      ensures LeadsOnBy(env)(n + 1, Turn(env, n, s).state)
    {
      TurnLeadsOn(env, n, s);
    }
    t, last := LastTurn(env, LeadsOnBy(env), 0, Start(prompt));
  }

  /** A run goes on after a reply exactly when the reply is not its answer: the loop after a tool call,
      real or leaked, and the wrap-up after a leak, once. */
  lemma EveryReplyDecides(env: Env, prompt: string, k: nat)
    requires env.tools != map[] && k < |Run(env, prompt).calls| && Run(env, prompt).calls[k].reply.Answered?
    ensures k + 1 < |Run(env, prompt).calls| <==> GoesOn(env, Run(env, prompt).calls, k)
  {
    var t, s := TurnsLeadOn(env, prompt);
    if t == env.maxTurns {
      WrapUpGoesOn(env, s, k);
    } else {
      TurnLeadsOn(env, t, s);
      LeadOnDecides(env, Run(env, prompt).calls, k);
    }
  }

  /** Only arguments that conform to the tool's schema reach it, and a tool's text comes back cut at the cap. */
  lemma OnlyConformingArgumentsReachTools(env: Env, n: nat, call: Block)
    requires call.ToolCall? && ResultOf(env, n, call).ok
    ensures call.name in env.tools && ToolArgs.Conforms(env.tools[call.name], call.args)
    ensures var outcome, payload := env.invoke(n, call.name, call.args), ResultOf(env, n, call).payload;
            && outcome.Returned? && payload <= outcome.value && |payload| <= RESULT_CAP
            && (|outcome.value| <= RESULT_CAP ==> payload == outcome.value)
  {
    ToolArgs.NothingRejectedIffConforms(env.tools[call.name], call.args);
  }

  /** A tool is run, whether it then returns or raises, if and only if it is known and its arguments
      conform: only then can what it does show in the result. */
  lemma ToolIsRunIff(env: Env, n: nat, call: Block)
    requires call.ToolCall?
    ensures (forall invoke :: ResultOf(env.(invoke := invoke), n, call) == ResultOf(env, n, call))
            <==> !(call.name in env.tools && ToolArgs.Conforms(env.tools[call.name], call.args))
  {
    if call.name in env.tools {
      ToolArgs.NothingRejectedIffConforms(env.tools[call.name], call.args);
      var quiet := (_: nat, _: string, _: ToolArgs.Args) => Returned("");
      var failing := (_: nat, _: string, _: ToolArgs.Args) => ToolRaised("");
      assert ResultOf(env.(invoke := quiet), n, call).ok || ToolArgs.Rejected(env.tools[call.name], call.args).Some?;
      assert !ResultOf(env.(invoke := failing), n, call).ok;
    }
  }
}
