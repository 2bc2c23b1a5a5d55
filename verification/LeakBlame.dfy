/** Which models the agent loop comes to skip (`agent_engine/agent_loop.py`): the leak counter does not
    look at who leaked, so a model may be skipped for a single leak. */
module LeakBlame {
  import opened AgentLoop
  import opened AgentLoopLaws
  import opened AgentProtocol
  import opened Ordering

  /** The provider answers from these models alone. */
  ghost predicate NamesOnly(provider: Provider, models: set<Name>) {
    forall i: nat, request :: NamedIn(provider(i, request), models)
  }

  predicate NamedIn(reply: Reply, models: set<Name>) { reply.Answered? ==> reply.response.modelUsed in models }

  /** The model leaked twice in a row before the `k`-th call. */
  ghost predicate Repeated(env: Env, calls: seq<Call>, k: nat, m: Name)
    requires k <= |calls|
  {
    var heard := Heard(calls[..k]);
    exists j: nat :: LeakedTwice(env, heard, j, m) && heard[j - 1].modelUsed == m
  }

  /** The call asks again after a wrap-up that leaked; it skips that model whatever it did before. */
  predicate RetriesWrapUp(calls: seq<Call>, k: nat)
    requires k < |calls|
  {
    k > 0 && !calls[k].request.tools && !calls[k - 1].request.tools
  }

  /** Every model skipped, by a turn or by the wrap-up, leaked twice in a row before. */
  ghost predicate SkipsOnlyRepeaters(env: Env, calls: seq<Call>) {
    forall k: nat, m | k < |calls| && !RetriesWrapUp(calls, k) && m in calls[k].request.skip ::
      Repeated(env, calls, k, m)
  }

  lemma {:induction false} HeardAreNamed(env: Env, calls: seq<Call>, models: set<Name>)
    requires Ledger(env, calls) && NamesOnly(env.provider, models)
    ensures forall r | r in Heard(calls) :: r.modelUsed in models
  {
    if calls != [] {
      var front, last := calls[..|calls| - 1], |calls| - 1;
      forall k | 0 <= k < |front| ensures LedgerAt(env, front, k) { assert LedgerAt(env, calls, k); }
      HeardAreNamed(env, front, models);
      assert LedgerAt(env, calls, last) && NamedIn(env.provider(last, calls[last].request), models);
    }
  }

  lemma OneModelRepeats(env: Env, prompt: string, models: set<Name>, k: nat, m: Name)
    requires env.tools != map[] && NamesOnly(env.provider, models) && k < |Run(env, prompt).calls|
    requires !RetriesWrapUp(Run(env, prompt).calls, k) && m in Run(env, prompt).calls[k].request.skip
    requires (forall a, b | a in models && b in models :: a == b) || env.maxTurns <= 1
    ensures Repeated(env, Run(env, prompt).calls, k, m)
  {
    var calls := Run(env, prompt).calls;
    EveryCallConverses(env, prompt, k);
    EveryCallIsRecorded(env, prompt);
    var heard := Heard(calls[..k]);
    assert |heard| <= env.maxTurns && SkipsLeakers(env, calls[k].request.skip, heard);
    SkippedForTwoLeaks(env, calls[k].request.skip, heard, m);
    var j: nat :| LeakedTwice(env, heard, j, m);
    forall i | 0 <= i < k ensures LedgerAt(env, calls[..k], i) { assert LedgerAt(env, calls, i); }
    HeardAreNamed(env, calls[..k], models);
    assert heard[j - 1] in heard && heard[j] in heard;
  }

  // A run that skips a model for one leak.

  function Leak(text: string, model: Name): Response { Response([Text(text)], model, 0) }

  /** First one model leaks, then always the other. */
  function TakeTurnsLeaking(text: string, one: Name, other: Name): Provider {
    (i: nat, request: Request) => Answered(Leak(text, if i == 0 then one else other))
  }

  lemma LeaksAsText(env: Env, text: string, model: Name)
    requires env.leaks(text)
    ensures Leaked(env, Leak(text, model))
  {
    var content := [Text(text)];
    assert content[..0] == [];
    assert TextOf(content) == TextOf([]) + text;
    assert TextOf([]) + text == text;
    assert ToolCallsOf(content) == ToolCallsOf([]) + [];
  }

  /** One turn that leaks at the first attempt. */
  lemma LeakingTurn(env: Env, turn: nat, s: Loop, r: Response)
    requires turn < env.maxTurns && Leaked(env, r) && env.provider(|s.calls|, InLoop(s)) == Answered(r)
    ensures var call := Call(InLoop(s), Answered(r));
            Turn(env, turn, s) == Going(AfterLeak(env, Hear(s, r, s.calls + [call]), r))
  {
  }

  /** The run's ledger begins with that of any turn on its way. */
  lemma LedgerOfTurn(env: Env, prompt: string, turn: nat, s: Loop)
    requires env.tools != map[] && turn < env.maxTurns && Turns(env, 0, Start(prompt)) == Turns(env, turn, s)
    ensures CallsOf(Turn(env, turn, s)) <= Run(env, prompt).calls
  {
    TurnsExtendTurn(env, turn, s);
    RunExtendsTurns(env, prompt);
  }

  /** One turn that leaks: it is heard, and its model joins the skip set when the turn before leaked too. */
  lemma AfterLeakingTurn(env: Env, turn: nat, s: Loop, r: Response) returns (next: Loop)
    requires turn < env.maxTurns && Leaked(env, r) && env.provider(|s.calls|, InLoop(s)) == Answered(r)
    requires r.modelUsed != NO_MODEL || s.leaks == 0
    ensures Turn(env, turn, s) == Going(next) && next.calls == s.calls + [Call(InLoop(s), Answered(r))]
    ensures Heard(next.calls) == Heard(s.calls) + [r]
    ensures next.leaks == (if s.leaks == 0 then 1 else 0)
    ensures next.skip == if s.leaks == 0 then s.skip else s.skip + {r.modelUsed}
  {
    LeakingTurn(env, turn, s, r);
    next := Turn(env, turn, s).state;
    HeardOneMore(s.calls, Call(InLoop(s), Answered(r)));
  }

  lemma AfterTwoLeaks(env: Env, prompt: string, text: string, one: Name, other: Name) returns (s: Loop)
    requires env.tools != map[] && env.maxTurns >= 2 && env.leaks(text)
    requires env.provider == TakeTurnsLeaking(text, one, other) && other != NO_MODEL
    ensures Turns(env, 0, Start(prompt)) == Turns(env, 2, s) && s.skip == {other}
    ensures |s.calls| == 2 && Heard(s.calls) == [Leak(text, one), Leak(text, other)] && s.calls[1].request.tools
  {
    LeaksAsText(env, text, one);
    LeaksAsText(env, text, other);
    var s0 := Start(prompt);
    var s1 := AfterLeakingTurn(env, 0, s0, Leak(text, one));
    s := AfterLeakingTurn(env, 1, s1, Leak(text, other));
    TwoTurns(env, s0, s1, s);
    assert Heard(s0.calls) == [] && Heard(s1.calls) == [] + [Leak(text, one)];
  }

  lemma TwoTurns(env: Env, s0: Loop, s1: Loop, s2: Loop)
    requires env.maxTurns >= 2 && Turn(env, 0, s0) == Going(s1) && Turn(env, 1, s1) == Going(s2)
    ensures Turns(env, 0, s0) == Turns(env, 2, s2)
  {
    assert Turns(env, 1, s1) == Turns(env, 2, s2);
  }

  /** Two models leak once each, and the second is skipped from the next request on: that of the third
      turn, or of the wrap-up when there is none. */
  lemma SkippedForOneLeak(env: Env, prompt: string, text: string, one: Name, other: Name)
    requires env.tools != map[] && env.maxTurns >= 2 && env.leaks(text)
    requires env.provider == TakeTurnsLeaking(text, one, other) && other != NO_MODEL
    ensures var calls := Run(env, prompt).calls;
            && |calls| >= 3 && calls[2].request.skip == {other} && !RetriesWrapUp(calls, 2)
            && (calls[2].request.tools <==> env.maxTurns >= 3)
            && Heard(calls[..2]) == [Leak(text, one), Leak(text, other)]
  {
    var s := AfterTwoLeaks(env, prompt, text, one, other);
    if env.maxTurns == 2 {
      WrapUpCalls(env, s);
    } else {
      CallTurnAttempts(env, InLoop(s), s.calls, 0);
      LedgerOfTurn(env, prompt, 2, s);
      var calls, third := Run(env, prompt).calls, CallsOf(Turn(env, 2, s));
      assert calls[2] == third[2];
      assert calls[..2] == third[..2] == s.calls;
    }
  }

  lemma OneLeakIsNoRepeat(env: Env, calls: seq<Call>, text: string, one: Name, other: Name)
    requires one != other && |calls| >= 2 && Heard(calls[..2]) == [Leak(text, one), Leak(text, other)]
    ensures !Repeated(env, calls, 2, other)
  {
    var heard := Heard(calls[..2]);
    forall j: nat ensures !(LeakedTwice(env, heard, j, other) && heard[j - 1].modelUsed == other) {
      if LeakedTwice(env, heard, j, other) { assert j == 1; }
    }
  }

  /** Only a model that leaks twice running is skipped, by any turn or wrap-up of any run, if and only if
      the provider has a single model to answer with, or the run has no second turn to leak in. */
  lemma OnlyRepeatersAreSkippedIff(env: Env, models: set<Name>, text: string)
    requires env.tools != map[] && env.leaks(text)
    ensures (forall provider: Provider, prompt | NamesOnly(provider, models) ::
               SkipsOnlyRepeaters(env.(provider := provider), Run(env.(provider := provider), prompt).calls))
            <==> (forall a, b | a in models && b in models :: a == b) || env.maxTurns <= 1
  {
    if (forall a, b | a in models && b in models :: a == b) || env.maxTurns <= 1 {
      forall provider: Provider, prompt | NamesOnly(provider, models)
        ensures SkipsOnlyRepeaters(env.(provider := provider), Run(env.(provider := provider), prompt).calls)
      {
        var e := env.(provider := provider);
        var calls := Run(e, prompt).calls;
        forall k: nat, m | k < |calls| && !RetriesWrapUp(calls, k) && m in calls[k].request.skip
          ensures Repeated(e, calls, k, m)
        {
          OneModelRepeats(e, prompt, models, k, m);
        }
      }
    } else {
      var a, b :| a in models && b in models && a != b;
      var one, other := if b != NO_MODEL then a else b, if b != NO_MODEL then b else a;
      var provider := TakeTurnsLeaking(text, one, other);
      var e := env.(provider := provider);
      SkippedForOneLeak(e, "", text, one, other);
      OneLeakIsNoRepeat(e, Run(e, "").calls, text, one, other);
      assert NamesOnly(provider, models);
    }
  }
}
