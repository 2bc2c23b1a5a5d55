/** The semantic failover of one-shot calls (`agent_engine/agent_loop.py`, `run_oneshot`). */
module Failover {
  import opened Basics
  import opened Ordering
  import opened AgentProtocol

  const MAX_ITERATIONS := 20

  /** The message of a one-shot call never changes; only the skip set does. */
  function Ask(prompt: string, skip: set<Name>): Request { Request([Say(prompt)], false, skip) }

  datatype Ending = Accepted(response: Response) | Exhausted(skipped: set<Name>) | Raised(error: GatewayError)

  datatype Session = Session(ending: Ending, calls: seq<Call>)

  /** The session from its `i`-th call on, with the models rejected so far skipped. */
  function Oneshot(provider: Provider, prompt: string, accept: Response -> bool, i: nat, skip: set<Name>): Session
    decreases MAX_ITERATIONS - i
  {
    if i >= MAX_ITERATIONS then Session(Exhausted(skip), [])
    else
      var call := Call(Ask(prompt, skip), provider(i, Ask(prompt, skip)));
      match call.reply
      case Failed(e) => Session(Raised(e), [call])
      case Answered(r) =>
        if accept(r) then Session(Accepted(r), [call])
        else if r.modelUsed == NO_MODEL || r.modelUsed in skip then Session(Exhausted(skip), [call])
        else
          var rest := Oneshot(provider, prompt, accept, i + 1, skip + {r.modelUsed});
          Session(rest.ending, [call] + rest.calls)
  }

  method RunOneshot(provider: Provider, prompt: string, accept: Response -> bool)
    returns (ending: Ending, calls: seq<Call>)
    ensures Session(ending, calls) == Oneshot(provider, prompt, accept, 0, {})
  {
    var skip: set<Name> := {};
    calls := [];
    for i := 0 to MAX_ITERATIONS
      invariant Oneshot(provider, prompt, accept, 0, {})
             == After(calls, Oneshot(provider, prompt, accept, i, skip))
    {
      var call := Call(Ask(prompt, skip), provider(i, Ask(prompt, skip)));
      calls := calls + [call];
      if call.reply.Failed? {
        return Raised(call.reply.error), calls;
      }
      var r := call.reply.response;
      if accept(r) {
        return Accepted(r), calls;
      }
      if r.modelUsed == NO_MODEL || r.modelUsed in skip {
        return Exhausted(skip), calls;
      }
      Assoc(calls[..|calls| - 1], [call], Oneshot(provider, prompt, accept, i + 1, skip + {r.modelUsed}).calls);
      assert calls == calls[..|calls| - 1] + [call];
      skip := skip + {r.modelUsed};
    }
    assert calls + [] == calls;
    ending := Exhausted(skip);
  }

  function After(calls: seq<Call>, s: Session): Session { Session(s.ending, calls + s.calls) }

  // For any provider.

  /** The session goes on after its `k`-th call only past a rejected answer of a model not skipped
      before, and that model alone joins the skip set. */
  ghost predicate OneNewModel(calls: seq<Call>, k: nat)
    requires k + 1 < |calls|
  {
    var r := calls[k].reply;
    && r.Answered? && r.response.modelUsed != NO_MODEL
    && r.response.modelUsed !in calls[k].request.skip
    && calls[k + 1].request.skip == calls[k].request.skip + {r.response.modelUsed}
  }

  lemma {:induction false} SkipSetGrowsByOne(provider: Provider, prompt: string, accept: Response -> bool,
                                             i: nat, skip: set<Name>)
    requires i <= MAX_ITERATIONS
    ensures var calls := Oneshot(provider, prompt, accept, i, skip).calls;
            && |calls| <= MAX_ITERATIONS - i
            && (calls != [] ==> calls[0].request == Ask(prompt, skip))
            && (forall k: nat | k + 1 < |calls| :: OneNewModel(calls, k))
    decreases MAX_ITERATIONS - i
  {
    if i < MAX_ITERATIONS {
      var reply := provider(i, Ask(prompt, skip));
      if reply.Answered? && !accept(reply.response) && reply.response.modelUsed != NO_MODEL
         && reply.response.modelUsed !in skip {
        var wider := skip + {reply.response.modelUsed};
        SkipSetGrowsByOne(provider, prompt, accept, i + 1, wider);
        var calls := Oneshot(provider, prompt, accept, i, skip).calls;
        var rest := Oneshot(provider, prompt, accept, i + 1, wider).calls;
        forall k: nat | k + 1 < |calls| ensures OneNewModel(calls, k) {
          if k > 0 { assert OneNewModel(rest, k - 1); }
        }
      }
    }
  }

  /** At most twenty calls; the `k`-th is made with `k` models skipped. */
  lemma {:induction false} CallsAreBounded(provider: Provider, prompt: string, accept: Response -> bool, k: nat)
    ensures var calls := Oneshot(provider, prompt, accept, 0, {}).calls;
            && |calls| <= MAX_ITERATIONS
            && (k < |calls| ==> |calls[k].request.skip| == k)
  {
    SkipSetGrowsByOne(provider, prompt, accept, 0, {});
    var calls := Oneshot(provider, prompt, accept, 0, {}).calls;
    if 0 < k < |calls| {
      CallsAreBounded(provider, prompt, accept, k - 1);
      assert OneNewModel(calls, k - 1);
    }
  }

  /** The `k`-th call asks the prompt alone and is answered by the provider's `k`-th reply. */
  predicate AsksPrompt(provider: Provider, prompt: string, calls: seq<Call>, i: nat, k: nat)
    requires k < |calls|
  {
    && calls[k].request == Request([Message(User, [Text(prompt)])], false, calls[k].request.skip)
    && calls[k].reply == provider(i + k, calls[k].request)
  }

  /** All answers but perhaps the last were rejected; the last was accepted, or failed, or left nothing
      more to skip: its model has no name, is skipped already, or is the twentieth. */
  ghost predicate EndsAs(accept: Response -> bool, calls: seq<Call>, ending: Ending, left: nat) {
    && (forall k: nat | k + 1 < |calls| :: calls[k].reply.Answered? && !accept(calls[k].reply.response))
    && calls != []
    && var last := calls[|calls| - 1];
       match ending
       case Accepted(r) => last.reply == Answered(r) && accept(r)
       case Raised(e) => last.reply == Failed(e)
       case Exhausted(skipped) =>
         && last.reply.Answered? && !accept(last.reply.response)
         && var model := last.reply.response.modelUsed;
            if model == NO_MODEL || model in last.request.skip then skipped == last.request.skip
            else |calls| == left && skipped == last.request.skip + {model}
  }

  /** The session goes on past the answer. */
  predicate GoesOn(accept: Response -> bool, reply: Reply, i: nat, skip: set<Name>) {
    && i + 1 < MAX_ITERATIONS && reply.Answered? && !accept(reply.response)
    && reply.response.modelUsed != NO_MODEL && reply.response.modelUsed !in skip
  }

  lemma {:induction false} EveryCallAsksThePrompt(provider: Provider, prompt: string, accept: Response -> bool,
                                                  i: nat, skip: set<Name>, k: nat)
    requires k < |Oneshot(provider, prompt, accept, i, skip).calls|
    ensures AsksPrompt(provider, prompt, Oneshot(provider, prompt, accept, i, skip).calls, i, k)
    decreases k
  {
    var reply := provider(i, Ask(prompt, skip));
    if k > 0 {
      var wider := skip + {reply.response.modelUsed};
      EveryCallAsksThePrompt(provider, prompt, accept, i + 1, wider, k - 1);
    }
  }

  /** How a session ends, for any provider. */
  lemma {:induction false} SessionEnds(provider: Provider, prompt: string, accept: Response -> bool,
                                       i: nat, skip: set<Name>)
    requires i < MAX_ITERATIONS
    ensures var s := Oneshot(provider, prompt, accept, i, skip); EndsAs(accept, s.calls, s.ending, 20 - i)
    decreases MAX_ITERATIONS - i
  {
    var reply := provider(i, Ask(prompt, skip));
    if GoesOn(accept, reply, i, skip) {
      SessionEnds(provider, prompt, accept, i + 1, skip + {reply.response.modelUsed});
    }
  }

  // For a provider that serves a chain.

  function FirstUnskipped(chain: seq<Name>, skip: set<Name>): Option<Name> {
    if chain == [] then None
    else if chain[0] !in skip then Some(chain[0])
    else FirstUnskipped(chain[1..], skip)
  }

  /** Candidates are tried in order; with all of them skipped the provider falls back to the head
      or fails. Each candidate has its own response, which names it or no model at all. */
  ghost predicate Serves(provider: Provider, prompt: string, chain: seq<Name>, answer: Name -> Response) {
    && chain != []
    && (forall m :: answer(m).modelUsed in {m, NO_MODEL})
    && (forall i: nat, skip :: ServesAt(provider, prompt, chain, answer, i, skip))
  }

  ghost predicate ServesAt(provider: Provider, prompt: string, chain: seq<Name>, answer: Name -> Response,
                           i: nat, skip: set<Name>)
    requires chain != []
  {
    match FirstUnskipped(chain, skip)
    case Some(m) => provider(i, Ask(prompt, skip)) == Answered(answer(m))
    case None => provider(i, Ask(prompt, skip)) == Answered(answer(chain[0])) || provider(i, Ask(prompt, skip)).Failed?
  }

  predicate IsNamed(answer: Name -> Response, m: Name) { answer(m).modelUsed != NO_MODEL }

  /** The chain up to its first candidate whose response names no model, that one included. */
  function Through(chain: seq<Name>, answer: Name -> Response): (r: seq<Name>)
    ensures r <= chain && forall j | 0 <= j < |r| - 1 :: IsNamed(answer, chain[j])
    ensures |r| < |chain| ==> r != [] && !IsNamed(answer, chain[|r| - 1])
  {
    if chain == [] || !IsNamed(answer, chain[0]) then chain[..if chain == [] then 0 else 1]
    else [chain[0]] + Through(chain[1..], answer)
  }

  function Tried(chain: seq<Name>, n: nat): set<Name>
    requires n <= |chain|
  {
    set m | m in chain[..n]
  }

  lemma {:induction false} NextInChain(chain: seq<Name>, n: nat)
    requires Distinct(chain) && n <= |chain|
    ensures FirstUnskipped(chain, Tried(chain, n)) == if n < |chain| then Some(chain[n]) else None
  {
    UnskippedFrom(chain, n, 0);
    assert chain[0..] == chain;
  }

  lemma {:induction false} UnskippedFrom(chain: seq<Name>, n: nat, i: nat)
    requires Distinct(chain) && i <= n <= |chain|
    ensures FirstUnskipped(chain[i..], Tried(chain, n)) == if n < |chain| then Some(chain[n]) else None
    decreases n - i
  {
    if i < n {
      assert chain[..n][i] == chain[i];
      assert chain[i..][1..] == chain[i + 1..];
      UnskippedFrom(chain, n, i + 1);
    } else if n < |chain| {
      assert chain[n] !in Tried(chain, n);
    }
  }

  /** The `k`-th candidate is accepted and none before it is. */
  ghost predicate FirstAccepted(accept: Response -> bool, chain: seq<Name>, answer: Name -> Response, k: nat) {
    k < |chain| && accept(answer(chain[k])) && forall j | 0 <= j < k :: !accept(answer(chain[j]))
  }

  /** The candidates that the session can try: twenty at most. */
  function Reached(chain: seq<Name>, answer: Name -> Response): seq<Name> {
    Through(if |chain| < MAX_ITERATIONS then chain else chain[..MAX_ITERATIONS], answer)
  }

  function NamedOnes(chain: seq<Name>, answer: Name -> Response): set<Name> {
    set m | m in chain && IsNamed(answer, m)
  }

  lemma TriedGrows(chain: seq<Name>, n: nat)
    requires n < |chain|
    ensures Tried(chain, n + 1) == Tried(chain, n) + {chain[n]}
  {
    assert chain[..n + 1] == chain[..n] + [chain[n]];
  }

  lemma {:induction false} SearchFinds(provider: Provider, prompt: string, accept: Response -> bool,
                                       chain: seq<Name>, answer: Name -> Response, n: nat, k: nat)
    requires Serves(provider, prompt, chain, answer) && Distinct(chain)
    requires FirstAccepted(accept, chain, answer, k) && n <= k < MAX_ITERATIONS
    requires forall j | 0 <= j < k :: IsNamed(answer, chain[j])
    ensures Oneshot(provider, prompt, accept, n, Tried(chain, n)).ending == Accepted(answer(chain[k]))
    decreases k - n
  {
    NextInChain(chain, n);
    assert ServesAt(provider, prompt, chain, answer, n, Tried(chain, n));
    if n < k {
      assert IsNamed(answer, chain[n]) && chain[n] !in Tried(chain, n);
      TriedGrows(chain, n);
      SearchFinds(provider, prompt, accept, chain, answer, n + 1, k);
    }
  }

  /** The part of the chain that the search reaches: up to a candidate that names no model, or twenty, or all. */
  ghost predicate Reaches(chain: seq<Name>, answer: Name -> Response, r: seq<Name>) {
    && |r| <= MAX_ITERATIONS && r <= chain && (forall j | 0 <= j < |r| - 1 :: IsNamed(answer, chain[j]))
    && (|r| == |chain| || |r| == MAX_ITERATIONS || (r != [] && !IsNamed(answer, chain[|r| - 1])))
  }

  lemma ReachedIsPrefix(chain: seq<Name>, answer: Name -> Response)
    ensures Reaches(chain, answer, Reached(chain, answer))
  {
  }

  /** When the search stops, it has skipped the named ones. */
  lemma TriedAreNamed(chain: seq<Name>, answer: Name -> Response, r: seq<Name>, n: nat)
    requires Reaches(chain, answer, r) && n <= |r| && forall j | 0 <= j < n :: IsNamed(answer, chain[j])
    requires n < |r| ==> !IsNamed(answer, chain[n])
    ensures Tried(chain, n) == NamedOnes(r, answer)
  {
    forall m | m in Tried(chain, n) ensures m in NamedOnes(r, answer) {
      var j :| 0 <= j < n && chain[..n][j] == m;
      assert r[j] == chain[j];
    }
    forall m | m in NamedOnes(r, answer) ensures m in Tried(chain, n) {
      var j :| 0 <= j < |r| && r[j] == m;
      assert j < n;
      assert chain[..n][j] == m;
    }
  }

  /** Nothing is left to try: the last candidate named no model, or the provider answers from the head. */
  lemma SearchStops(provider: Provider, prompt: string, accept: Response -> bool,
                    chain: seq<Name>, answer: Name -> Response, n: nat)
    requires Serves(provider, prompt, chain, answer) && Distinct(chain) && n <= |chain| && n <= MAX_ITERATIONS
    requires n < |chain| && n < MAX_ITERATIONS ==> !IsNamed(answer, chain[n]) && !accept(answer(chain[n]))
    requires n == |chain| ==> IsNamed(answer, chain[0]) && !accept(answer(chain[0]))
    ensures var ending := Oneshot(provider, prompt, accept, n, Tried(chain, n)).ending;
            ending.Raised? || ending == Exhausted(Tried(chain, n))
  {
    if n < MAX_ITERATIONS {
      NextInChain(chain, n);
      assert ServesAt(provider, prompt, chain, answer, n, Tried(chain, n));
      if n == |chain| {
        assert chain[..n][0] == chain[0];
        assert chain[0] in Tried(chain, n);
      }
    }
  }

  /** One rejected candidate that names its model: the search goes on without it. */
  lemma SearchGoesOn(provider: Provider, prompt: string, accept: Response -> bool,
                     chain: seq<Name>, answer: Name -> Response, n: nat)
    requires Serves(provider, prompt, chain, answer) && Distinct(chain) && n < |chain| && n < MAX_ITERATIONS
    requires IsNamed(answer, chain[n]) && !accept(answer(chain[n]))
    ensures Oneshot(provider, prompt, accept, n, Tried(chain, n)).ending
         == Oneshot(provider, prompt, accept, n + 1, Tried(chain, n + 1)).ending
  {
    NextInChain(chain, n);
    assert ServesAt(provider, prompt, chain, answer, n, Tried(chain, n));
    assert chain[n] !in Tried(chain, n);
    TriedGrows(chain, n);
  }

  lemma {:induction false} SearchFails(provider: Provider, prompt: string, accept: Response -> bool,
                                       chain: seq<Name>, answer: Name -> Response, r: seq<Name>, n: nat)
    requires Serves(provider, prompt, chain, answer) && Distinct(chain) && Reaches(chain, answer, r)
    requires n <= |r| && forall j | 0 <= j < n :: IsNamed(answer, chain[j])
    requires forall j | 0 <= j < |r| :: !accept(answer(chain[j]))
    ensures var ending := Oneshot(provider, prompt, accept, n, Tried(chain, n)).ending;
            ending.Raised? || ending == Exhausted(NamedOnes(r, answer))
    decreases |r| - n
  {
    if n < |r| && IsNamed(answer, chain[n]) {
      SearchGoesOn(provider, prompt, accept, chain, answer, n);
      SearchFails(provider, prompt, accept, chain, answer, r, n + 1);
    } else {
      TriedAreNamed(chain, answer, r, n);
      SearchStops(provider, prompt, accept, chain, answer, n);
    }
  }

  lemma FirstOfDistinctWins(provider: Provider, prompt: string, accept: Response -> bool,
                          chain: seq<Name>, answer: Name -> Response)
    requires Serves(provider, prompt, chain, answer) && Distinct(chain)
    ensures var ending, reached := Oneshot(provider, prompt, accept, 0, {}).ending, Reached(chain, answer);
            && (ending.Accepted? <==> exists m :: m in reached && accept(answer(m)))
            && (forall k: nat | FirstAccepted(accept, chain, answer, k) && k < |reached|
                  :: ending == Accepted(answer(chain[k])))
            && (ending.Exhausted? ==> ending.skipped == NamedOnes(reached, answer))
  {
    var reached := Reached(chain, answer);
    assert forall j | 0 <= j < |reached| :: reached[j] == chain[j];
    assert Tried(chain, 0) == {};
    forall k: nat | FirstAccepted(accept, chain, answer, k) && k < |reached|
      ensures Oneshot(provider, prompt, accept, 0, {}).ending == Accepted(answer(chain[k]))
    {
      SearchFinds(provider, prompt, accept, chain, answer, 0, k);
    }
    if j :| 0 <= j < |reached| && accept(answer(chain[j])) {
      var k := FirstIndex(accept, chain, answer, j);
      assert reached[j] in reached;
    } else {
      ReachedIsPrefix(chain, answer);
      SearchFails(provider, prompt, accept, chain, answer, reached, 0);
    }
  }

  lemma {:induction false} FirstIndex(accept: Response -> bool, chain: seq<Name>, answer: Name -> Response, j: nat)
    returns (k: nat)
    requires j < |chain| && accept(answer(chain[j]))
    ensures k <= j && FirstAccepted(accept, chain, answer, k)
  {
    if i: nat :| i < j && accept(answer(chain[i])) {
      k := FirstIndex(accept, chain, answer, i);
    } else {
      k := j;
    }
  }

  // A chain may name a candidate twice.

  /** Each candidate where it is named first. */
  function Once(chain: seq<Name>): seq<Name> {
    if chain == [] then []
    else
      var front, last := chain[..|chain| - 1], chain[|chain| - 1];
      if last in front then Once(front) else Once(front) + [last]
  }

  lemma {:induction false} OnceIsProper(chain: seq<Name>)
    ensures Distinct(Once(chain)) && forall m :: m in Once(chain) <==> m in chain
    ensures chain != [] ==> Once(chain) != [] && Once(chain)[0] == chain[0]
  {
    if chain != [] {
      var front, last := chain[..|chain| - 1], chain[|chain| - 1];
      OnceIsProper(front);
      assert chain == front + [last];
    }
  }

  lemma {:induction false} FirstUnskippedOfMore(chain: seq<Name>, m: Name, skip: set<Name>)
    ensures FirstUnskipped(chain + [m], skip)
         == if FirstUnskipped(chain, skip).Some? then FirstUnskipped(chain, skip)
            else if m !in skip then Some(m) else None
  {
    var longer := chain + [m];
    if chain == [] {
      assert longer[1..] == [];
    } else {
      assert longer[1..] == chain[1..] + [m];
      FirstUnskippedOfMore(chain[1..], m, skip);
    }
  }

  lemma {:induction false} NoneUnskipped(chain: seq<Name>, skip: set<Name>)
    ensures FirstUnskipped(chain, skip).None? <==> forall m :: m in chain ==> m in skip
  {
    if chain != [] {
      NoneUnskipped(chain[1..], skip);
      assert forall m :: m in chain <==> m == chain[0] || m in chain[1..];
    }
  }

  lemma {:induction false} OnceServesTheSame(chain: seq<Name>, skip: set<Name>)
    ensures FirstUnskipped(Once(chain), skip) == FirstUnskipped(chain, skip)
  {
    if chain != [] {
      var front, last := chain[..|chain| - 1], chain[|chain| - 1];
      OnceServesTheSame(front, skip);
      assert chain == front + [last];
      FirstUnskippedOfMore(front, last, skip);
      FirstUnskippedOfMore(Once(front), last, skip);
      NoneUnskipped(front, skip);
    }
  }

  lemma {:induction false} OnceKeepsFirst(accept: Response -> bool, chain: seq<Name>, answer: Name -> Response, k: nat)
    returns (i: nat)
    requires FirstAccepted(accept, chain, answer, k)
    ensures FirstAccepted(accept, Once(chain), answer, i) && Once(chain)[i] == chain[k]
  {
    var front, last := chain[..|chain| - 1], chain[|chain| - 1];
    OnceIsProper(front);
    if k < |front| {
      i := OnceKeepsFirst(accept, front, answer, k);
    } else {
      i := |Once(front)|;
      forall j | 0 <= j < i ensures !accept(answer(Once(front)[j])) { assert Once(front)[j] in front; }
      assert last !in front;
    }
  }

  /** The different candidates of the chain, up to the first that names no model and twenty at most. */
  function Candidates(chain: seq<Name>, answer: Name -> Response): seq<Name> { Reached(Once(chain), answer) }

  /** The failover is a search of the chain, cut at twenty different candidates and at one that names no
      model: it returns the first accepted one in chain order, and gives up (or passes a provider error
      on) only when there is none, with all the named ones skipped. */
  lemma FirstAcceptedWins(provider: Provider, prompt: string, accept: Response -> bool,
                          chain: seq<Name>, answer: Name -> Response)
    requires Serves(provider, prompt, chain, answer)
    ensures var ending, candidates := Oneshot(provider, prompt, accept, 0, {}).ending, Candidates(chain, answer);
            && (ending.Accepted? <==> exists m :: m in candidates && accept(answer(m)))
            && (forall k: nat | FirstAccepted(accept, chain, answer, k) && chain[k] in candidates
                  :: ending == Accepted(answer(chain[k])))
            && (ending.Exhausted? ==> ending.skipped == NamedOnes(candidates, answer))
  {
    var once, candidates := Once(chain), Candidates(chain, answer);
    OnceIsProper(chain);
    OnceIsServed(provider, prompt, chain, answer);
    FirstOfDistinctWins(provider, prompt, accept, once, answer);
    forall k: nat | FirstAccepted(accept, chain, answer, k) && chain[k] in candidates
      ensures Oneshot(provider, prompt, accept, 0, {}).ending == Accepted(answer(chain[k]))
    {
      var i := OnceKeepsFirst(accept, chain, answer, k);
      var j :| 0 <= j < |candidates| && candidates[j] == chain[k];
      assert once[j] == once[i];
    }
  }

  lemma OnceIsServed(provider: Provider, prompt: string, chain: seq<Name>, answer: Name -> Response)
    requires Serves(provider, prompt, chain, answer)
    ensures Serves(provider, prompt, Once(chain), answer)
  {
    OnceIsProper(chain);
    forall i: nat, skip ensures ServesAt(provider, prompt, Once(chain), answer, i, skip) {
      OnceServesTheSame(chain, skip);
      assert ServesAt(provider, prompt, chain, answer, i, skip);
    }
  }
}
