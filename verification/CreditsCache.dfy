/** The TTL cache of credit snapshots (`health/credits.py`). Between two awaits a caller runs
    undisturbed, so a run is a sequence of three kinds of segment, of any callers in any order:
    enter, take the lock, complete the fetch. Time passes in between. */
module CreditsCache {
  import opened Basics

  datatype Snapshot = Snapshot(totalCredits: real, totalUsage: real)

  /** The three module globals. */
  datatype Cache = Cache(snapshot: Option<Snapshot>, fetchedAt: Option<real>, isFailure: bool)

  const EMPTY := Cache(None, None, false)

  function Min(a: real, b: real): real { if a < b then a else b }

  datatype Lookup = Miss | Hit(value: Option<Snapshot>)

  /** `_cache_lookup` */
  function CacheLookup(c: Cache, now: real, ttl: real): Lookup {
    if c.fetchedAt.None? then Miss
    else if c.isFailure && now - c.fetchedAt.value < Min(60.0, ttl) then Hit(None)
    else if !c.isFailure && c.snapshot.Some? && now - c.fetchedAt.value < ttl then Hit(c.snapshot)
    else Miss
  }

  /** The cache after a fetch begun at `start` answered. */
  function Stored(start: real, result: Option<Snapshot>): Cache {
    Cache(result, Some(start), result.None?)
  }

  /** How long an answer is good for a caller with this limit. */
  function LimitOf(answer: Option<Snapshot>, ttl: real): real {
    if answer.None? && ttl > 60.0 then 60.0 else ttl
  }

  /** The three globals agree with one another. */
  ghost predicate Coherent(c: Cache) {
    if c.fetchedAt.None? then c == EMPTY else c.isFailure == c.snapshot.None?
  }

  class CreditsProbe {
    var snapshot: Option<Snapshot>
    var fetchedAt: Option<real>
    var isFailure: bool
    var holder: Option<nat>

    function Fields(): Cache
      reads this
    {
      Cache(snapshot, fetchedAt, isFailure)
    }

    constructor ()
      ensures Fields() == EMPTY && holder == None
    {
      snapshot, fetchedAt, isFailure, holder := None, None, false, None;
    }

    /** The lookup before the lock; it changes nothing. From coherent globals a hit is the last answer,
        younger than its limit: the caller's own, and sixty seconds at most for a failure. */
    method Enter(now: real, ttl: real) returns (r: Lookup)
      ensures r == CacheLookup(Fields(), now, ttl)
      ensures Coherent(Fields()) ==> (r.Hit? <==> fetchedAt.Some? && now - fetchedAt.value < LimitOf(snapshot, ttl))
      ensures Coherent(Fields()) && r.Hit? ==> r.value == snapshot
    {
      if fetchedAt.None? {
        return Miss;
      }
      if isFailure && now - fetchedAt.value < Min(60.0, ttl) {
        return Hit(None);
      }
      if !isFailure && snapshot.Some? && now - fetchedAt.value < ttl {
        return Hit(snapshot);
      }
      r := Miss;
    }

    /** With the lock: look again, and keep the lock for a fetch only when that misses too. */
    method TakeLock(id: nat, now: real, ttl: real) returns (r: Lookup)
      requires holder == None
      modifies this`holder
      ensures r == CacheLookup(Fields(), now, ttl)
      ensures holder == if r.Miss? then Some(id) else None
    {
      holder := Some(id);
      r := Enter(now, ttl);
      if r.Hit? {
        holder := None;
      }
    }

    /** The fetch begun at `start` answered: store it and release the lock. */
    method Complete(start: real, result: Option<Snapshot>)
      modifies this
      ensures Fields() == Stored(start, result) && holder == None
    {
      fetchedAt := Some(start);
      if result.None? {
        isFailure := true;
        snapshot := None;
      } else {
        isFailure := false;
        snapshot := result;
      }
      holder := None;
    }

    method Reset()
      modifies this`snapshot, this`fetchedAt, this`isFailure
      ensures Fields() == EMPTY && snapshot == None && fetchedAt == None && !isFailure
    {
      snapshot, fetchedAt, isFailure := None, None, false;
    }
  }

  // Runs.

  datatype Phase = Waiting(ttl: real) | Fetching(ttl: real, start: real)

  /** A fetch of the run; `result` is missing while it is in flight. */
  datatype Fetch = Fetch(start: real, ttl: real, result: Option<Option<Snapshot>>)

  /** A value returned at `at`; `fetch` numbers the fetch it came from. */
  datatype Answer = Answer(at: real, ttl: real, value: Option<Snapshot>, fetch: nat, own: bool)

  datatype State = State(now: real, cache: Cache, holder: Option<nat>, callers: map<nat, Phase>,
                         fetches: seq<Fetch>, answers: seq<Answer>)

  datatype Event =
    | Pass(seconds: real)
    | Enters(id: nat, ttl: real)
    | TakesLock(id: nat, lookupTakes: real)
    | Completes(id: nat, result: Option<Snapshot>)

  const START := State(0.0, EMPTY, None, map[], [], [])

  /** The number of fetches that answered. */
  function Answered(s: State): nat {
    if s.holder.Some? && s.fetches != [] then |s.fetches| - 1 else |s.fetches|
  }

  function FromCache(s: State, ttl: real, value: Option<Snapshot>): State {
    s.(answers := s.answers + [Answer(s.now, ttl, value, if Answered(s) > 0 then Answered(s) - 1 else 0, false)])
  }

  /** One segment; an event that cannot happen in the state leaves it as it is. */
  function Step(s: State, e: Event): State {
    match e
    case Pass(seconds) => if seconds >= 0.0 then s.(now := s.now + seconds) else s
    case Enters(id, ttl) =>
      if id in s.callers then s
      else
        (match CacheLookup(s.cache, s.now, ttl)
         case Hit(value) => FromCache(s, ttl, value)
         case Miss => s.(callers := s.callers[id := Waiting(ttl)]))
    case TakesLock(id, lookupTakes) =>
      if s.holder.Some? || id !in s.callers || !s.callers[id].Waiting? || lookupTakes < 0.0 then s
      else
        var ttl := s.callers[id].ttl;
        (match CacheLookup(s.cache, s.now, ttl)
         case Hit(value) => FromCache(s, ttl, value).(callers := s.callers - {id})
         case Miss =>
           var start := s.now + lookupTakes;
           s.(now := start, holder := Some(id), callers := s.callers[id := Fetching(ttl, start)],
              fetches := s.fetches + [Fetch(start, ttl, None)]))
    case Completes(id, result) =>
      if s.holder != Some(id) || id !in s.callers || !s.callers[id].Fetching? || s.fetches == [] then s
      else
        var k, phase := |s.fetches| - 1, s.callers[id];
        State(s.now, Stored(phase.start, result), None, s.callers - {id},
              s.fetches[k := s.fetches[k].(result := Some(result))],
              s.answers + [Answer(s.now, phase.ttl, result, k, true)])
  }

  function Run(events: seq<Event>): State {
    if events == [] then START else Step(Run(events[..|events| - 1]), events[|events| - 1])
  }

  /** How long a caller with this ttl waits after the fetch before it starts another. */
  function Gap(previous: Fetch, ttl: real): real {
    if previous.result.Some? then LimitOf(previous.result.value, ttl) else ttl
  }

  /** At most one fetch is in flight: the lock holder's, the last one. */
  ghost predicate OneInFlight(s: State) {
    && (forall id :: id in s.callers && s.callers[id].Fetching? <==> s.holder == Some(id))
    && (s.holder.Some? ==> HolderFetchesLast(s, s.holder.value))
    && (forall k | 0 <= k < |s.fetches| :: s.fetches[k].result.Some? <==> k < Answered(s))
  }

  ghost predicate HolderFetchesLast(s: State, id: nat) {
    && s.fetches != [] && id in s.callers
    && var last := s.fetches[|s.fetches| - 1];
       s.callers[id] == Fetching(last.ttl, last.start)
  }

  /** The globals are the last fetch that answered. */
  ghost predicate CacheIsLast(s: State) {
    if Answered(s) == 0 then s.cache == EMPTY
    else
      var last := s.fetches[Answered(s) - 1];
      last.result.Some? && s.cache == Stored(last.start, last.result.value)
  }

  ghost predicate SpacedAt(s: State, k: nat)
    requires 0 < k < |s.fetches|
  {
    s.fetches[k].start - s.fetches[k - 1].start >= Gap(s.fetches[k - 1], s.fetches[k].ttl)
  }

  ghost predicate Spaced(s: State) {
    && (forall k: nat | 0 < k < |s.fetches| :: SpacedAt(s, k))
    && (forall k | 0 <= k < |s.fetches| :: s.fetches[k].start <= s.now)
  }

  /** The value came from an answered fetch: the caller's own, or one younger than its limit. */
  ghost predicate Honest(s: State, a: Answer) {
    && a.fetch < |s.fetches|
    && s.fetches[a.fetch].result == Some(a.value)
    && (!a.own ==> a.at - s.fetches[a.fetch].start < Gap(s.fetches[a.fetch], a.ttl))
  }

  ghost predicate AllHonest(s: State) {
    forall i | 0 <= i < |s.answers| :: Honest(s, s.answers[i])
  }

  ghost predicate Good(s: State) {
    OneInFlight(s) && CacheIsLast(s) && Spaced(s) && AllHonest(s)
  }

  lemma HonestStays(s: State, s': State, a: Answer)
    requires Honest(s, a) && |s.fetches| <= |s'.fetches| && s'.fetches[a.fetch] == s.fetches[a.fetch]
    ensures Honest(s', a)
  {
  }

  /** In every run the cache answers with the last fetch's answer exactly while that is young enough for
      the caller, and not at all otherwise. */
  lemma HitIffYoung(s: State, ttl: real)
    requires Good(s)
    ensures CacheLookup(s.cache, s.now, ttl)
         == if Answered(s) > 0 && s.now - s.fetches[Answered(s) - 1].start < Gap(s.fetches[Answered(s) - 1], ttl)
            then Hit(s.fetches[Answered(s) - 1].result.value) else Miss
  {
    assert CacheIsLast(s);
  }

  lemma HitIsHonest(s: State, ttl: real, value: Option<Snapshot>)
    requires Good(s) && CacheLookup(s.cache, s.now, ttl) == Hit(value)
    ensures Answered(s) > 0 && Honest(s, Answer(s.now, ttl, value, Answered(s) - 1, false))
    ensures Good(FromCache(s, ttl, value))
  {
    var s' := FromCache(s, ttl, value);
    forall i | 0 <= i < |s'.answers| ensures Honest(s', s'.answers[i]) {
      if i < |s.answers| { HonestStays(s, s', s.answers[i]); }
    }
    assert forall k: nat | 0 < k < |s.fetches| :: SpacedAt(s, k) ==> SpacedAt(s', k);
  }

  lemma StartKeepsGood(s: State, id: nat, lookupTakes: real)
    requires Good(s) && s.holder.None? && id in s.callers && s.callers[id].Waiting? && lookupTakes >= 0.0
    requires CacheLookup(s.cache, s.now, s.callers[id].ttl).Miss?
    ensures Good(Step(s, TakesLock(id, lookupTakes)))
  {
    var s' := Step(s, TakesLock(id, lookupTakes));
    forall k: nat | 0 < k < |s'.fetches| ensures SpacedAt(s', k) {
      if k < |s.fetches| { assert SpacedAt(s, k); }
    }
    forall i | 0 <= i < |s'.answers| ensures Honest(s', s'.answers[i]) {
      HonestStays(s, s', s.answers[i]);
    }
  }

  lemma CompletionKeepsGood(s: State, id: nat, result: Option<Snapshot>)
    requires Good(s) && s.holder == Some(id)
    ensures Good(Step(s, Completes(id, result)))
  {
    assert id in s.callers && s.callers[id].Fetching?;
    var s' := Step(s, Completes(id, result));
    var last := |s.fetches| - 1;
    forall k: nat | 0 < k < |s'.fetches| ensures SpacedAt(s', k) {
      assert SpacedAt(s, k);
    }
    forall i | 0 <= i < |s'.answers| ensures Honest(s', s'.answers[i]) {
      if i < |s.answers| {
        assert Honest(s, s.answers[i]);
        HonestStays(s, s', s.answers[i]);
      }
    }
  }

  lemma StepKeepsGood(s: State, e: Event)
    requires Good(s)
    ensures Good(Step(s, e))
  {
    var s' := Step(s, e);
    match e {
      case Pass(_) =>
        assert forall k: nat | 0 < k < |s.fetches| :: SpacedAt(s, k) ==> SpacedAt(s', k);
        assert forall i | 0 <= i < |s.answers| :: Honest(s, s.answers[i]) ==> Honest(s', s.answers[i]);
      case Enters(id, ttl) =>
        if CacheLookup(s.cache, s.now, ttl).Hit? {
          HitIsHonest(s, ttl, CacheLookup(s.cache, s.now, ttl).value);
        } else {
          assert forall k: nat | 0 < k < |s.fetches| :: SpacedAt(s, k) ==> SpacedAt(s', k);
          assert forall i | 0 <= i < |s.answers| :: Honest(s, s.answers[i]) ==> Honest(s', s.answers[i]);
        }
      case TakesLock(id, takes) =>
        if s' != s {
          var ttl := s.callers[id].ttl;
          var r := CacheLookup(s.cache, s.now, ttl);
          if r.Hit? {
            HitIsHonest(s, ttl, r.value);
            var h := FromCache(s, ttl, r.value);
            assert forall k: nat | 0 < k < |s.fetches| :: SpacedAt(h, k) ==> SpacedAt(s', k);
            assert forall i | 0 <= i < |h.answers| :: Honest(h, h.answers[i]) ==> Honest(s', h.answers[i]);
          } else {
            StartKeepsGood(s, id, takes);
          }
        }
      case Completes(id, result) =>
        if s' != s { CompletionKeepsGood(s, id, result); }
    }
  }

  /** Over every run: one fetch in flight at most, fetches spaced by the caller's limit, answers
      from an own fetch or a young enough one, and globals that agree with one another. */
  lemma {:induction false} EveryRunIsGood(events: seq<Event>)
    ensures Good(Run(events)) && Coherent(Run(events).cache)
  {
    if events != [] {
      EveryRunIsGood(events[..|events| - 1]);
      StepKeepsGood(Run(events[..|events| - 1]), events[|events| - 1]);
    }
  }

  /** Callers queued behind a fetch share it: one that gets the lock while the answer is young takes
      that answer and starts nothing. */
  lemma WaitersShareTheFetch(s: State, id: nat, result: Option<Snapshot>, other: nat, takes: real)
    requires Good(s) && s.holder == Some(id) && other in s.callers && s.callers[other].Waiting? && takes >= 0.0
    requires var last := s.fetches[|s.fetches| - 1];
             s.now - last.start < Gap(last.(result := Some(result)), s.callers[other].ttl)
    ensures var shared := Step(Step(s, Completes(id, result)), TakesLock(other, takes));
            && |shared.fetches| == |s.fetches| && shared.holder == None
            && |shared.answers| == |s.answers| + 2
            && shared.answers[|s.answers| + 1].value == result == shared.answers[|s.answers|].value
            && !shared.answers[|s.answers| + 1].own
  {
    assert id in s.callers && s.callers[id].Fetching? && HolderFetchesLast(s, id);
    assert other != id;
  }

  // What every caller gets.

  /** The last answer is young enough for a caller with this limit. */
  ghost predicate IsYoung(s: State, ttl: real)
    requires Answered(s) <= |s.fetches|
  {
    && Answered(s) > 0
    && var last := s.fetches[Answered(s) - 1];
       last.result.Some? && s.now - last.start < Gap(last, ttl)
  }

  /** The last answer, handed to a caller. */
  ghost function Shared(s: State, ttl: real): Answer
    requires Answered(s) <= |s.fetches| && IsYoung(s, ttl)
  {
    Answer(s.now, ttl, s.fetches[Answered(s) - 1].result.value, Answered(s) - 1, false)
  }

  /** A caller that enters is answered at once while the last answer is young, and queues otherwise;
      nothing else changes. */
  lemma EntersAndIsServedOrWaits(s: State, id: nat, ttl: real)
    requires Good(s) && id !in s.callers
    ensures Step(s, Enters(id, ttl)) == if IsYoung(s, ttl) then s.(answers := s.answers + [Shared(s, ttl)])
                                        else s.(callers := s.callers[id := Waiting(ttl)])
  {
    HitIffYoung(s, ttl);
    assert CacheIsLast(s);
  }

  /** Answers age: after some quiet time a caller that enters is answered exactly while the last answer
      is younger than its limit even then. */
  lemma AnswersAge(s: State, seconds: real, id: nat, ttl: real)
    requires Good(s) && id !in s.callers && seconds >= 0.0
    ensures var s' := Step(Step(s, Pass(seconds)), Enters(id, ttl));
            && s'.now == s.now + seconds && s'.fetches == s.fetches && s'.holder == s.holder
            && (|s'.answers| > |s.answers|
                <==> Answered(s) > 0 && s.fetches[Answered(s) - 1].result.Some?
                     && s.now + seconds - s.fetches[Answered(s) - 1].start < Gap(s.fetches[Answered(s) - 1], ttl))
  {
    StepKeepsGood(s, Pass(seconds));
    EntersAndIsServedOrWaits(Step(s, Pass(seconds)), id, ttl);
  }

  /** A waiting caller that finds the lock free takes the last answer while that is young, and starts
      one fetch of its own otherwise, keeping the lock. */
  lemma TakesLockAndIsServedOrFetches(s: State, id: nat, takes: real)
    requires Good(s) && s.holder == None && id in s.callers && s.callers[id].Waiting? && takes >= 0.0
    ensures var ttl, start := s.callers[id].ttl, s.now + takes;
            Step(s, TakesLock(id, takes))
            == if IsYoung(s, ttl) then s.(answers := s.answers + [Shared(s, ttl)], callers := s.callers - {id})
               else s.(now := start, holder := Some(id), callers := s.callers[id := Fetching(ttl, start)],
                       fetches := s.fetches + [Fetch(start, ttl, None)])
  {
    HitIffYoung(s, s.callers[id].ttl);
    assert CacheIsLast(s);
  }

  /** The holder's fetch answers it, whatever the result, fills the cache and frees the lock. */
  lemma CompletesAndIsServed(s: State, id: nat, result: Option<Snapshot>)
    requires Good(s) && s.holder == Some(id)
    ensures id in s.callers && s.fetches != []
    ensures var s', k, ttl := Step(s, Completes(id, result)), |s.fetches| - 1, s.callers[id].ttl;
            && s'.answers == s.answers + [Answer(s.now, ttl, result, k, true)]
            && s'.holder == None && s'.callers == s.callers - {id} && s'.now == s.now
            && s'.fetches == s.fetches[k := s.fetches[k].(result := Some(result))]
            && s'.cache == Cache(result, Some(s.fetches[k].start), result == None)
  {
    assert HolderFetchesLast(s, id);
  }

  /** While a fetch is in flight, nobody else changes it. */
  predicate Spares(id: nat, events: seq<Event>) {
    forall e | e in events :: !(e.Completes? && e.id == id)
  }

  ghost predicate InFlight(s: State, id: nat, fetches: seq<Fetch>) {
    s.holder == Some(id) && s.fetches == fetches
  }

  lemma StepSparesFetch(s: State, id: nat, e: Event)
    requires Good(s) && s.holder == Some(id) && !(e.Completes? && e.id == id)
    ensures InFlight(Step(s, e), id, s.fetches) && id in Step(s, e).callers && Step(s, e).callers[id] == s.callers[id]
  {
    assert HolderFetchesLast(s, id);
  }

  lemma {:induction false} RunSparesFetch(events: seq<Event>, id: nat, more: seq<Event>)
    requires Run(events).holder == Some(id) && Spares(id, more)
    ensures InFlight(Run(events + more), id, Run(events).fetches)
    ensures var s, s' := Run(events), Run(events + more);
            id in s.callers && id in s'.callers && s'.callers[id] == s.callers[id]
  {
    EveryRunIsGood(events);
    assert HolderFetchesLast(Run(events), id);
    if more == [] {
      assert events + more == events;
    } else {
      var front, e := more[..|more| - 1], more[|more| - 1];
      assert e in more && forall x | x in front :: x in more;
      RunSparesFetch(events, id, front);
      assert (events + more)[..|events + more| - 1] == events + front;
      EveryRunIsGood(events + front);
      StepSparesFetch(Run(events + front), id, e);
    }
  }

  /** From one end to the other: a caller that takes the free lock with no young answer there starts
      exactly one fetch, and whatever the others do meanwhile, when that fetch answers the caller
      returns its result. */
  lemma MissIsFetchedAndAnswered(events: seq<Event>, id: nat, takes: real, meanwhile: seq<Event>,
                                 result: Option<Snapshot>)
    requires var s := Run(events); s.holder == None && id in s.callers && s.callers[id].Waiting? && takes >= 0.0
    requires Answered(Run(events)) <= |Run(events).fetches| && !IsYoung(Run(events), Run(events).callers[id].ttl)
    requires Spares(id, meanwhile)
    ensures var s, before := Run(events), Run(events + [TakesLock(id, takes)] + meanwhile);
            var after := Run(events + [TakesLock(id, takes)] + meanwhile + [Completes(id, result)]);
            && before.fetches == s.fetches + [Fetch(s.now + takes, s.callers[id].ttl, None)]
            && after.answers == before.answers + [Answer(before.now, s.callers[id].ttl, result, |s.fetches|, true)]
            && after.holder == None
  {
    EveryRunIsGood(events);
    var started := events + [TakesLock(id, takes)];
    assert started[..|started| - 1] == events;
    TakesLockAndIsServedOrFetches(Run(events), id, takes);
    RunSparesFetch(started, id, meanwhile);
    var waited := started + meanwhile;
    EveryRunIsGood(waited);
    CompletesAndIsServed(Run(waited), id, result);
    assert (waited + [Completes(id, result)])[..|waited|] == waited;
  }
}
