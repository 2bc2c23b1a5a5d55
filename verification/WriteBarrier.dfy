/** The one gate of every forge write (`forge/protocol.py`), used from several threads, and the two
    argv paths of the forges (`_run`, `_write`). Whether an argv writes is a property it carries. */
module WriteBarrier {
  import opened Basics

  datatype Reason = DryRun | PostingDisabled | AdvisoryPostOff

  /** An argv, by its loggable head and the verdict of `is_write_argv`. */
  datatype Argv = Argv(head: string, writes: bool)

  datatype Logged = Logged(head: string, reason: Reason)

  datatype WriteEnd = Spawned | Refused(reason: Reason) | Bypass | SpawnRaised

  /** One thread's view: the methods as they run when nobody interferes. */
  class ForgeWriteBarrier {
    var refusal: Option<Reason>
    var refused: seq<string>
    var log: seq<Logged>
    var depth: map<nat, nat>

    constructor (initial: Option<Reason>)
      ensures refusal == initial && refused == [] && log == [] && depth == map[]
    {
      refusal, refused, log, depth := initial, [], [], map[];
    }

    function Depth(t: nat): nat
      reads this`depth
    {
      if t in depth then depth[t] else 0
    }

    /** One-way: a closed barrier keeps its reason. */
    method Close(reason: Reason)
      modifies this`refusal
      ensures refusal == if old(refusal).None? then Some(reason) else old(refusal)
    {
      if refusal.None? {
        refusal := Some(reason);
      }
    }

    /** `refuse_if_closed`: what it raises, if it raises. */
    method RefuseIfClosed(head: string) returns (raised: Option<Reason>)
      modifies this`refused, this`log
      ensures raised == refusal
      ensures refused == old(refused) + if raised.Some? then [head] else []
      ensures log == old(log) + if raised.Some? then [Logged(head, raised.value)] else []
    {
      raised := refusal;
      if raised.Some? {
        refused := refused + [head];
        log := log + [Logged(head, raised.value)];
      } else {
        assert refused + [] == refused && log + [] == log;
      }
    }

    method RequireAdmitted(t: nat, argv: Argv) returns (ok: bool)
      ensures ok <==> Depth(t) > 0 || !argv.writes
    {
      ok := !(Depth(t) == 0 && argv.writes);
    }

    /** `_write`: admitted, run and left again; the spawn may raise. */
    method Write(t: nat, argv: Argv, spawnRaises: bool) returns (end: WriteEnd)
      modifies this
      ensures refusal == old(refusal)
      ensures forall u :: Depth(u) == old(Depth(u))
      ensures end == match old(refusal)
                     case Some(reason) => Refused(reason)
                     case None => if spawnRaises then SpawnRaised else Spawned
      ensures refused == old(refused) + if end.Refused? then [argv.head] else []
    {
      var raised := RefuseIfClosed(argv.head);
      if raised.Some? {
        return Refused(raised.value);
      }
      var saved := Depth(t);
      depth := depth[t := saved + 1];
      var ok := RequireAdmitted(t, argv);
      end := if !ok then Bypass else if spawnRaises then SpawnRaised else Spawned;
      depth := depth[t := saved];
    }
  }

  // All threads at once: each step below is one atomic access to the shared state.

  /** An open admission: the depth it restores, when its check found the barrier open, and whether a
      run was made in it. */
  datatype Frame = Frame(saved: nat, checkedAt: nat, spent: bool)

  datatype Pc =
    | Ready
    | Passed(checkedAt: nat)              // read no refusal, depth not raised yet
    | Refusing(head: string, reason: Reason)  // read a refusal, not recorded yet
    | Logging(head: string, reason: Reason)   // recorded, not logged yet

  datatype Thread = Thread(depth: nat, frames: seq<Frame>, pc: Pc)

  datatype Entry = Entry(thread: nat, head: string)

  datatype Spawn = Spawn(thread: nat, argv: Argv, admissions: seq<Frame>)

  datatype State = State(
    clock: nat, refusal: Option<Reason>, closedAt: Option<nat>, threads: map<nat, Thread>,
    sawClosed: seq<Entry>, refused: seq<Entry>, log: seq<Entry>, reasons: set<Reason>,
    spawns: seq<Spawn>, bypasses: seq<Entry>)

  const START := State(0, None, None, map[], [], [], [], {}, [], [])

  datatype Event =
    | Closes(reason: Reason)
    | Checks(thread: nat, head: string, admits: bool)   // `refuse_if_closed`, alone or first in `admit`
    | Enters(thread: nat)
    | Records(thread: nat)
    | Logs(thread: nat)
    | Runs(thread: nat, argv: Argv)                     // `_run`
    | Leaves(thread: nat)                               // the `finally`, with or without an exception

  function ThreadOf(s: State, t: nat): Thread {
    if t in s.threads then s.threads[t] else Thread(0, [], Ready)
  }

  function With(s: State, t: nat, thread: Thread): State {
    s.(threads := s.threads[t := thread])
  }

  /** A run is made in the innermost admission. */
  function Spend(frames: seq<Frame>): (r: seq<Frame>)
    ensures |r| == |frames|
    ensures forall i | 0 <= i < |r| :: r[i] == frames[i].(spent := i == |r| - 1 || frames[i].spent)
  {
    if frames == [] then []
    else
      var last := |frames| - 1;
      frames[..last] + [frames[last].(spent := true)]
  }

  /** One step; a step the thread is not ready for changes nothing. */
  function Act(s: State, e: Event): State {
    match e
    case Closes(reason) =>
      if s.refusal.None? then s.(refusal := Some(reason), closedAt := Some(s.clock)) else s
    case Checks(t, head, admits) =>
      var th := ThreadOf(s, t);
      if !th.pc.Ready? then s
      else if s.refusal.Some? then
        With(s, t, th.(pc := Refusing(head, s.refusal.value))).(sawClosed := s.sawClosed + [Entry(t, head)])
      else if admits then With(s, t, th.(pc := Passed(s.clock)))
      else s
    case Enters(t) =>
      var th := ThreadOf(s, t);
      if !th.pc.Passed? then s
      else With(s, t, Thread(th.depth + 1, th.frames + [Frame(th.depth, th.pc.checkedAt, false)], Ready))
    case Records(t) =>
      var th := ThreadOf(s, t);
      if !th.pc.Refusing? then s
      else With(s, t, th.(pc := Logging(th.pc.head, th.pc.reason))).(refused := s.refused + [Entry(t, th.pc.head)])
    case Logs(t) =>
      var th := ThreadOf(s, t);
      if !th.pc.Logging? then s
      else With(s, t, th.(pc := Ready)).(log := s.log + [Entry(t, th.pc.head)], reasons := s.reasons + {th.pc.reason})
    case Runs(t, argv) =>
      var th := ThreadOf(s, t);
      if !th.pc.Ready? then s
      else if th.depth == 0 && argv.writes then s.(bypasses := s.bypasses + [Entry(t, argv.head)])
      else With(s, t, th.(frames := Spend(th.frames))).(spawns := s.spawns + [Spawn(t, argv, th.frames)])
    case Leaves(t) =>
      var th := ThreadOf(s, t);
      if !th.pc.Ready? || th.frames == [] then s
      else With(s, t, th.(depth := th.frames[|th.frames| - 1].saved, frames := th.frames[..|th.frames| - 1]))
  }

  function Step(s: State, e: Event): State {
    Act(s, e).(clock := s.clock + 1)
  }

  function Run(events: seq<Event>): State {
    if events == [] then START else Step(Run(events[..|events| - 1]), events[|events| - 1])
  }

  /** The check found the barrier open: it came before the closing, if there was one. */
  predicate BeforeClosing(s: State, at: nat) {
    at < s.clock && (s.closedAt.Some? ==> at < s.closedAt.value)
  }

  /** Depth counts the open admissions, each saved the depth below it, each passed an open check. */
  ghost predicate ThreadOk(s: State, th: Thread) {
    && th.depth == |th.frames|
    && (forall i | 0 <= i < |th.frames| :: th.frames[i].saved == i && BeforeClosing(s, th.frames[i].checkedAt))
    && (th.pc.Passed? ==> BeforeClosing(s, th.pc.checkedAt))
    && (th.pc.Refusing? || th.pc.Logging? ==> s.refusal == Some(th.pc.reason))
  }

  ghost predicate SpawnOk(s: State, x: Spawn) {
    && (x.argv.writes ==> x.admissions != [])
    && forall i | 0 <= i < |x.admissions| :: BeforeClosing(s, x.admissions[i].checkedAt)
  }

  /** One thread's entries, in order. */
  function Of(entries: seq<Entry>, t: nat): seq<Entry> {
    if entries == [] then []
    else
      var last := entries[|entries| - 1];
      Of(entries[..|entries| - 1], t) + if last.thread == t then [last] else []
  }

  /** Each attempt of the thread that saw the barrier closed is recorded once and then logged once,
      in the order of the attempts; at most the last is still on its way. */
  ghost predicate Accounted(s: State, t: nat) {
    var pc := ThreadOf(s, t).pc;
    && Of(s.sawClosed, t) == Of(s.refused, t) + (if pc.Refusing? then [Entry(t, pc.head)] else [])
    && Of(s.refused, t) == Of(s.log, t) + (if pc.Logging? then [Entry(t, pc.head)] else [])
  }

  ghost predicate Good(s: State) {
    && (s.refusal.Some? <==> s.closedAt.Some?)
    && (s.closedAt.Some? ==> s.closedAt.value < s.clock)
    && (forall t :: ThreadOk(s, ThreadOf(s, t)))
    && (forall i | 0 <= i < |s.spawns| :: SpawnOk(s, s.spawns[i]))
    && (forall t :: Accounted(s, t))
    && (forall r | r in s.reasons :: s.refusal == Some(r))
  }

  lemma OfGrows(entries: seq<Entry>, e: Entry, t: nat)
    ensures Of(entries + [e], t) == Of(entries, t) + if e.thread == t then [e] else []
  {
    assert (entries + [e])[..|entries + [e]| - 1] == entries;
  }

  lemma AccountedChecks(s: State, u: nat, head: string, admits: bool, t: nat)
    requires Accounted(s, t)
    ensures Accounted(Step(s, Checks(u, head, admits)), t)
  {
    OfGrows(s.sawClosed, Entry(u, head), t);
    assert Of(s.refused, t) + [] == Of(s.refused, t);
  }

  lemma AccountedRecords(s: State, u: nat, t: nat)
    requires Accounted(s, t)
    ensures Accounted(Step(s, Records(u)), t)
  {
    var pc := ThreadOf(s, u).pc;
    if pc.Refusing? {
      OfGrows(s.refused, Entry(u, pc.head), t);
      if u == t { assert Of(s.refused, t) == Of(s.log, t) + []; }
    }
  }

  lemma AccountedLogs(s: State, u: nat, t: nat)
    requires Accounted(s, t)
    ensures Accounted(Step(s, Logs(u)), t)
  {
    var pc := ThreadOf(s, u).pc;
    if pc.Logging? { OfGrows(s.log, Entry(u, pc.head), t); }
  }

  lemma AccountedSame(s: State, s': State, t: nat)
    requires Accounted(s, t) && s'.sawClosed == s.sawClosed && s'.refused == s.refused && s'.log == s.log
    requires var pc, pc' := ThreadOf(s, t).pc, ThreadOf(s', t).pc; pc' == pc || (pc.Passed? && pc'.Ready?)
    ensures Accounted(s', t)
  {
  }

  lemma AccountedStep(s: State, e: Event, t: nat)
    requires Accounted(s, t)
    ensures Accounted(Step(s, e), t)
  {
    match e
    case Checks(u, head, admits) => AccountedChecks(s, u, head, admits, t);
    case Records(u) => AccountedRecords(s, u, t);
    case Logs(u) => AccountedLogs(s, u, t);
    case Enters(u) => AccountedSame(s, Step(s, e), t);
    case Runs(u, argv) => AccountedSame(s, Step(s, e), t);
    case Leaves(u) => AccountedSame(s, Step(s, e), t);
    case Closes(reason) => AccountedSame(s, Step(s, e), t);
  }

  /** What was open at a check stays so, and a reason seen is the one that stays. */
  lemma ThreadStays(s: State, e: Event, th: Thread)
    requires (s.refusal.Some? <==> s.closedAt.Some?) && ThreadOk(s, th)
    ensures ThreadOk(Step(s, e), th)
  {
    forall i | 0 <= i < |th.frames| ensures BeforeClosing(Step(s, e), th.frames[i].checkedAt) {
      assert BeforeClosing(s, th.frames[i].checkedAt);
    }
  }

  lemma ThreadStep(s: State, e: Event, t: nat)
    requires Good(s)
    ensures ThreadOk(Step(s, e), ThreadOf(Step(s, e), t))
  {
    var th := ThreadOf(s, t);
    assert ThreadOk(s, th);
    ThreadStays(s, e, th);
    if e.Closes? || e.thread != t {
      assert ThreadOf(Step(s, e), t) == th;
    }
  }

  lemma SpawnsStep(s: State, e: Event)
    requires Good(s)
    ensures forall i | 0 <= i < |Step(s, e).spawns| :: SpawnOk(Step(s, e), Step(s, e).spawns[i])
  {
    var s' := Step(s, e);
    forall i | 0 <= i < |s'.spawns| ensures SpawnOk(s', s'.spawns[i]) {
      if i < |s.spawns| {
        assert SpawnOk(s, s.spawns[i]);
      } else {
        assert ThreadOk(s, ThreadOf(s, e.thread));
      }
    }
  }

  lemma StepKeepsGood(s: State, e: Event)
    requires Good(s)
    ensures Good(Step(s, e))
  {
    forall t ensures Accounted(Step(s, e), t) { AccountedStep(s, e, t); }
    forall t ensures ThreadOk(Step(s, e), ThreadOf(Step(s, e), t)) { ThreadStep(s, e, t); }
    SpawnsStep(s, e);
    if e.Logs? { assert ThreadOk(s, ThreadOf(s, e.thread)); }
  }

  lemma {:induction false} EveryRunIsGood(events: seq<Event>)
    ensures Good(Run(events))
  {
    if events != [] {
      EveryRunIsGood(events[..|events| - 1]);
      StepKeepsGood(Run(events[..|events| - 1]), events[|events| - 1]);
    }
  }

  /** The refusal goes from none to one fixed reason and never changes again. */
  lemma {:induction false} ClosingIsForGood(events: seq<Event>, more: seq<Event>)
    requires Run(events).refusal.Some?
    ensures Run(events + more).refusal == Run(events).refusal
    ensures Run(events + more).closedAt == Run(events).closedAt
  {
    if more == [] {
      assert events + more == events;
    } else {
      var front := more[..|more| - 1];
      ClosingIsForGood(events, front);
      assert (events + more)[..|events + more| - 1] == events + front;
    }
  }

  lemma {:induction false} ClockCounts(events: seq<Event>)
    ensures Run(events).clock == |events|
  {
    if events != [] { ClockCounts(events[..|events| - 1]); }
  }

  /** Every mutating argv that reached the spawn ran inside an admission of its own thread, and every
      admission around it had found the barrier open: after the closing, only writes admitted before
      it are still spawned. */
  lemma WritesRunAdmitted(events: seq<Event>, i: nat)
    requires i < |Run(events).spawns| && Run(events).spawns[i].argv.writes
    ensures var s, x := Run(events), Run(events).spawns[i];
            x.admissions != [] && forall k | 0 <= k < |x.admissions| :: BeforeClosing(s, x.admissions[k].checkedAt)
  {
    EveryRunIsGood(events);
    assert SpawnOk(Run(events), Run(events).spawns[i]);
  }

  /** With no refusal on its way, every thread's refused attempts are recorded and logged exactly
      once and in its order, under the one reason of the barrier. */
  lemma RefusalsAccounted(events: seq<Event>, t: nat)
    requires ThreadOf(Run(events), t).pc.Ready?
    ensures var s := Run(events);
            && Of(s.sawClosed, t) == Of(s.refused, t) == Of(s.log, t)
            && (forall r | r in s.reasons :: s.refusal == Some(r))
            && ThreadOf(s, t).depth == |ThreadOf(s, t).frames|
  {
    EveryRunIsGood(events);
    var s := Run(events);
    assert Accounted(s, t) && ThreadOk(s, ThreadOf(s, t));
  }

  /** One whole `_write` of a thread that nobody interferes with, as steps. */
  function Undisturbed(s: State, t: nat, argv: Argv): State {
    var checked := Step(s, Checks(t, argv.head, true));
    if s.refusal.None? then Step(Step(Step(checked, Enters(t)), Runs(t, argv)), Leaves(t))
    else Step(Step(checked, Records(t)), Logs(t))
  }

  /** What a thread changes on its own: itself, the spawns, the record and the log. */
  ghost predicate Moved(s: State, s': State, t: nat, th: Thread, spawns: seq<Spawn>, refused: seq<Entry>,
                        log: seq<Entry>) {
    && s'.refusal == s.refusal && s'.bypasses == s.bypasses && ThreadOf(s', t) == th
    && s'.spawns == spawns && s'.refused == refused && s'.log == log
  }

  lemma UndisturbedAdmission(s: State, t: nat, argv: Argv)
    requires ThreadOf(s, t).pc.Ready? && s.refusal.None?
    ensures var th := ThreadOf(s, t);
            Moved(s, Undisturbed(s, t, argv), t, th,
                  s.spawns + [Spawn(t, argv, th.frames + [Frame(th.depth, s.clock, false)])], s.refused, s.log)
  {
    var th := ThreadOf(s, t);
    var frames := th.frames + [Frame(th.depth, s.clock, false)];
    var spawns := s.spawns + [Spawn(t, argv, frames)];
    var s1 := Step(s, Checks(t, argv.head, true));
    assert Moved(s, s1, t, th.(pc := Passed(s.clock)), s.spawns, s.refused, s.log);
    var s2 := Step(s1, Enters(t));
    assert Moved(s, s2, t, Thread(th.depth + 1, frames, Ready), s.spawns, s.refused, s.log);
    var s3 := Step(s2, Runs(t, argv));
    assert Moved(s, s3, t, Thread(th.depth + 1, Spend(frames), Ready), spawns, s.refused, s.log);
    assert Spend(frames)[..|frames| - 1] == th.frames;
    assert Moved(s, Step(s3, Leaves(t)), t, th, spawns, s.refused, s.log);
  }

  lemma UndisturbedRefusal(s: State, t: nat, argv: Argv)
    requires ThreadOf(s, t).pc.Ready? && s.refusal.Some?
    ensures Moved(s, Undisturbed(s, t, argv), t, ThreadOf(s, t), s.spawns,
                  s.refused + [Entry(t, argv.head)], s.log + [Entry(t, argv.head)])
  {
    var th, head, entry := ThreadOf(s, t), argv.head, Entry(t, argv.head);
    var s1 := Step(s, Checks(t, head, true));
    assert Moved(s, s1, t, th.(pc := Refusing(head, s.refusal.value)), s.spawns, s.refused, s.log);
    var s2 := Step(s1, Records(t));
    assert Moved(s, s2, t, th.(pc := Logging(head, s.refusal.value)), s.spawns, s.refused + [entry], s.log);
    assert Moved(s, Step(s2, Logs(t)), t, th, s.spawns, s.refused + [entry], s.log + [entry]);
  }

  /** One whole `refuse_if_closed` on its own, without interference. */
  function UndisturbedCheck(s: State, t: nat, head: string): State {
    var checked := Step(s, Checks(t, head, false));
    if s.refusal.None? then checked else Step(Step(checked, Records(t)), Logs(t))
  }

  /** It changes nothing while the barrier is open, and records and logs one refusal once it is closed. */
  lemma UndisturbedCheckOutcome(s: State, t: nat, head: string)
    requires ThreadOf(s, t).pc.Ready?
    ensures var refusals := if s.refusal.None? then [] else [Entry(t, head)];
            Moved(s, UndisturbedCheck(s, t, head), t, ThreadOf(s, t), s.spawns, s.refused + refusals, s.log + refusals)
    ensures s.refusal.None? ==> UndisturbedCheck(s, t, head) == s.(clock := s.clock + 1)
  {
    var th := ThreadOf(s, t);
    var s1 := Step(s, Checks(t, head, false));
    if s.refusal.None? {
      assert s.refused + [] == s.refused && s.log + [] == s.log;
    } else {
      assert Moved(s, s1, t, th.(pc := Refusing(head, s.refusal.value)), s.spawns, s.refused, s.log);
      var s2 := Step(s1, Records(t));
      assert Moved(s, s2, t, th.(pc := Logging(head, s.refusal.value)), s.spawns, s.refused + [Entry(t, head)], s.log);
    }
  }

  /** `_run` spawns what it is given, unless that writes and its thread is in no admission: then the
      bypass is raised and nothing is spawned. */
  lemma RunSpawnsUnlessBypass(events: seq<Event>, t: nat, argv: Argv)
    requires ThreadOf(Run(events), t).pc.Ready?
    ensures var s, s' := Run(events), Run(events + [Runs(t, argv)]);
            var frames := ThreadOf(s, t).frames;
            var bypasses := argv.writes && frames == [];
            && s'.spawns == s.spawns + (if bypasses then [] else [Spawn(t, argv, frames)])
            && s'.bypasses == s.bypasses + (if bypasses then [Entry(t, argv.head)] else [])
  {
    EveryRunIsGood(events);
    assert ThreadOk(Run(events), ThreadOf(Run(events), t));
    var after := Then(events, Runs(t, argv));
    assert Run(events).spawns + [] == Run(events).spawns && Run(events).bypasses + [] == Run(events).bypasses;
  }

  /** The first closing gives the reason and the time; later ones change nothing. */
  lemma ClosingTakesEffect(events: seq<Event>, reason: Reason)
    ensures var s, s' := Run(events), Run(events + [Closes(reason)]);
            && s'.refusal == (if s.refusal.None? then Some(reason) else s.refusal)
            && s'.closedAt == if s.refusal.None? then Some(|events|) else s.closedAt
  {
    ClockCounts(events);
    var after := Then(events, Closes(reason));
  }

  /** The steps of an undisturbed write do what the method does: spawn inside one more admission and
      come back to the depth before, or record and log one refusal. */
  lemma UndisturbedWrite(s: State, t: nat, argv: Argv)
    requires ThreadOf(s, t).pc.Ready?
    ensures var end, th := Undisturbed(s, t, argv), ThreadOf(s, t);
            && end.refusal == s.refusal && end.bypasses == s.bypasses
            && ThreadOf(end, t) == th
            && (s.refusal.None? ==>
                  && end.spawns == s.spawns + [Spawn(t, argv, th.frames + [Frame(th.depth, s.clock, false)])]
                  && end.refused == s.refused && end.log == s.log)
            && (s.refusal.Some? ==>
                  && end.spawns == s.spawns
                  && end.refused == s.refused + [Entry(t, argv.head)] && end.log == s.log + [Entry(t, argv.head)])
  {
    if s.refusal.None? {
      UndisturbedAdmission(s, t, argv);
    } else {
      UndisturbedRefusal(s, t, argv);
    }
  }

  /** Two threads as given, all others untouched. */
  ghost predicate Looks(s: State, a: nat, b: nat, one: Pc, two: Pc, refused: seq<Entry>, log: seq<Entry>) {
    && s.refusal == Some(DryRun) && s.threads.Keys <= {a, b}
    && ThreadOf(s, a).pc == one && ThreadOf(s, b).pc == two && s.refused == refused && s.log == log
  }

  lemma BothSawClosed(a: nat, b: nat) returns (events: seq<Event>)
    requires a != b
    ensures Looks(Run(events), a, b, Refusing("a", DryRun), Refusing("b", DryRun), [], [])
    ensures OnlyThreads(events, {a, b})
  {
    events := Then([], Closes(DryRun));
    events := Then(events, Checks(a, "a", true));
    assert Looks(Run(events), a, b, Refusing("a", DryRun), Ready, [], []);
    events := Then(events, Checks(b, "b", true));
  }

  /** Both threads saw the barrier closed and are recorded, neither is logged yet. */
  lemma BothRecorded(a: nat, b: nat) returns (events: seq<Event>)
    requires a != b
    ensures Looks(Run(events), a, b, Logging("a", DryRun), Logging("b", DryRun), [Entry(a, "a"), Entry(b, "b")], [])
    ensures OnlyThreads(events, {a, b})
  {
    events := BothSawClosed(a, b);
    events := Then(events, Records(a));
    assert Looks(Run(events), a, b, Logging("a", DryRun), Refusing("b", DryRun), [Entry(a, "a")], []);
    events := Then(events, Records(b));
  }

  /** Across threads the log need not follow the record: recording and logging are two steps. */
  lemma LogOrderMayDiffer(a: nat, b: nat) returns (events: seq<Event>)
    requires a != b
    ensures OnlyThreads(events, {a, b}) && AllReady(Run(events))
    ensures var s := Run(events);
            s.refused == [Entry(a, "a"), Entry(b, "b")] && s.log == [Entry(b, "b"), Entry(a, "a")]
  {
    events := BothRecorded(a, b);
    events := Then(events, Logs(b));
    assert Looks(Run(events), a, b, Logging("a", DryRun), Ready, [Entry(a, "a"), Entry(b, "b")], [Entry(b, "b")]);
    events := Then(events, Logs(a));
    assert Looks(Run(events), a, b, Ready, Ready, [Entry(a, "a"), Entry(b, "b")], [Entry(b, "b"), Entry(a, "a")]);
  }

  // When record and log agree.

  /** No other thread looks at the barrier to write. */
  predicate OnlyThreads(events: seq<Event>, attempting: set<nat>) {
    forall e | e in events && e.Checks? :: e.thread in attempting
  }

  ghost predicate AllReady(s: State) { forall t :: ThreadOf(s, t).pc.Ready? }

  lemma {:induction false} EntriesAreOfCheckers(events: seq<Event>, attempting: set<nat>)
    requires OnlyThreads(events, attempting)
    ensures var s := Run(events);
            && (forall x | x in s.refused :: x.thread in attempting)
            && (forall x | x in s.log :: x.thread in attempting)
            && (forall t | !ThreadOf(s, t).pc.Ready? :: t in attempting)
  {
    if events != [] {
      var front, e := events[..|events| - 1], events[|events| - 1];
      assert forall x | x in front :: x in events;
      EntriesAreOfCheckers(front, attempting);
      assert e in events;
    }
  }

  lemma {:induction false} OfOneThread(entries: seq<Entry>, t: nat)
    requires forall x | x in entries :: x.thread == t
    ensures Of(entries, t) == entries
  {
    if entries != [] {
      var front, last := entries[..|entries| - 1], entries[|entries| - 1];
      OfOneThread(front, t);
      assert last in entries && entries == front + [last];
    }
  }

  /** Every refusal is logged in the order of the record, over all runs of these attempting threads, if
      and only if there are no two of them. */
  lemma LogFollowsRecordIff(attempting: set<nat>)
    ensures (forall events | OnlyThreads(events, attempting) && AllReady(Run(events)) ::
               Run(events).refused == Run(events).log)
            <==> forall a, b | a in attempting && b in attempting :: a == b
  {
    if forall a, b | a in attempting && b in attempting :: a == b {
      forall events | OnlyThreads(events, attempting) && AllReady(Run(events))
        ensures Run(events).refused == Run(events).log
      {
        OneThreadLogsInOrder(events, attempting);
      }
    } else {
      var a, b :| a in attempting && b in attempting && a != b;
      var events := LogOrderMayDiffer(a, b);
    }
  }

  lemma OneThreadLogsInOrder(events: seq<Event>, attempting: set<nat>)
    requires OnlyThreads(events, attempting) && AllReady(Run(events))
    requires forall a, b | a in attempting && b in attempting :: a == b
    ensures Run(events).refused == Run(events).log
  {
    var s := Run(events);
    EntriesAreOfCheckers(events, attempting);
    if s.refused + s.log != [] {
      var t := (s.refused + s.log)[0].thread;
      assert t in attempting;
      OfOneThread(s.refused, t);
      OfOneThread(s.log, t);
      RefusalsAccounted(events, t);
    }
  }

  // What closing leaves open.

  /** No thread has found the barrier open without having left again. */
  ghost predicate NobodyInside(s: State) {
    forall t :: Outside(s, t)
  }

  ghost predicate Outside(s: State, t: nat) { !ThreadOf(s, t).pc.Passed? && ThreadOf(s, t).frames == [] }

  function WritesSpawned(s: State): nat { CountWrites(s.spawns) }

  function CountWrites(spawns: seq<Spawn>): nat {
    if spawns == [] then 0 else CountWrites(spawns[..|spawns| - 1]) + if spawns[|spawns| - 1].argv.writes then 1 else 0
  }

  lemma CountOneMore(spawns: seq<Spawn>, x: Spawn)
    ensures CountWrites(spawns + [x]) == CountWrites(spawns) + if x.argv.writes then 1 else 0
  {
    assert (spawns + [x])[..|spawns|] == spawns;
  }

  lemma ClosedStepStaysOut(s: State, e: Event)
    requires Good(s) && s.refusal.Some? && NobodyInside(s)
    ensures NobodyInside(Step(s, e)) && WritesSpawned(Step(s, e)) == WritesSpawned(s)
    ensures Step(s, e).refusal == s.refusal
  {
    var s' := Step(s, e);
    forall t ensures Outside(s', t) { assert Outside(s, t) && ThreadOk(s, ThreadOf(s, t)); }
    if e.Runs? {
      assert ThreadOk(s, ThreadOf(s, e.thread)) && Outside(s, e.thread);
      CountOneMore(s.spawns, Spawn(e.thread, e.argv, []));
    }
  }

  lemma {:induction false} ClosedStaysOut(events: seq<Event>, more: seq<Event>)
    requires Run(events).refusal.Some? && NobodyInside(Run(events))
    ensures NobodyInside(Run(events + more)) && WritesSpawned(Run(events + more)) == WritesSpawned(Run(events))
    ensures Run(events + more).refusal.Some?
  {
    if more == [] {
      assert events + more == events;
    } else {
      var front, e := more[..|more| - 1], more[|more| - 1];
      ClosedStaysOut(events, front);
      EveryRunIsGood(events + front);
      assert (events + more)[..|events + more| - 1] == events + front;
      ClosedStepStaysOut(Run(events + front), e);
    }
  }

  lemma AdmittedWriteSpawns(events: seq<Event>, t: nat) returns (all: seq<Event>)
    requires ThreadOf(Run(events), t).pc.Ready? && ThreadOf(Run(events), t).frames != []
    ensures all == events + [Runs(t, Argv("", true))] && WritesSpawned(Run(all)) > WritesSpawned(Run(events))
  {
    var s := Run(events);
    EveryRunIsGood(events);
    assert ThreadOk(s, ThreadOf(s, t));
    all := Then(events, Runs(t, Argv("", true)));
    CountOneMore(s.spawns, Spawn(t, Argv("", true), ThreadOf(s, t).frames));
  }

  /** A thread inside at the closing can still spawn a write. */
  lemma InsiderStillWrites(events: seq<Event>, t: nat) returns (more: seq<Event>)
    requires !Outside(Run(events), t)
    requires ThreadOf(Run(events), t).pc.Passed? || ThreadOf(Run(events), t).pc.Ready?
    ensures WritesSpawned(Run(events + more)) > WritesSpawned(Run(events))
  {
    if ThreadOf(Run(events), t).pc.Passed? {
      var entered := Then(events, Enters(t));
      var all := AdmittedWriteSpawns(entered, t);
      more := [Enters(t), Runs(t, Argv("", true))];
      assert events + more == all;
    } else {
      var all := AdmittedWriteSpawns(events, t);
      more := [Runs(t, Argv("", true))];
    }
  }

  /** "Refuse every write from now on": no write is spawned after the closing, whatever follows, if and
      only if at the closing no thread is past an open check or inside an admission. */
  lemma ClosingRefusesEveryWriteIff(events: seq<Event>, reason: Reason)
    requires Run(events).refusal.None?
    ensures (forall more :: WritesSpawned(Run(events + [Closes(reason)] + more)) == WritesSpawned(Run(events)))
            <==> NobodyInside(Run(events))
  {
    var closed := Then(events, Closes(reason));
    var s, s' := Run(events), Run(closed);
    EveryRunIsGood(events);
    assert forall t :: ThreadOf(s', t) == ThreadOf(s, t);
    if NobodyInside(s) {
      assert NobodyInside(s') by { forall t ensures Outside(s', t) { assert Outside(s, t); } }
      forall more ensures WritesSpawned(Run(closed + more)) == WritesSpawned(s) { ClosedStaysOut(closed, more); }
    } else {
      var t :| !Outside(s, t);
      assert ThreadOk(s, ThreadOf(s, t));
      var more := InsiderStillWrites(closed, t);
    }
  }

  // The same for the forges' own writers, which make one run in each admission.

  predicate RunsOnce(s: State, e: Event) {
    e.Runs? ==>
      var frames := ThreadOf(s, e.thread).frames;
      frames != [] ==> !frames[|frames| - 1].spent
  }

  /** From here on every admission has its one run and no other. */
  predicate OneRunEach(s: State, more: seq<Event>)
    decreases |more|
  {
    more != [] ==> RunsOnce(s, more[0]) && OneRunEach(Step(s, more[0]), more[1..])
  }

  /** No thread has found the barrier open without having made its run since. */
  ghost predicate EveryRunMade(s: State) {
    forall t :: RunMade(s, t)
  }

  ghost predicate RunMade(s: State, t: nat) {
    !ThreadOf(s, t).pc.Passed? && forall f | f in ThreadOf(s, t).frames :: f.spent
  }

  lemma MadeStaysMade(s: State, e: Event, t: nat)
    requires Good(s) && s.refusal.Some? && EveryRunMade(s)
    ensures RunMade(Step(s, e), t)
  {
    assert RunMade(s, t) && ThreadOk(s, ThreadOf(s, t));
  }

  lemma MadeRunSpawnsNone(s: State, t: nat, argv: Argv)
    requires Good(s) && EveryRunMade(s) && RunsOnce(s, Runs(t, argv))
    ensures WritesSpawned(Step(s, Runs(t, argv))) == WritesSpawned(s)
  {
    assert ThreadOk(s, ThreadOf(s, t)) && RunMade(s, t);
    CountOneMore(s.spawns, Spawn(t, argv, []));
  }

  lemma ClosedStepSpawnsNone(s: State, e: Event)
    requires Good(s) && s.refusal.Some? && EveryRunMade(s) && RunsOnce(s, e)
    ensures EveryRunMade(Step(s, e)) && WritesSpawned(Step(s, e)) == WritesSpawned(s)
    ensures Step(s, e).refusal == s.refusal
  {
    forall t ensures RunMade(Step(s, e), t) { MadeStaysMade(s, e, t); }
    if e.Runs? { MadeRunSpawnsNone(s, e.thread, e.argv); }
  }

  lemma {:induction false} ClosedSpawnsNone(events: seq<Event>, more: seq<Event>)
    requires Run(events).refusal.Some? && EveryRunMade(Run(events)) && OneRunEach(Run(events), more)
    ensures WritesSpawned(Run(events + more)) == WritesSpawned(Run(events))
    decreases |more|
  {
    if more == [] {
      assert events + more == events;
    } else {
      EveryRunIsGood(events);
      ClosedStepSpawnsNone(Run(events), more[0]);
      var next := Then(events, more[0]);
      ClosedSpawnsNone(next, more[1..]);
      FirstThenRest(events, more);
    }
  }

  lemma FirstThenRest(events: seq<Event>, more: seq<Event>)
    requires more != []
    ensures events + [more[0]] + more[1..] == events + more
  {
  }

  /** A thread with a run to make comes back to that admission and writes. */
  lemma {:induction false} UnspentStillWrites(events: seq<Event>, t: nat) returns (more: seq<Event>)
    requires ThreadOf(Run(events), t).pc.Ready? && !RunMade(Run(events), t)
    ensures OneRunEach(Run(events), more) && WritesSpawned(Run(events + more)) > WritesSpawned(Run(events))
    decreases |ThreadOf(Run(events), t).frames|
  {
    var frames := ThreadOf(Run(events), t).frames;
    if frames[|frames| - 1].spent {
      var left := Then(events, Leaves(t));
      var f :| f in frames && !f.spent;
      assert f in frames[..|frames| - 1];
      var rest := UnspentStillWrites(left, t);
      more := [Leaves(t)] + rest;
      FirstThenRest(events, more);
    } else {
      var all := AdmittedWriteSpawns(events, t);
      more := [Runs(t, Argv("", true))];
    }
  }

  lemma WriterStillWrites(events: seq<Event>, t: nat) returns (more: seq<Event>)
    requires !RunMade(Run(events), t)
    requires ThreadOf(Run(events), t).pc.Passed? || ThreadOf(Run(events), t).pc.Ready?
    ensures OneRunEach(Run(events), more) && WritesSpawned(Run(events + more)) > WritesSpawned(Run(events))
  {
    if ThreadOf(Run(events), t).pc.Passed? {
      var entered := Then(events, Enters(t));
      var frames := ThreadOf(Run(entered), t).frames;
      assert frames[|frames| - 1] in frames;
      var rest := UnspentStillWrites(entered, t);
      more := [Enters(t)] + rest;
      FirstThenRest(events, more);
    } else {
      more := UnspentStillWrites(events, t);
    }
  }

  /** What "refuse every write" means for writers that make one run in each admission: no write of
      theirs is spawned after the closing if and only if no thread then still has such a run to make. */
  lemma ClosingRefusesEveryWriterIff(events: seq<Event>, reason: Reason)
    requires Run(events).refusal.None?
    ensures (forall more | OneRunEach(Run(events + [Closes(reason)]), more) ::
               WritesSpawned(Run(events + [Closes(reason)] + more)) == WritesSpawned(Run(events)))
            <==> EveryRunMade(Run(events))
  {
    var closed := Then(events, Closes(reason));
    var s, s' := Run(events), Run(closed);
    EveryRunIsGood(events);
    assert forall t :: ThreadOf(s', t) == ThreadOf(s, t);
    if EveryRunMade(s) {
      assert EveryRunMade(s') by { forall t ensures RunMade(s', t) { assert RunMade(s, t); } }
      forall more | OneRunEach(s', more) ensures WritesSpawned(Run(closed + more)) == WritesSpawned(s) {
        ClosedSpawnsNone(closed, more);
      }
    } else {
      var t :| !RunMade(s, t);
      assert ThreadOk(s, ThreadOf(s, t)) && !RunMade(s', t);
      var more := WriterStillWrites(closed, t);
    }
  }

  lemma Then(events: seq<Event>, e: Event) returns (more: seq<Event>)
    ensures more == events + [e] && Run(more) == Step(Run(events), e)
  {
    more := events + [e];
    assert more[..|more| - 1] == events;
  }
}
