/** Racing first creation of a SQLite schema (`core/sqlite_schema_init.py`). Other processes only
    add tables; what they do between two statements of this one is an arbitrary `World`. */
module SchemaInit {
  import opened Basics

  const MAX_ATTEMPTS := 5

  /** What happens right before a statement: the tables others committed meanwhile, and whether the
      statement then fails for a reason of its own. */
  datatype Meanwhile = Meanwhile(added: set<string>, fault: bool)

  type World = nat -> Meanwhile

  ghost predicate NoFaults(w: World) { forall t: nat :: !w(t).fault }

  datatype Outcome = Created | LostRace(table: string) | Fault

  /** The database after some statements, the statement counter and how they ended. */
  datatype Attempt = Attempt(db: set<string>, tick: nat, outcome: Outcome)

  function Missing(tables: seq<string>, db: set<string>): seq<string> {
    if tables == [] then []
    else (if tables[0] in db then [] else [tables[0]]) + Missing(tables[1..], db)
  }

  /** The `CREATE TABLE`s of one `create_all`, in order; creating a table that appeared since the
      check fails. */
  function CreateEach(todo: seq<string>, db: set<string>, t: nat, w: World): Attempt {
    if todo == [] then Attempt(db, t, Created)
    else
      var now := db + w(t).added;
      if w(t).fault then Attempt(now, t + 1, Fault)
      else if todo[0] in now then Attempt(now, t + 1, LostRace(todo[0]))
      else CreateEach(todo[1..], now + {todo[0]}, t + 1, w)
  }

  /** `metadata.create_all(engine, checkfirst=True)` */
  function CreateAll(tables: seq<string>, db: set<string>, t: nat, w: World): Attempt {
    var now := db + w(t).added;
    if w(t).fault then Attempt(now, t + 1, Fault) else CreateEach(Missing(tables, now), now, t + 1, w)
  }

  /** How a call ends: it returns, it re-raises with some table absent when inspected, or the inspection
      itself raises. */
  datatype Ending = Returned | Raised(absent: string) | InspectionRaised

  datatype Call = Call(db: set<string>, ending: Ending, lost: seq<string>, faults: nat)

  /** `all(inspector.has_table(name) for name in metadata.tables)`, table by table. */
  function HasEach(tables: seq<string>, db: set<string>, t: nat, w: World): (set<string>, Ending) {
    if tables == [] then (db, Returned)
    else
      var now := db + w(t).added;
      if w(t).fault then (now, InspectionRaised)
      else if tables[0] in now then HasEach(tables[1..], now, t + 1, w)
      else (now, Raised(tables[0]))
  }

  /** `inspect(engine)` connects first. */
  function Inspect(tables: seq<string>, db: set<string>, t: nat, w: World): (set<string>, Ending) {
    var now := db + w(t).added;
    if w(t).fault then (now, InspectionRaised) else HasEach(tables, now, t + 1, w)
  }

  /** The attempts left from `attempt` on, then the final inspection. */
  function Attempts(tables: seq<string>, db: set<string>, t: nat, w: World, attempt: nat): Call
    requires attempt <= MAX_ATTEMPTS
    decreases MAX_ATTEMPTS - attempt
  {
    if attempt == MAX_ATTEMPTS then
      var (now, ending) := Inspect(tables, db, t, w);
      Call(now, ending, [], 0)
    else
      var a := CreateAll(tables, db, t, w);
      match a.outcome
      case Created => Call(a.db, Returned, [], 0)
      case LostRace(table) =>
        var rest := Attempts(tables, a.db, a.tick, w, attempt + 1);
        rest.(lost := [table] + rest.lost)
      case Fault =>
        var rest := Attempts(tables, a.db, a.tick, w, attempt + 1);
        rest.(faults := rest.faults + 1)
  }

  /** The call, preceded by failed attempts. */
  function After(lost: seq<string>, faults: nat, c: Call): Call {
    c.(lost := lost + c.lost, faults := faults + c.faults)
  }

  lemma AttemptStep(tables: seq<string>, db: set<string>, t: nat, w: World, attempt: nat,
                    lost: seq<string>, faults: nat)
    requires attempt < MAX_ATTEMPTS
    ensures var a := CreateAll(tables, db, t, w);
            After(lost, faults, Attempts(tables, db, t, w, attempt))
            == match a.outcome
               case Created => Call(a.db, Returned, lost, faults)
               case LostRace(x) => After(lost + [x], faults, Attempts(tables, a.db, a.tick, w, attempt + 1))
               case Fault => After(lost, faults + 1, Attempts(tables, a.db, a.tick, w, attempt + 1))
  {
    var a := CreateAll(tables, db, t, w);
    if a.outcome.LostRace? {
      Assoc(lost, [a.outcome.table], Attempts(tables, a.db, a.tick, w, attempt + 1).lost);
    }
  }

  // The engine, whose database others change under it.

  class Engine {
    var tables: set<string>
    var tick: nat
    const world: World

    constructor (w: World, existing: set<string>)
      ensures world == w && tables == existing && tick == 0
    {
      world, tables, tick := w, existing, 0;
    }

    /** The others move, then one statement runs; `fault` when it fails on its own account. */
    method Statement() returns (fault: bool)
      modifies this
      ensures tables == old(tables) + world(old(tick)).added && tick == old(tick) + 1
      ensures fault == world(old(tick)).fault
    {
      tables := tables + world(tick).added;
      fault := world(tick).fault;
      tick := tick + 1;
    }

    method CreateAllTables(metadata: seq<string>) returns (outcome: Outcome)
      modifies this
      ensures Attempt(tables, tick, outcome) == CreateAll(metadata, old(tables), old(tick), world)
    {
      var fault := Statement();
      if fault {
        return Fault;
      }
      var todo := Missing(metadata, tables);
      var i := 0;
      while i < |todo|
        invariant 0 <= i <= |todo|
        invariant CreateAll(metadata, old(tables), old(tick), world) == CreateEach(todo[i..], tables, tick, world)
      {
        fault := Statement();
        if fault {
          return Fault;
        }
        if todo[i] in tables {
          return LostRace(todo[i]);
        }
        tables := tables + {todo[i]};
        i := i + 1;
      }
      outcome := Created;
    }

    method AllPresent(metadata: seq<string>) returns (ending: Ending)
      modifies this
      ensures (tables, ending) == Inspect(metadata, old(tables), old(tick), world)
    {
      var fault := Statement();
      if fault {
        return InspectionRaised;
      }
      var i := 0;
      while i < |metadata|
        invariant 0 <= i <= |metadata|
        invariant Inspect(metadata, old(tables), old(tick), world) == HasEach(metadata[i..], tables, tick, world)
      {
        fault := Statement();
        if fault {
          return InspectionRaised;
        }
        if metadata[i] !in tables {
          return Raised(metadata[i]);
        }
        i := i + 1;
      }
      ending := Returned;
    }

    /** `_create_all_with_retries` */
    method EnsureSchemaCreated(metadata: seq<string>)
      returns (ending: Ending, ghost lost: seq<string>, ghost faults: nat)
      modifies this
      ensures Call(tables, ending, lost, faults) == Attempts(metadata, old(tables), old(tick), world, 0)
    {
      lost, faults := [], 0;
      for attempt := 0 to MAX_ATTEMPTS
        invariant Attempts(metadata, old(tables), old(tick), world, 0)
               == After(lost, faults, Attempts(metadata, tables, tick, world, attempt))
      {
        AttemptStep(metadata, tables, tick, world, attempt, lost, faults);
        var outcome := CreateAllTables(metadata);
        match outcome {
          case Created =>
            return Returned, lost, faults;
          case LostRace(table) =>
            lost := lost + [table];
          case Fault =>
            faults := faults + 1;
        }
      }
      ending := AllPresent(metadata);
    }
  }

  // What a call guarantees.

  function Elements(s: seq<string>): set<string> { set x | x in s }

  lemma {:induction false} MissingIsAbsent(tables: seq<string>, db: set<string>)
    ensures forall x :: x in Missing(tables, db) <==> x in tables && x !in db
  {
    if tables != [] { MissingIsAbsent(tables[1..], db); }
  }

  /** Nothing is dropped; success means every table left to create exists; a lost race names a table
      that was missing at the check and exists now. */
  lemma {:induction false} CreateEachOutcome(todo: seq<string>, db: set<string>, t: nat, w: World)
    ensures var a := CreateEach(todo, db, t, w);
            && db <= a.db
            && (a.outcome.Created? ==> Elements(todo) <= a.db)
            && (a.outcome.LostRace? ==> a.outcome.table in todo && a.outcome.table in a.db)
            && (NoFaults(w) ==> !a.outcome.Fault?)
  {
    if todo != [] {
      CreateEachOutcome(todo[1..], db + w(t).added + {todo[0]}, t + 1, w);
    }
  }

  lemma CreateAllOutcome(tables: seq<string>, db: set<string>, t: nat, w: World)
    ensures var a := CreateAll(tables, db, t, w);
            && db <= a.db
            && (a.outcome.Created? ==> Elements(tables) <= a.db)
            && (a.outcome.LostRace? ==> a.outcome.table in tables && a.outcome.table !in db && a.outcome.table in a.db)
            && (NoFaults(w) ==> !a.outcome.Fault?)
  {
    var now := db + w(t).added;
    MissingIsAbsent(tables, now);
    CreateEachOutcome(Missing(tables, now), now, t + 1, w);
  }

  lemma {:induction false} HasEachOutcome(tables: seq<string>, db: set<string>, t: nat, w: World)
    ensures var (now, ending) := HasEach(tables, db, t, w);
            && db <= now
            && (ending.Returned? ==> Elements(tables) <= now)
            && (ending.Raised? ==> ending.absent in tables && ending.absent !in now)
            && (NoFaults(w) ==> !ending.InspectionRaised?)
  {
    if tables != [] { HasEachOutcome(tables[1..], db + w(t).added, t + 1, w); }
  }

  /** A normal return means every table exists. A raise means one was absent when inspected, or that a
      statement of the inspection failed. Each lost race was lost to a different table, one that was not
      there when the call began. */
  lemma {:induction false} CallOutcome(tables: seq<string>, db: set<string>, t: nat, w: World, attempt: nat)
    requires attempt <= MAX_ATTEMPTS
    ensures var c := Attempts(tables, db, t, w, attempt);
            && db <= c.db
            && (c.ending.Returned? ==> Elements(tables) <= c.db)
            && (c.ending.Raised? ==> c.ending.absent in tables && c.ending.absent !in c.db)
            && (c.ending != Returned ==> |c.lost| + c.faults == MAX_ATTEMPTS - attempt)
            && Distinct(c.lost) && Elements(c.lost) <= Elements(tables) * c.db && Elements(c.lost) !! db
            && (NoFaults(w) ==> c.faults == 0 && !c.ending.InspectionRaised?)
    decreases MAX_ATTEMPTS - attempt
  {
    if attempt == MAX_ATTEMPTS {
      HasEachOutcome(tables, db + w(t).added, t + 1, w);
    } else {
      CreateAllOutcome(tables, db, t, w);
      var a := CreateAll(tables, db, t, w);
      if !a.outcome.Created? {
        CallOutcome(tables, a.db, a.tick, w, attempt + 1);
      }
    }
  }

  lemma {:induction false} DistinctCount(s: seq<string>)
    requires Distinct(s)
    ensures |Elements(s)| == |s|
  {
    if s != [] {
      DistinctCount(s[1..]);
      assert Elements(s) == {s[0]} + Elements(s[1..]);
    }
  }

  lemma SubsetOfSameSize(a: set<string>, b: set<string>)
    requires a <= b && |a| >= |b|
    ensures a == b
  {
    assert b == a + (b - a);
  }

  /** When every failure is a lost race, there is an attempt for each table. */
  lemma EnoughAttempts(tables: seq<string>, db: set<string>, t: nat, w: World, attempt: nat)
    requires Distinct(tables) && attempt + |tables| <= MAX_ATTEMPTS && NoFaults(w)
    ensures Attempts(tables, db, t, w, attempt).ending == Returned
  {
    CallOutcome(tables, db, t, w, attempt);
    var c := Attempts(tables, db, t, w, attempt);
    if c.ending.Raised? {
      DistinctCount(tables);
      DistinctCount(c.lost);
      assert c.ending.absent in Elements(tables);
      SubsetOfSameSize(Elements(c.lost), Elements(tables));
    }
  }

  /** So with at most five tables the call returns. */
  lemma FiveTablesConverge(tables: seq<string>, db: set<string>, t: nat, w: World)
    requires Distinct(tables) && |tables| <= MAX_ATTEMPTS && NoFaults(w)
    ensures Attempts(tables, db, t, w, 0).ending == Returned
  {
    EnoughAttempts(tables, db, t, w, 0);
  }

  /** A rival that commits the next missing table right after each of our checks. */
  function OneStepAhead(tables: seq<string>): World {
    (t: nat) => Meanwhile(if t % 2 == 1 && t / 2 < MAX_ATTEMPTS && t / 2 < |tables| then {tables[t / 2]} else {}, false)
  }

  lemma {:induction false} MissingAfter(tables: seq<string>, n: nat)
    requires Distinct(tables) && n < |tables|
    ensures Missing(tables, Elements(tables[..n])) != []
    ensures Missing(tables, Elements(tables[..n]))[0] == tables[n]
  {
    MissingFrom(tables, Elements(tables[..n]), n, 0);
  }

  lemma {:induction false} MissingFrom(tables: seq<string>, db: set<string>, n: nat, i: nat)
    requires Distinct(tables) && i <= n < |tables| && db == Elements(tables[..n])
    ensures Missing(tables[i..], db) != [] && Missing(tables[i..], db)[0] == tables[n]
    decreases n - i
  {
    if i < n {
      MissingFrom(tables, db, n, i + 1);
      assert tables[i..][1..] == tables[i + 1..];
      assert tables[..n][i] == tables[i];
    } else {
      assert tables[n] !in db;
    }
  }

  /** Before the first create statement of the `n`-th attempt another process commits that table. */
  ghost predicate RivalAt(tables: seq<string>, w: World, n: nat)
    requires n < |tables|
  {
    w(2 * n) == Meanwhile({}, false) && w(2 * n + 1) == Meanwhile({tables[n]}, false)
  }

  lemma RivalWinsOnce(tables: seq<string>, w: World, n: nat)
    requires Distinct(tables) && n < |tables| && RivalAt(tables, w, n)
    ensures CreateAll(tables, Elements(tables[..n]), 2 * n, w)
         == Attempt(Elements(tables[..n + 1]), 2 * n + 2, LostRace(tables[n]))
  {
    var db := Elements(tables[..n]);
    MissingAfter(tables, n);
    assert db + {} == db;
    assert db + {tables[n]} == Elements(tables[..n + 1]);
  }

  /** The `i`-th attempt loses a race and takes two statements. */
  ghost predicate LosesAt(tables: seq<string>, w: World, dbs: nat -> set<string>, i: nat) {
    var a := CreateAll(tables, dbs(i), 2 * i, w);
    a.outcome.LostRace? && a.db == dbs(i + 1) && a.tick == 2 * i + 2
  }

  lemma {:induction false} LosesEach(tables: seq<string>, w: World, dbs: nat -> set<string>, n: nat, m: nat)
    requires n <= m <= MAX_ATTEMPTS && forall i: nat | i < m :: LosesAt(tables, w, dbs, i)
    ensures var c, rest := Attempts(tables, dbs(n), 2 * n, w, n), Attempts(tables, dbs(m), 2 * m, w, m);
            c.ending == rest.ending && c.db == rest.db
    decreases m - n
  {
    if n < m {
      assert LosesAt(tables, w, dbs, n);
      LosesEach(tables, w, dbs, n + 1, m);
    }
  }

  /** The first tables, one more for each attempt lost. */
  function FirstOnes(tables: seq<string>): nat -> set<string> {
    (n: nat) => Elements(if n < |tables| then tables[..n] else tables)
  }

  lemma RivalWins(tables: seq<string>, w: World, m: nat)
    requires Distinct(tables) && m <= |tables| && m <= MAX_ATTEMPTS
    requires forall i: nat | i < m :: RivalAt(tables, w, i)
    ensures var c, rest := Attempts(tables, {}, 0, w, 0), Attempts(tables, Elements(tables[..m]), 2 * m, w, m);
            c.ending == rest.ending && c.db == rest.db
  {
    var dbs := FirstOnes(tables);
    forall i: nat | i < m ensures LosesAt(tables, w, dbs, i) {
      RivalWinsOnce(tables, w, i);
      assert tables[..|tables|] == tables;
    }
    assert dbs(0) == {} && dbs(m) == Elements(tables[..m]) by { assert tables[..|tables|] == tables; }
    LosesEach(tables, w, dbs, 0, m);
  }

  lemma RivalWinsEveryTime(tables: seq<string>)
    requires Distinct(tables) && |tables| > MAX_ATTEMPTS
    ensures Attempts(tables, {}, 0, OneStepAhead(tables), 0).ending.Raised?
  {
    RivalWins(tables, OneStepAhead(tables), MAX_ATTEMPTS);
    InspectedTooEarly(tables, Elements(tables[..MAX_ATTEMPTS]), 2 * MAX_ATTEMPTS);
  }

  lemma InspectedTooEarly(tables: seq<string>, db: set<string>, t: nat)
    requires |tables| > MAX_ATTEMPTS && Distinct(tables) && db == Elements(tables[..MAX_ATTEMPTS])
    requires t >= 2 * MAX_ATTEMPTS
    ensures Inspect(tables, db, t, OneStepAhead(tables)).1.Raised?
  {
    assert tables[0..] == tables && OneStepAhead(tables)(t).added == {};
    assert db + {} == db;
    StillAbsent(tables, db, t + 1, 0);
  }

  lemma {:induction false} StillAbsent(tables: seq<string>, db: set<string>, t: nat, i: nat)
    requires |tables| > MAX_ATTEMPTS && Distinct(tables) && db == Elements(tables[..MAX_ATTEMPTS])
    requires i <= MAX_ATTEMPTS && t >= 2 * MAX_ATTEMPTS
    ensures HasEach(tables[i..], db, t, OneStepAhead(tables)).1.Raised?
    decreases MAX_ATTEMPTS - i
  {
    assert OneStepAhead(tables)(t).added == {};
    assert db + {} == db;
    if i < MAX_ATTEMPTS {
      assert tables[..MAX_ATTEMPTS][i] == tables[i];
      assert tables[i..][1..] == tables[i + 1..];
      StillAbsent(tables, db, t + 1, i + 1);
    } else {
      assert tables[MAX_ATTEMPTS] !in db;
    }
  }

  /** "Five comfortably covers" is exact: whatever the races, the call returns if and only if the
      schema has at most five tables. */
  lemma AlwaysConvergesIff(tables: seq<string>)
    requires Distinct(tables)
    ensures (forall w, db, t | NoFaults(w) :: Attempts(tables, db, t, w, 0).ending == Returned)
            <==> |tables| <= 5
  {
    if |tables| <= MAX_ATTEMPTS {
      forall w, db, t | NoFaults(w) ensures Attempts(tables, db, t, w, 0).ending == Returned {
        FiveTablesConverge(tables, db, t, w);
      }
    } else {
      RivalWinsEveryTime(tables);
      assert NoFaults(OneStepAhead(tables));
    }
  }

  // What is added.

  /** The table is one of those asked for, was there, or came from another process. */
  ghost predicate IsAccountedFor(x: string, tables: seq<string>, db: set<string>, t: nat, w: World) {
    x in db || x in tables || Came(x, t, w)
  }

  /** Another process committed it before some statement from the `t`-th on. */
  ghost predicate Came(x: string, t: nat, w: World) { exists u: nat :: CameAt(x, t, w, u) }

  ghost predicate CameAt(x: string, t: nat, w: World, u: nat) { u >= t && x in w(u).added }

  lemma CameLater(x: string, t: nat, later: nat, w: World)
    requires t <= later
    ensures Came(x, later, w) ==> Came(x, t, w)
    ensures x in w(t).added ==> Came(x, t, w)
  {
    if Came(x, later, w) {
      var u: nat :| CameAt(x, later, w, u);
      assert CameAt(x, t, w, u);
    }
    assert x in w(t).added ==> CameAt(x, t, w, t);
  }

  lemma {:induction false} CreateEachAdds(todo: seq<string>, db: set<string>, t: nat, w: World, x: string)
    requires x in CreateEach(todo, db, t, w).db
    ensures IsAccountedFor(x, todo, db, t, w)
  {
    if todo != [] {
      var now := db + w(t).added;
      CameLater(x, t, t + 1, w);
      if !w(t).fault && todo[0] !in now {
        CreateEachAdds(todo[1..], now + {todo[0]}, t + 1, w, x);
      }
    }
  }

  lemma CreateAllAdds(tables: seq<string>, db: set<string>, t: nat, w: World, x: string)
    requires x in CreateAll(tables, db, t, w).db
    ensures IsAccountedFor(x, tables, db, t, w)
  {
    var now := db + w(t).added;
    CameLater(x, t, t + 1, w);
    if !w(t).fault {
      MissingIsAbsent(tables, now);
      CreateEachAdds(Missing(tables, now), now, t + 1, w, x);
    }
  }

  lemma {:induction false} HasEachAdds(tables: seq<string>, db: set<string>, t: nat, w: World, x: string)
    requires x in HasEach(tables, db, t, w).0
    ensures IsAccountedFor(x, [], db, t, w)
  {
    if tables != [] {
      CameLater(x, t, t + 1, w);
      if !w(t).fault && tables[0] in db + w(t).added {
        HasEachAdds(tables[1..], db + w(t).added, t + 1, w, x);
      }
    }
  }

  /** A call creates the tables it is asked for and no others. */
  lemma {:induction false} OnlyDeclaredTablesAreCreated(tables: seq<string>, db: set<string>, t: nat, w: World,
                                                        attempt: nat, x: string)
    requires attempt <= MAX_ATTEMPTS && x in Attempts(tables, db, t, w, attempt).db
    ensures IsAccountedFor(x, tables, db, t, w)
    decreases MAX_ATTEMPTS - attempt
  {
    if attempt == MAX_ATTEMPTS {
      CameLater(x, t, t + 1, w);
      if !w(t).fault {
        HasEachAdds(tables, db + w(t).added, t + 1, w, x);
      }
    } else {
      var a := CreateAll(tables, db, t, w);
      CreateAllTicks(tables, db, t, w);
      if x in a.db { CreateAllAdds(tables, db, t, w, x); }
      if a.outcome != Created {
        OnlyDeclaredTablesAreCreated(tables, a.db, a.tick, w, attempt + 1, x);
        CameLater(x, t, a.tick, w);
      }
    }
  }

  // What a raise means.

  /** No statement fails of its own but these. */
  ghost predicate FaultsIn(w: World, faults: set<nat>) { forall t: nat :: w(t).fault ==> t in faults }

  ghost predicate MeansAbsent(tables: seq<string>, c: Call) {
    c.ending != Returned ==> exists x :: x in tables && x !in c.db
  }

  lemma {:induction false} CreateEachTicks(todo: seq<string>, db: set<string>, t: nat, w: World)
    ensures var a := CreateEach(todo, db, t, w); a.tick >= t && (a.outcome.Fault? ==> a.tick > t && w(a.tick - 1).fault)
  {
    if todo != [] { CreateEachTicks(todo[1..], db + w(t).added + {todo[0]}, t + 1, w); }
  }

  lemma {:induction false} HasEachFault(tables: seq<string>, db: set<string>, t: nat, w: World) returns (u: nat)
    requires HasEach(tables, db, t, w).1.InspectionRaised?
    ensures u >= t && w(u).fault
  {
    if w(t).fault {
      u := t;
    } else {
      u := HasEachFault(tables[1..], db + w(t).added, t + 1, w);
    }
  }

  lemma CreateAllTicks(tables: seq<string>, db: set<string>, t: nat, w: World)
    ensures var a := CreateAll(tables, db, t, w); a.tick > t && (a.outcome.Fault? ==> w(a.tick - 1).fault)
  {
    var now := db + w(t).added;
    CreateEachTicks(Missing(tables, now), now, t + 1, w);
  }

  lemma InspectionUsesFault(tables: seq<string>, db: set<string>, t: nat, w: World, faults: set<nat>)
    requires Inspect(tables, db, t, w).1.InspectionRaised? && forall u: nat | u >= t && w(u).fault :: u in faults
    ensures |faults| >= 1
  {
    var u := t;
    if !w(t).fault { u := HasEachFault(tables, db + w(t).added, t + 1, w); }
    assert u in faults;
  }

  /** Every failed attempt that lost no race, and a failed inspection, is a fault of its own. */
  lemma {:induction false} FaultsUsed(tables: seq<string>, db: set<string>, t: nat, w: World, attempt: nat,
                                      faults: set<nat>)
    requires attempt <= MAX_ATTEMPTS && forall u: nat | u >= t && w(u).fault :: u in faults
    ensures var c := Attempts(tables, db, t, w, attempt);
            |faults| >= c.faults + if c.ending.InspectionRaised? then 1 else 0
    decreases MAX_ATTEMPTS - attempt
  {
    if attempt == MAX_ATTEMPTS {
      if Inspect(tables, db, t, w).1.InspectionRaised? { InspectionUsesFault(tables, db, t, w, faults); }
    } else {
      var a := CreateAll(tables, db, t, w);
      CreateAllTicks(tables, db, t, w);
      if a.outcome.Fault? {
        assert a.tick - 1 in faults;
        FaultsUsed(tables, a.db, a.tick, w, attempt + 1, faults - {a.tick - 1});
      } else if a.outcome.LostRace? {
        FaultsUsed(tables, a.db, a.tick, w, attempt + 1, faults);
      }
    }
  }

  lemma SubsetIsSmaller(a: set<string>, b: set<string>)
    requires a <= b
    ensures |a| <= |b|
  {
    assert b == a + (b - a);
  }

  lemma FewFaultsMeanAbsent(tables: seq<string>, db: set<string>, t: nat, w: World, attempt: nat, faults: set<nat>)
    requires attempt <= MAX_ATTEMPTS && FaultsIn(w, faults)
    requires attempt + |faults| + |tables| <= MAX_ATTEMPTS || faults == {}
    ensures MeansAbsent(tables, Attempts(tables, db, t, w, attempt))
  {
    var c := Attempts(tables, db, t, w, attempt);
    CallOutcome(tables, db, t, w, attempt);
    FaultsUsed(tables, db, t, w, attempt, faults);
    if c.ending.InspectionRaised? {
      DistinctCount(c.lost);
      SubsetIsSmaller(Elements(c.lost), Elements(tables));
      AtMost(tables);
      assert false;
    }
  }

  lemma {:induction false} AtMost(s: seq<string>)
    ensures |Elements(s)| <= |s|
  {
    if s != [] {
      AtMost(s[1..]);
      assert Elements(s) == {s[0]} + Elements(s[1..]);
    }
  }

  function Fewer(a: nat, b: nat): nat { if a < b then a else b }

  /** A rival one step ahead for `m` attempts; then every statement up to the inspection fails, and right
      before that the others commit every table. */
  function CrashAfter(tables: seq<string>, m: nat): World {
    (t: nat) =>
      if t < 2 * m then Meanwhile(if t % 2 == 1 && t / 2 < |tables| then {tables[t / 2]} else {}, false)
      else Meanwhile(if t == m + MAX_ATTEMPTS then Elements(tables) else {}, t <= m + MAX_ATTEMPTS)
  }

  lemma {:induction false} Crashes(tables: seq<string>, db: set<string>, t: nat, w: World, attempt: nat)
    requires attempt <= MAX_ATTEMPTS && forall i: nat | t <= i <= t + MAX_ATTEMPTS - attempt :: w(i).fault
    requires Elements(tables) <= w(t + MAX_ATTEMPTS - attempt).added
    ensures !MeansAbsent(tables, Attempts(tables, db, t, w, attempt))
    decreases MAX_ATTEMPTS - attempt
  {
    if attempt < MAX_ATTEMPTS { Crashes(tables, db + w(t).added, t + 1, w, attempt + 1); }
  }

  /** The `n` statements from the `t`-th on. */
  function Ticks(t: nat, n: nat): (r: set<nat>)
    ensures |r| == n && forall u :: u in r <==> t <= u < t + n
  {
    if n == 0 then {} else Ticks(t, n - 1) + {t + n - 1}
  }

  /** As many races lost as there can be, and a fault for every other attempt and for the inspection:
      the call raises with every table there. */
  lemma RaisesWithEveryTable(tables: seq<string>) returns (w: World, faults: set<nat>)
    requires Distinct(tables)
    ensures |faults| == MAX_ATTEMPTS + 1 - Fewer(|tables|, MAX_ATTEMPTS) && FaultsIn(w, faults)
    ensures !MeansAbsent(tables, Attempts(tables, {}, 0, w, 0))
  {
    var m := Fewer(|tables|, MAX_ATTEMPTS);
    w := CrashAfter(tables, m);
    faults := Ticks(2 * m, MAX_ATTEMPTS + 1 - m);
    RivalWins(tables, w, m);
    Crashes(tables, Elements(tables[..m]), 2 * m, w, m);
  }

  /** A raise is said to mean that a table is still absent: with at most `k` statements failing of their
      own it does, whatever the races, if and only if `k` and the tables together are at most five, or
      there is no such failure. */
  lemma RaiseMeansAbsentIff(tables: seq<string>, k: nat)
    requires Distinct(tables)
    ensures (forall w, db, t, faults | FaultsIn(w, faults) && |faults| <= k ::
               MeansAbsent(tables, Attempts(tables, db, t, w, 0)))
            <==> k == 0 || k + |tables| <= 5
  {
    if k == 0 || k + |tables| <= MAX_ATTEMPTS {
      forall w, db, t, faults | FaultsIn(w, faults) && |faults| <= k
        ensures MeansAbsent(tables, Attempts(tables, db, t, w, 0))
      {
        FewFaultsMeanAbsent(tables, db, t, w, 0, faults);
      }
    } else {
      var w, faults := RaisesWithEveryTable(tables);
    }
  }
}
