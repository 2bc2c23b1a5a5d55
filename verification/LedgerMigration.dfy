/** Moving the ledger (`cli/migrate_cmds.py`, `migrate_ledger`) under the eyes of its readers
    (`core/paths.py`, `resolve_db_path` with no `REPOACH_DB_PATH` set). A migration may die after any
    of its file-system steps. */
module LedgerMigration {
  import opened Basics

  type Table = nat

  type Value = nat

  /** The rows of every user table, in order. */
  type Contents = map<Table, seq<Value>>

  function Rows(c: Contents, t: Table): seq<Value> { if t in c then c[t] else [] }

  /** `_table_counts` */
  function TableCounts(c: Contents): map<Table, nat> { map t | t in c :: |c[t]| }

  /** One more row; the first of a table creates it. */
  function Add(c: Contents, t: Table, v: Value): Contents { c[t := Rows(c, t) + [v]] }

  /** A ledger file read together with its write-ahead file. */
  function Merge(base: Contents, wal: Contents): Contents {
    map t | t in base.Keys + wal.Keys :: Rows(base, t) + Rows(wal, t)
  }

  /** What is at one path. The only symlink ever made points from the legacy path to the default. */
  datatype Node = Absent | File(contents: Contents) | Link

  /** `wal` holds the rows of the legacy ledger still in its `-wal` file; the other two side files
      are there or not. */
  datatype Disk = Disk(legacy: Node, wal: Contents, shm: bool, journal: bool, destination: Node, staging: Node)

  datatype Location = Legacy | Default

  /** `legacy_db_path` and `resolve_db_path`: a regular legacy file wins, a symlink does not. */
  function ResolveDbPath(d: Disk): Location {
    if d.legacy.File? then Legacy else Default
  }

  /** What a process sees that opens the resolved path. */
  function Ledger(d: Disk): Contents {
    match ResolveDbPath(d)
    case Legacy => Merge(d.legacy.contents, d.wal)
    case Default => if d.destination.File? then d.destination.contents else map[]
  }

  /** What the run meets: other holders, the lock, the copy SQLite makes, and after how many
      file-system steps the process dies (never, from `STEPS` on). */
  datatype Circumstance = Circumstance(dryRun: bool, held: bool, locked: bool, copied: Contents,
                                       integrityOk: bool, diesAfter: nat)

  datatype Outcome =
    | NothingToDo | DestinationExists | HeldOpen | WouldMove | CannotLock | CopyFailed | Moved | Died

  const STEPS := 8

  /** `_copy_verified` compares integrity and row counts, table by table. */
  predicate Verified(source: Contents, c: Circumstance) {
    c.integrityOk && TableCounts(c.copied) == TableCounts(source)
  }

  /** The disk after `k` steps of a move: staging opened, staging filled, staging renamed to the
      destination, legacy unlinked, the three side files unlinked, symlink made. */
  function AfterSteps(d: Disk, copied: Contents, k: nat): Disk {
    if k == 0 then d
    else
      var p := AfterSteps(d, copied, k - 1);
      if k == 1 then p.(staging := if p.staging.Absent? then File(map[]) else p.staging)
      else if k == 2 then p.(staging := File(copied))
      else if k == 3 then p.(destination := p.staging, staging := Absent)
      else if k == 4 then p.(legacy := Absent)
      else if k == 5 then p.(wal := map[])
      else if k == 6 then p.(shm := false)
      else if k == 7 then p.(journal := false)
      else if k == 8 then p.(legacy := Link)
      else p
  }

  function Migrate(d: Disk, c: Circumstance): (Disk, Outcome) {
    if !d.legacy.File? then (d, NothingToDo)
    else if !d.destination.Absent? then (d, DestinationExists)
    else if c.held then (d, HeldOpen)
    else if c.dryRun then (d, WouldMove)
    else if c.locked then (d, CannotLock)
    else if c.diesAfter <= 2 then (AfterSteps(d, c.copied, c.diesAfter), Died)
    else if !Verified(Ledger(d), c) then (AfterSteps(d, c.copied, 2).(staging := Absent), CopyFailed)
    else if c.diesAfter < STEPS then (AfterSteps(d, c.copied, c.diesAfter), Died)
    else (AfterSteps(d, c.copied, STEPS), Moved)
  }

  class FileSystem {
    var legacy: Node
    var wal: Contents
    var shm: bool
    var journal: bool
    var destination: Node
    var staging: Node

    function Snapshot(): Disk
      reads this
    {
      Disk(legacy, wal, shm, journal, destination, staging)
    }

    constructor (d: Disk)
      ensures Snapshot() == d
    {
      legacy, wal, shm, journal := d.legacy, d.wal, d.shm, d.journal;
      destination, staging := d.destination, d.staging;
    }

    /** Fill the staging file and verify it, table by table; `None` when the process died on the way. */
    method CopyVerified(source: Contents, c: Circumstance) returns (verified: Option<bool>)
      modifies this`staging
      ensures c.diesAfter <= 2 ==> verified == None && Snapshot() == AfterSteps(old(Snapshot()), c.copied, c.diesAfter)
      ensures c.diesAfter > 2 ==> verified == Some(Verified(source, c))
      ensures c.diesAfter > 2 ==>
                Snapshot() == old(Snapshot()).(staging := if Verified(source, c) then File(c.copied) else Absent)
    {
      StepsAtAGlance(Snapshot(), c.copied);
      if c.diesAfter == 0 { return None; }
      if staging.Absent? {
        staging := File(map[]);
      }
      if c.diesAfter == 1 { return None; }
      staging := File(c.copied);
      if c.diesAfter == 2 { return None; }
      if !c.integrityOk || TableCounts(source) != TableCounts(c.copied) {
        staging := Absent;
        return Some(false);
      }
      verified := Some(true);
    }

    method MigrateLedger(c: Circumstance) returns (outcome: Outcome)
      modifies this
      ensures (Snapshot(), outcome) == Migrate(old(Snapshot()), c)
    {
      StepsAtAGlance(Snapshot(), c.copied);
      if !legacy.File? { return NothingToDo; }
      if !destination.Absent? { return DestinationExists; }
      if c.held { return HeldOpen; }
      if c.dryRun { return WouldMove; }
      if c.locked { return CannotLock; }
      var verified := CopyVerified(Merge(legacy.contents, wal), c);
      if verified.None? { return Died; }
      if !verified.value { return CopyFailed; }
      destination, staging := staging, Absent;
      if c.diesAfter == 3 { return Died; }
      legacy := Absent;
      if c.diesAfter == 4 { return Died; }
      wal := map[];
      if c.diesAfter == 5 { return Died; }
      shm := false;
      if c.diesAfter == 6 { return Died; }
      journal := false;
      if c.diesAfter == 7 { return Died; }
      legacy := Link;
      outcome := Moved;
    }
  }

  lemma StepsAtAGlance(d: Disk, copied: Contents)
    ensures var s := if d.staging.Absent? then File(map[]) else d.staging;
            var gone := Disk(Absent, d.wal, d.shm, d.journal, File(copied), Absent);
            && AfterSteps(d, copied, 1) == d.(staging := s)
            && AfterSteps(d, copied, 2) == d.(staging := File(copied))
            && AfterSteps(d, copied, 3) == d.(destination := File(copied), staging := Absent)
            && AfterSteps(d, copied, 4) == gone
            && AfterSteps(d, copied, 5) == gone.(wal := map[])
            && AfterSteps(d, copied, 6) == gone.(wal := map[], shm := false)
            && AfterSteps(d, copied, 7) == gone.(wal := map[], shm := false, journal := false)
            && AfterSteps(d, copied, 8) == Disk(Link, map[], false, false, File(copied), Absent)
  {
    assert AfterSteps(d, copied, 0) == d;
    var d2, d4, d6 := AfterSteps(d, copied, 2), AfterSteps(d, copied, 4), AfterSteps(d, copied, 6);
    assert AfterSteps(d, copied, 1).staging == if d.staging.Absent? then File(map[]) else d.staging;
    assert AfterSteps(d, copied, 3) == d2.(destination := d2.staging, staging := Absent);
    assert AfterSteps(d, copied, 5) == d4.(wal := map[]);
    assert AfterSteps(d, copied, 7) == d6.(journal := false);
  }

  // One run.

  /** What the readers find: the old ledger until its file is unlinked, the verified copy from then on. */
  lemma ReadersSwitchOnce(d: Disk, c: Circumstance)
    ensures var (after, outcome) := Migrate(d, c);
            Ledger(after) == if outcome == Moved || (outcome == Died && c.diesAfter > 3) then c.copied else Ledger(d)
    ensures var (_, outcome) := Migrate(d, c);
            outcome == Moved || (outcome == Died && c.diesAfter > 3) ==> Verified(Ledger(d), c)
  {
    StepsAtAGlance(d, c.copied);
  }

  /** Whatever the copy, at every step of a run the readers find each table with all its rows, by
      number. */
  lemma MigrationKeepsCounts(d: Disk, c: Circumstance)
    ensures TableCounts(Ledger(Migrate(d, c).0)) == TableCounts(Ledger(d))
  {
    ReadersSwitchOnce(d, c);
  }

  /** SQLite's backup either copies the locked ledger, or its copy does not verify. */
  predicate FaithfulCopy(d: Disk, c: Circumstance) {
    Verified(Ledger(d), c) ==> c.copied == Ledger(d)
  }

  /** With a backup that copies, they find the very ledger. */
  lemma MigrationKeepsLedger(d: Disk, c: Circumstance)
    requires FaithfulCopy(d, c)
    ensures Ledger(Migrate(d, c).0) == Ledger(d)
  {
    ReadersSwitchOnce(d, c);
  }

  /** The copies that get past the verification of an undisturbed run: those with the same tables, each
      with the same number of rows. */
  lemma CopyIsRefusedIff(d: Disk, c: Circumstance)
    requires d.legacy.File? && d.destination.Absent?
    requires !c.held && !c.dryRun && !c.locked && c.integrityOk && c.diesAfter >= STEPS
    ensures Migrate(d, c).1 == (if SameShape(c.copied, Ledger(d)) then Moved else CopyFailed)
  {
    CountsCompareShapes(c.copied, Ledger(d));
  }

  ghost predicate SameShape(a: Contents, b: Contents) {
    a.Keys == b.Keys && forall t | t in a :: |Rows(a, t)| == |Rows(b, t)|
  }

  lemma CountsCompareShapes(a: Contents, b: Contents)
    ensures TableCounts(a) == TableCounts(b) <==> SameShape(a, b)
  {
    var m, n := TableCounts(a), TableCounts(b);
    if m == n {
      assert m.Keys == a.Keys && n.Keys == b.Keys;
      forall t | t in a ensures |Rows(a, t)| == |Rows(b, t)| { assert m[t] == n[t]; }
    }
  }

  ghost predicate NoRows(c: Contents) { forall t | t in c :: c[t] == [] }

  /** The same ledger but for one row. */
  lemma Miscopy(c: Contents, t: Table) returns (other: Contents)
    requires t in c && c[t] != []
    ensures other != c && SameShape(other, c)
  {
    other := c[t := c[t][0 := c[t][0] + 1]];
    assert other[t][0] != c[t][0];
  }

  /** Comparing counts vouches for the move, whatever copy passes, if and only if the ledger holds no
      row at all. */
  lemma VerifiedMovesKeepLedgerIff(d: Disk)
    requires d.legacy.File? && d.destination.Absent?
    ensures (forall c | Migrate(d, c).1 == Moved :: Ledger(Migrate(d, c).0) == Ledger(d)) <==> NoRows(Ledger(d))
  {
    if NoRows(Ledger(d)) {
      forall c | Migrate(d, c).1 == Moved ensures Ledger(Migrate(d, c).0) == Ledger(d) {
        ReadersSwitchOnce(d, c);
        CountsCompareShapes(c.copied, Ledger(d));
        forall t | t in c.copied ensures c.copied[t] == Ledger(d)[t] {
          assert |Rows(c.copied, t)| == |Rows(Ledger(d), t)|;
        }
      }
    } else {
      var t :| t in Ledger(d) && Ledger(d)[t] != [];
      var other := Miscopy(Ledger(d), t);
      var c := Circumstance(false, false, false, other, true, STEPS);
      CopyIsRefusedIff(d, c);
      ReadersSwitchOnce(d, c);
    }
  }

  // When a run moves anything.

  /** A legacy ledger and no destination, nobody else holding it, no dry run, and the lock taken. */
  predicate MayMove(d: Disk, c: Circumstance) {
    d.legacy.File? && d.destination.Absent? && !c.held && !c.dryRun && !c.locked
  }

  /** The first thing in the way, in this order. */
  predicate StopsFor(d: Disk, c: Circumstance, why: Outcome) {
    match why
    case NothingToDo => !d.legacy.File?
    case DestinationExists => d.legacy.File? && !d.destination.Absent?
    case HeldOpen => d.legacy.File? && d.destination.Absent? && c.held
    case WouldMove => d.legacy.File? && d.destination.Absent? && !c.held && c.dryRun
    case CannotLock => d.legacy.File? && d.destination.Absent? && !c.held && !c.dryRun && c.locked
    case _ => false
  }

  /** A run with anything in the way changes nothing and says what is. Any other run moves: it dies
      where it dies, or refuses a copy that is damaged or of another shape, or is through. */
  lemma MovesIff(d: Disk, c: Circumstance)
    ensures var (after, outcome) := Migrate(d, c);
            && (MayMove(d, c) <==> outcome in {Died, CopyFailed, Moved})
            && (!MayMove(d, c) ==> after == d && StopsFor(d, c, outcome))
            && (MayMove(d, c) ==>
                  var goodCopy := c.integrityOk && SameShape(c.copied, Ledger(d));
                  && (outcome == Died <==> c.diesAfter <= 2 || (goodCopy && c.diesAfter < 8))
                  && (outcome == CopyFailed <==> c.diesAfter > 2 && !goodCopy)
                  && (outcome == Moved <==> goodCopy && c.diesAfter >= 8))
  {
    CountsCompareShapes(c.copied, Ledger(d));
  }

  /** What a moving run leaves: staging opened, filled, renamed to the destination, the legacy file
      unlinked, then its three side files one by one, and the link in its place; a refused copy is gone. */
  lemma MoveLeaves(d: Disk, c: Circumstance)
    requires MayMove(d, c)
    ensures var (after, outcome) := Migrate(d, c);
            var copy := File(c.copied);
            match outcome
            case CopyFailed => after == d.(staging := Absent)
            case Moved => after == Disk(Link, map[], false, false, copy, Absent)
            case _ =>
              if c.diesAfter == 0 then after == d
              else if c.diesAfter == 1 then after == d.(staging := if d.staging.Absent? then File(map[]) else d.staging)
              else if c.diesAfter == 2 then after == d.(staging := copy)
              else if c.diesAfter == 3 then after == d.(destination := copy, staging := Absent)
              else after == Disk(Absent, if c.diesAfter >= 5 then map[] else d.wal, d.shm && c.diesAfter < 6,
                                 d.journal && c.diesAfter < 7, copy, Absent)
  {
    StepsAtAGlance(d, c.copied);
  }

  // The run after it.

  /** Nothing stands in the way of the run, and its copy is the ledger. */
  predicate Undisturbed(d: Disk, c: Circumstance) {
    !c.dryRun && !c.held && !c.locked && c.diesAfter >= STEPS && c.integrityOk && c.copied == Ledger(d)
  }

  /** What a crash leaves. Up to the filled staging file a rerun completes the move. Between the rename
      and the unlink every rerun refuses and changes nothing. Later none finds anything to do: the side
      files and the missing symlink stay as they are. After a completed move there is nothing to do. */
  lemma WhatARunLeaves(d: Disk, c: Circumstance, again: Circumstance)
    requires Migrate(d, c).1 == Died || Migrate(d, c).1 == Moved
    ensures var (after, outcome) := Migrate(d, c);
            && (c.diesAfter <= 2 && Undisturbed(after, again) ==>
                  Migrate(after, again) == (Disk(Link, map[], false, false, File(Ledger(d)), Absent), Moved))
            && (c.diesAfter == 3 ==> Migrate(after, again) == (after, DestinationExists))
            && (c.diesAfter > 3 ==> Migrate(after, again) == (after, NothingToDo))
            && (c.diesAfter > 3 ==> after.legacy == if outcome == Moved then Link else Absent)
  {
    StepsAtAGlance(d, c.copied);
    var after := Migrate(d, c).0;
    StepsAtAGlance(after, again.copied);
    if c.diesAfter == 0 { assert after == d; }
  }

  // Many runs, with the ledger in use between them.

  datatype Event =
    | Migrates(c: Circumstance)
    | Writes(table: Table, value: Value)   // a process appends to the ledger it resolves
    | Checkpoints                          // side files are folded into the legacy ledger
    | RemovesDestination                   // the operator follows the refusal's advice

  function Write(d: Disk, t: Table, v: Value): Disk {
    match ResolveDbPath(d)
    case Legacy => d.(wal := Add(d.wal, t, v))
    case Default => d.(destination := File(Add(Ledger(d), t, v)))
  }

  function Step(d: Disk, e: Event): Disk {
    match e
    case Migrates(c) => Migrate(d, c).0
    case Writes(t, v) => Write(d, t, v)
    case Checkpoints => if d.legacy.File? then d.(legacy := File(Merge(d.legacy.contents, d.wal)), wal := map[]) else d
    case RemovesDestination =>
      if d.legacy.File? && !d.destination.Absent? then d.(destination := Absent) else d
  }

  function Run(d: Disk, events: seq<Event>): Disk {
    if events == [] then d else Step(Run(d, events[..|events| - 1]), events[|events| - 1])
  }

  /** The ledger with the rows written during a run, and nothing else done to it. */
  function Appended(c: Contents, events: seq<Event>): Contents {
    if events == [] then c
    else
      var last := events[|events| - 1];
      var before := Appended(c, events[..|events| - 1]);
      if last.Writes? then Add(before, last.table, last.value) else before
  }

  lemma RowsOfMerge(base: Contents, wal: Contents, t: Table)
    ensures Rows(Merge(base, wal), t) == Rows(base, t) + Rows(wal, t)
  {
  }

  lemma AddToWal(base: Contents, wal: Contents, t: Table, v: Value)
    ensures Merge(base, Add(wal, t, v)) == Add(Merge(base, wal), t, v)
  {
    var a, b := Merge(base, Add(wal, t, v)), Add(Merge(base, wal), t, v);
    assert a.Keys == b.Keys;
    forall u | u in a ensures Rows(a, u) == Rows(b, u) {
      RowsOfMerge(base, wal, u);
      RowsOfMerge(base, Add(wal, t, v), u);
      if u == t { Assoc(Rows(base, t), Rows(wal, t), [v]); }
    }
    SameRows(a, b);
  }

  lemma SameRows(a: Contents, b: Contents)
    requires a.Keys == b.Keys && forall t | t in a :: Rows(a, t) == Rows(b, t)
    ensures a == b
  {
    forall t | t in a ensures a[t] == b[t] { assert Rows(a, t) == Rows(b, t); }
  }

  lemma FoldedWal(base: Contents, wal: Contents)
    ensures Merge(Merge(base, wal), map[]) == Merge(base, wal)
  {
    var m := Merge(base, wal);
    forall t | t in m ensures Merge(m, map[])[t] == m[t] { assert m[t] + [] == m[t]; }
  }

  lemma OtherStepsKeepLedger(d: Disk, e: Event)
    requires !e.Migrates?
    ensures Ledger(Step(d, e)) == if e.Writes? then Add(Ledger(d), e.table, e.value) else Ledger(d)
  {
    match e
    case Writes(t, v) => if d.legacy.File? { AddToWal(d.legacy.contents, d.wal, t, v); }
    case Checkpoints => if d.legacy.File? { FoldedWal(d.legacy.contents, d.wal); }
    case _ =>
  }

  lemma AddKeepsShapes(a: Contents, b: Contents, t: Table, v: Value)
    requires TableCounts(a) == TableCounts(b)
    ensures TableCounts(Add(a, t, v)) == TableCounts(Add(b, t, v))
  {
    CountsCompareShapes(a, b);
    CountsCompareShapes(Add(a, t, v), Add(b, t, v));
    assert |Rows(a, t)| == |Rows(b, t)| by { if t in a { assert t in b; } }
  }

  /** Whatever migrations start, die, refuse or complete with whatever copies, in whatever order, and
      whatever is written between them: the resolved ledger has the tables and the numbers of rows of
      the old one and every row written since. */
  lemma {:induction false} NoRowCountIsEverLost(d: Disk, events: seq<Event>)
    ensures TableCounts(Ledger(Run(d, events))) == TableCounts(Appended(Ledger(d), events))
  {
    if events != [] {
      var front, last := events[..|events| - 1], events[|events| - 1];
      NoRowCountIsEverLost(d, front);
      if last.Migrates? {
        MigrationKeepsCounts(Run(d, front), last.c);
      } else {
        OtherStepsKeepLedger(Run(d, front), last);
        if last.Writes? {
          AddKeepsShapes(Ledger(Run(d, front)), Appended(Ledger(d), front), last.table, last.value);
        }
      }
    }
  }

  ghost predicate Faithful(d: Disk, events: seq<Event>) {
    forall i | 0 <= i < |events| && events[i].Migrates? :: FaithfulCopy(Run(d, events[..i]), events[i].c)
  }

  /** With backups that copy, it is the old ledger and every row written since. */
  lemma {:induction false} NoRowIsEverLost(d: Disk, events: seq<Event>)
    requires Faithful(d, events)
    ensures Ledger(Run(d, events)) == Appended(Ledger(d), events)
  {
    if events != [] {
      var front, last := events[..|events| - 1], events[|events| - 1];
      assert forall i | 0 <= i < |front| :: events[..i] == front[..i];
      NoRowIsEverLost(d, front);
      if last.Migrates? {
        MigrationKeepsLedger(Run(d, front), last.c);
      } else {
        OtherStepsKeepLedger(Run(d, front), last);
      }
    }
  }
}
