/** Scoring a recorded run against the labels and planted defects of its corpus (`bench/score.py`).
    A row of counters is a value here; the program updates the same counters in place. */
module Scoring {
  import opened Basics
  import opened Ordering

  datatype Label = IsTrue | IsFalse | Unsure

  datatype Finding = Finding(fingerprint: string, reviewer: Name, severity: Name, file: string,
                             lineStart: int, lineEnd: int, refuted: bool)

  datatype Defect = Defect(file: string, first: int, last: int, severity: Name)

  type Labels = map<string, Option<Label>>

  datatype Case = Case(labels: Labels, planted: seq<Defect>)

  /** The corpus, by case id. */
  type Corpus = map<string, Case>

  datatype CaseRun = CaseRun(id: string, skipped: bool, findings: seq<Finding>)

  const REVIEWERS: seq<Name> := [Name("architect"), Name("sentinel"), Name("tester"), Name("scribe")]
  const SEVERITIES: seq<Name> := [Name("blocker"), Name("major"), Name("minor"), Name("nit")]

  /** The counts behind one table row. */
  datatype Tally = Tally(tp: nat, fp: nat, unsure: nat, unlabelled: nat, correctRefutations: nat,
                         wrongRefutations: nat, planted: nat, found: nat)
  {
    function Labelled(): nat { tp + fp + unsure + correctRefutations + wrongRefutations }

    /** The six finding counters, without the defect counters. */
    function Findings(): Tally { this.(planted := 0, found := 0) }
  }

  const ZERO := Tally(0, 0, 0, 0, 0, 0, 0, 0)
  function Planted(): Tally { Tally(0, 0, 0, 0, 0, 0, 1, 0) }
  function Found(): Tally { Tally(0, 0, 0, 0, 0, 0, 0, 1) }

  function Plus(a: Tally, b: Tally): Tally {
    Tally(a.tp + b.tp, a.fp + b.fp, a.unsure + b.unsure, a.unlabelled + b.unlabelled,
          a.correctRefutations + b.correctRefutations, a.wrongRefutations + b.wrongRefutations,
          a.planted + b.planted, a.found + b.found)
  }

  /** `Tally.add` */
  function Added(t: Tally, given: Option<Label>, refuted: bool): Tally {
    match given
    case None => t.(unlabelled := t.unlabelled + 1)
    case Some(Unsure) => t.(unsure := t.unsure + 1)
    case Some(IsTrue) =>
      if refuted then t.(wrongRefutations := t.wrongRefutations + 1) else t.(tp := t.tp + 1)
    case Some(IsFalse) =>
      if refuted then t.(correctRefutations := t.correctRefutations + 1) else t.(fp := t.fp + 1)
  }

  type Table = map<Name, Tally>

  /** `_row`: the row of a key, fresh when there is none yet. */
  function Row<K(==)>(table: map<K, Tally>, key: K): Tally {
    if key in table then table[key] else ZERO
  }

  /** Add to one row. */
  function Bump<K(==)>(table: map<K, Tally>, key: K, t: Tally): map<K, Tally> {
    table[key := Plus(Row(table, key), t)]
  }

  function BumpAll<K(==)>(table: map<K, Tally>, keys: seq<K>, t: Tally): map<K, Tally> {
    if keys == [] then table else Bump(BumpAll(table, keys[..|keys| - 1], t), keys[|keys| - 1], t)
  }

  function LabelOf(labels: Labels, fingerprint: string): Option<Label> {
    if fingerprint in labels then labels[fingerprint] else None
  }

  predicate Overlaps(f: Finding, d: Defect) {
    && f.file == d.file
    && f.lineStart <= d.last
    && (if f.lineEnd > f.lineStart then f.lineEnd else f.lineStart) >= d.first
  }

  /** `[f for f in findings if not f.refuted and overlaps(f, defect)]` */
  function Posted(findings: seq<Finding>, d: Defect): seq<Finding> {
    if findings == [] then []
    else
      var f := findings[|findings| - 1];
      Posted(findings[..|findings| - 1], d) + if !f.refuted && Overlaps(f, d) then [f] else []
  }

  predicate Confirms(labels: Labels, f: Finding) { LabelOf(labels, f.fingerprint) == Some(IsTrue) }

  predicate Waits(labels: Labels, f: Finding) { LabelOf(labels, f.fingerprint) == None }

  function Confirming(posted: seq<Finding>, labels: Labels): set<Finding> {
    set f | f in posted && Confirms(labels, f)
  }

  /** The defect was found: a posted finding on it is labelled true. */
  predicate IsFound(findings: seq<Finding>, labels: Labels, d: Defect) {
    exists f :: f in Posted(findings, d) && Confirms(labels, f)
  }

  /** Recall waits for labels: nothing confirms the defect and some finding on it has no label. */
  predicate IsPending(findings: seq<Finding>, labels: Labels, d: Defect) {
    !IsFound(findings, labels, d) && exists f :: f in Posted(findings, d) && Waits(labels, f)
  }

  datatype CaseLine = CaseLine(id: string, findings: nat, refuted: nat, planted: nat, located: nat)

  datatype Card = Card(total: Tally, byReviewer: Table, bySeverity: Table, lines: seq<CaseLine>,
                       unlabelled: seq<(string, Finding)>, skipped: nat, located: nat, expected: nat,
                       matched: nat, plantedTotal: nat, pending: nat)

  const BLANK := Card(ZERO, map[], map[], [], [], 0, 0, 0, 0, 0, 0)

  function CountFinding(card: Card, id: string, labels: Labels, f: Finding): Card {
    var given := LabelOf(labels, f.fingerprint);
    card.(total := Added(card.total, given, f.refuted),
          byReviewer := card.byReviewer[f.reviewer := Added(Row(card.byReviewer, f.reviewer), given, f.refuted)],
          bySeverity := card.bySeverity[f.severity := Added(Row(card.bySeverity, f.severity), given, f.refuted)],
          unlabelled := if given.None? then card.unlabelled + [(id, f)] else card.unlabelled)
  }

  function CountFindings(card: Card, id: string, labels: Labels, fs: seq<Finding>): Card {
    if fs == [] then card
    else CountFinding(CountFindings(card, id, labels, fs[..|fs| - 1]), id, labels, fs[|fs| - 1])
  }

  function SortedNames(names: set<Name>): (r: seq<Name>)
    ensures forall x :: x in r <==> x in names
    ensures forall i, j | 0 <= i < j < |r| :: r[i] != r[j]
  {
    NameOrderTotal();
    Sorted(NameOrder(), names)
  }

  /** One defect counter more, in the total, in one severity row and in some reviewers' rows. */
  function CountUnit(card: Card, reviewers: seq<Name>, severity: Name, t: Tally): Card {
    card.(total := Plus(card.total, t),
          bySeverity := Bump(card.bySeverity, severity, t),
          byReviewer := BumpAll(card.byReviewer, reviewers, t))
  }

  /** A defect that can be scored is planted in the total, in its severity row and in every
      known reviewer's row. */
  function CountPlanted(card: Card, known: seq<Name>, severity: Name): Card {
    CountUnit(card, known, severity, Planted())
  }

  /** And, when found, found in the total, its severity row and its finders' rows. */
  function CountFound(card: Card, severity: Name, finders: seq<Name>): Card {
    CountUnit(card, finders, severity, Found())
  }

  /** How a defect fares: waiting on labels, missed, or found by some reviewers. */
  datatype Status = Pending | Missed | FoundBy(reviewers: seq<Name>)

  function StatusOf(findings: seq<Finding>, labels: Labels, d: Defect): Status {
    if IsPending(findings, labels, d) then Pending
    else if IsFound(findings, labels, d) then
      FoundBy(SortedNames(set f | f in Confirming(Posted(findings, d), labels) :: f.reviewer))
    else Missed
  }

  function Meet(card: Card, posted: bool): Card {
    card.(plantedTotal := card.plantedTotal + 1, located := card.located + if posted then 1 else 0)
  }

  function CountStatus(card: Card, known: seq<Name>, posted: bool, severity: Name, status: Status): Card {
    var met := Meet(card, posted);
    match status
    case Pending => met.(pending := met.pending + 1)
    case Missed => CountPlanted(met, known, severity)
    case FoundBy(reviewers) => CountFound(CountPlanted(met, known, severity), severity, reviewers)
  }

  function CountDefect(card: Card, labels: Labels, findings: seq<Finding>, d: Defect): Card {
    CountStatus(card, REVIEWERS, Posted(findings, d) != [], d.severity, StatusOf(findings, labels, d))
  }

  function CountDefects(card: Card, labels: Labels, findings: seq<Finding>, ds: seq<Defect>): Card {
    if ds == [] then card
    else CountDefect(CountDefects(card, labels, findings, ds[..|ds| - 1]), labels, findings, ds[|ds| - 1])
  }

  function LabelsFor(corpus: Corpus, id: string): Labels {
    if id in corpus then corpus[id].labels else map[]
  }

  function PlantedFor(corpus: Corpus, id: string): seq<Defect> {
    if id in corpus then corpus[id].planted else []
  }

  function LabelledPrints(labels: Labels): set<string> {
    set fp | fp in labels && labels[fp].Some?
  }

  function Refuted(fs: seq<Finding>): nat {
    if fs == [] then 0 else Refuted(fs[..|fs| - 1]) + if fs[|fs| - 1].refuted then 1 else 0
  }

  /** The labelled fingerprints of a case, and those of them found again. */
  function Expect(card: Card, labels: Labels, fs: seq<Finding>): Card {
    var prints := LabelledPrints(labels);
    card.(expected := card.expected + |prints|,
          matched := card.matched + |prints * (set f | f in fs :: f.fingerprint)|)
  }

  function LocatedSince(before: Card, after: Card): nat {
    if after.located >= before.located then after.located - before.located else 0
  }

  function CountRun(card: Card, corpus: Corpus, run: CaseRun): Card {
    var labels, planted := LabelsFor(corpus, run.id), PlantedFor(corpus, run.id);
    if run.skipped then
      card.(skipped := card.skipped + 1, lines := card.lines + [CaseLine(run.id, 0, 0, |planted|, 0)])
    else
      var c1 := CountFindings(Expect(card, labels, run.findings), run.id, labels, run.findings);
      var c2 := CountDefects(c1, labels, run.findings, planted);
      c2.(lines := c2.lines + [CaseLine(run.id, |run.findings|, Refuted(run.findings), |planted|,
                                        LocatedSince(c1, c2))])
  }

  function CountRuns(runs: seq<CaseRun>, corpus: Corpus): Card {
    if runs == [] then BLANK else CountRun(CountRuns(runs[..|runs| - 1], corpus), corpus, runs[|runs| - 1])
  }

  /** `_ordered`: a zero row for every known key that has none; the other rows as they are. */
  function Ordered<K(==)>(table: map<K, Tally>, keys: seq<K>): map<K, Tally> {
    if keys == [] then table else Bump(Ordered(table, keys[..|keys| - 1]), keys[|keys| - 1], ZERO)
  }

  function Score(runs: seq<CaseRun>, corpus: Corpus): Card {
    var card := CountRuns(runs, corpus);
    card.(byReviewer := Ordered(card.byReviewer, REVIEWERS), bySeverity := Ordered(card.bySeverity, SEVERITIES))
  }

  // The loops.

  method AddFindings(card: Card, id: string, labels: Labels, fs: seq<Finding>) returns (r: Card)
    ensures r == CountFindings(card, id, labels, fs)
  {
    var total, byReviewer, bySeverity := card.total, card.byReviewer, card.bySeverity;
    var unlabelled := card.unlabelled;
    for i := 0 to |fs|
      invariant CountFindings(card, id, labels, fs[..i])
             == card.(total := total, byReviewer := byReviewer, bySeverity := bySeverity, unlabelled := unlabelled)
    {
      TakeOneMore([], fs, i);
      var f := fs[i];
      var given := LabelOf(labels, f.fingerprint);
      total := Added(total, given, f.refuted);
      byReviewer := byReviewer[f.reviewer := Added(Row(byReviewer, f.reviewer), given, f.refuted)];
      bySeverity := bySeverity[f.severity := Added(Row(bySeverity, f.severity), given, f.refuted)];
      if given.None? {
        unlabelled := unlabelled + [(id, f)];
      }
    }
    TakeAll(fs);
    r := card.(total := total, byReviewer := byReviewer, bySeverity := bySeverity, unlabelled := unlabelled);
  }

  method PostedOn(findings: seq<Finding>, d: Defect) returns (posted: seq<Finding>)
    ensures posted == Posted(findings, d)
  {
    posted := [];
    for i := 0 to |findings|
      invariant posted == Posted(findings[..i], d)
    {
      TakeOneMore([], findings, i);
      if !findings[i].refuted && Overlaps(findings[i], d) {
        posted := posted + [findings[i]];
      }
    }
    TakeAll(findings);
  }

  method BumpEach(table: Table, keys: seq<Name>, t: Tally) returns (r: Table)
    ensures r == BumpAll(table, keys, t)
  {
    r := table;
    for i := 0 to |keys|
      invariant r == BumpAll(table, keys[..i], t)
    {
      TakeOneMore([], keys, i);
      r := r[keys[i] := Plus(Row(r, keys[i]), t)];
    }
    TakeAll(keys);
  }

  method Plant(card: Card, severity: Name) returns (r: Card)
    ensures r == CountPlanted(card, REVIEWERS, severity)
  {
    var byReviewer := BumpEach(card.byReviewer, REVIEWERS, Planted());
    r := card.(total := Plus(card.total, Planted()), bySeverity := Bump(card.bySeverity, severity, Planted()),
               byReviewer := byReviewer);
  }

  method Find(card: Card, severity: Name, finders: seq<Name>) returns (r: Card)
    ensures r == CountFound(card, severity, finders)
  {
    var byReviewer := BumpEach(card.byReviewer, finders, Found());
    r := card.(total := Plus(card.total, Found()), bySeverity := Bump(card.bySeverity, severity, Found()),
               byReviewer := byReviewer);
  }

  lemma StatusCases(findings: seq<Finding>, labels: Labels, d: Defect)
    ensures var posted, status := Posted(findings, d), StatusOf(findings, labels, d);
            var confirming := Confirming(posted, labels);
            && (status == Pending <==> confirming == {} && exists f | f in posted :: Waits(labels, f))
            && (status != Pending && confirming == {} ==> status == Missed)
            && (confirming != {} ==> status == FoundBy(SortedNames(set f | f in confirming :: f.reviewer)))
  {
    var posted := Posted(findings, d);
    var confirming := Confirming(posted, labels);
    if IsFound(findings, labels, d) {
      var f :| f in posted && Confirms(labels, f);
      assert f in confirming;
    }
    if confirming != {} {
      var f :| f in confirming;
      assert IsFound(findings, labels, d);
    }
  }

  method ScoreDefect(card: Card, labels: Labels, findings: seq<Finding>, d: Defect) returns (r: Card)
    ensures r == CountDefect(card, labels, findings, d)
  {
    StatusCases(findings, labels, d);
    ghost var status := StatusOf(findings, labels, d);
    assert CountDefect(card, labels, findings, d)
        == CountStatus(card, REVIEWERS, Posted(findings, d) != [], d.severity, status);
    var posted := PostedOn(findings, d);
    r := Meet(card, posted != []);
    var confirming := Confirming(posted, labels);
    if confirming == {} && exists f | f in posted :: Waits(labels, f) {
      return r.(pending := r.pending + 1);
    }
    r := Plant(r, d.severity);
    if confirming != {} {
      r := Find(r, d.severity, SortedNames(set f | f in confirming :: f.reviewer));
    }
  }

  method ScoreDefects(card: Card, labels: Labels, findings: seq<Finding>, ds: seq<Defect>) returns (r: Card)
    ensures r == CountDefects(card, labels, findings, ds)
  {
    r := card;
    for i := 0 to |ds|
      invariant r == CountDefects(card, labels, findings, ds[..i])
    {
      TakeOneMore([], ds, i);
      r := ScoreDefect(r, labels, findings, ds[i]);
    }
    TakeAll(ds);
  }

  method ScoreResult(runs: seq<CaseRun>, corpus: Corpus) returns (card: Card)
    ensures card == Score(runs, corpus)
  {
    card := BLANK;
    for i := 0 to |runs|
      invariant card == CountRuns(runs[..i], corpus)
    {
      TakeOneMore([], runs, i);
      var run := runs[i];
      var labels, planted := LabelsFor(corpus, run.id), PlantedFor(corpus, run.id);
      if run.skipped {
        card := card.(skipped := card.skipped + 1,
                      lines := card.lines + [CaseLine(run.id, 0, 0, |planted|, 0)]);
        continue;
      }
      var counted := AddFindings(Expect(card, labels, run.findings), run.id, labels, run.findings);
      card := ScoreDefects(counted, labels, run.findings, planted);
      card := card.(lines := card.lines + [CaseLine(run.id, |run.findings|, Refuted(run.findings), |planted|,
                                                    LocatedSince(counted, card))]);
    }
    TakeAll(runs);
    card := card.(byReviewer := Ordered(card.byReviewer, REVIEWERS),
                  bySeverity := Ordered(card.bySeverity, SEVERITIES));
  }
}
