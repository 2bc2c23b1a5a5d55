/** What a scorecard conserves, and how it moves when labels are added (`bench/score.py`). */
module ScoreLaws {
  import opened Basics
  import opened Ordering
  import opened Scoring

  // Sums over a table.

  ghost function Sum<K(!new)>(table: map<K, Tally>): Tally
    decreases |table|
  {
    if table == map[] then ZERO
    else
      var k :| k in table;
      Plus(table[k], Sum(table - {k}))
  }

  lemma PlusLaws(a: Tally, b: Tally, c: Tally)
    ensures Plus(a, Plus(b, c)) == Plus(b, Plus(a, c))
    ensures Plus(Plus(a, b), c) == Plus(Plus(a, c), b) == Plus(a, Plus(b, c))
  {
  }

  lemma PlusZero(a: Tally)
    ensures Plus(a, ZERO) == a == Plus(ZERO, a)
  {
  }

  lemma {:induction false} SumPicks<K(!new)>(table: map<K, Tally>, k: K)
    requires k in table
    ensures Sum(table) == Plus(table[k], Sum(table - {k}))
    decreases |table|
  {
    var p :| p in table && Sum(table) == Plus(table[p], Sum(table - {p}));
    if p != k {
      SumPicks(table - {p}, k);
      SumPicks(table - {k}, p);
      assert table - {p} - {k} == table - {k} - {p};
      PlusLaws(table[p], table[k], Sum(table - {p} - {k}));
    }
  }

  lemma SumWithout<K(!new)>(table: map<K, Tally>, k: K)
    ensures Sum(table) == Plus(Row(table, k), Sum(table - {k}))
  {
    if k in table {
      SumPicks(table, k);
    } else {
      assert table - {k} == table;
      PlusZero(Sum(table));
    }
  }

  lemma BumpElsewhere<K(!new)>(table: map<K, Tally>, k: K, t: Tally)
    ensures k in Bump(table, k, t) && Bump(table, k, t)[k] == Plus(Row(table, k), t)
    ensures Bump(table, k, t) - {k} == table - {k}
  {
  }

  lemma SumBump<K(!new)>(table: map<K, Tally>, k: K, t: Tally)
    ensures Sum(Bump(table, k, t)) == Plus(Sum(table), t)
  {
    BumpElsewhere(table, k, t);
    SumWithout(table, k);
    SumPicks(Bump(table, k, t), k);
    PlusLaws(Row(table, k), t, Sum(table - {k}));
  }

  function Unit(given: Option<Label>, refuted: bool): Tally { Added(ZERO, given, refuted) }

  lemma AddedIsPlus(t: Tally, given: Option<Label>, refuted: bool)
    ensures Added(t, given, refuted) == Plus(t, Unit(given, refuted))
  {
  }

  lemma {:induction false} OrderedKeepsSum<K(!new)>(table: map<K, Tally>, keys: seq<K>)
    ensures Sum(Ordered(table, keys)) == Sum(table)
  {
    if keys != [] {
      OrderedKeepsSum(table, keys[..|keys| - 1]);
      SumBump(Ordered(table, keys[..|keys| - 1]), keys[|keys| - 1], ZERO);
      PlusZero(Sum(table));
    }
  }

  lemma RowOfBump<K(!new)>(table: map<K, Tally>, key: K, t: Tally, k: K)
    ensures Row(Bump(table, key, t), k) == if k == key then Plus(Row(table, key), t) else Row(table, k)
  {
  }

  lemma {:induction false} OrderedKeepsRows<K(!new)>(table: map<K, Tally>, keys: seq<K>, k: K)
    ensures Row(Ordered(table, keys), k) == Row(table, k)
  {
    if keys != [] {
      OrderedKeepsRows(table, keys[..|keys| - 1], k);
      RowOfBump(Ordered(table, keys[..|keys| - 1]), keys[|keys| - 1], ZERO, k);
      PlusZero(Row(table, k));
    }
  }

  function Times(n: nat, t: Tally): Tally {
    if n == 0 then ZERO else Plus(Times(n - 1, t), t)
  }

  lemma {:induction false} BumpAllSum<K(!new)>(table: map<K, Tally>, keys: seq<K>, t: Tally)
    ensures Sum(BumpAll(table, keys, t)) == Plus(Sum(table), Times(|keys|, t))
  {
    if keys == [] {
      PlusZero(Sum(table));
    } else {
      var front := keys[..|keys| - 1];
      BumpAllSum(table, front, t);
      SumBump(BumpAll(table, front, t), keys[|keys| - 1], t);
      PlusLaws(Sum(table), Times(|front|, t), t);
    }
  }

  // Conservation.

  /** Both tables hold exactly what the total holds. */
  ghost predicate Balanced(c: Card) {
    Sum(c.bySeverity) == c.total && Sum(c.byReviewer).Findings() == c.total.Findings()
  }

  lemma FindingsPlus(a: Tally, b: Tally)
    ensures Plus(a, b).Findings() == Plus(a.Findings(), b.Findings())
  {
  }

  lemma CountFindingBalances(c: Card, id: string, labels: Labels, f: Finding)
    requires Balanced(c)
    ensures Balanced(CountFinding(c, id, labels, f))
  {
    var u := Unit(LabelOf(labels, f.fingerprint), f.refuted);
    AddedIsPlus(c.total, LabelOf(labels, f.fingerprint), f.refuted);
    AddedIsPlus(Row(c.byReviewer, f.reviewer), LabelOf(labels, f.fingerprint), f.refuted);
    AddedIsPlus(Row(c.bySeverity, f.severity), LabelOf(labels, f.fingerprint), f.refuted);
    SumBump(c.byReviewer, f.reviewer, u);
    SumBump(c.bySeverity, f.severity, u);
    FindingsPlus(Sum(c.byReviewer), u);
    FindingsPlus(c.total, u);
  }

  lemma {:induction false} CountFindingsBalances(c: Card, id: string, labels: Labels, fs: seq<Finding>)
    requires Balanced(c)
    ensures Balanced(CountFindings(c, id, labels, fs))
  {
    if fs != [] {
      CountFindingsBalances(c, id, labels, fs[..|fs| - 1]);
      CountFindingBalances(CountFindings(c, id, labels, fs[..|fs| - 1]), id, labels, fs[|fs| - 1]);
    }
  }

  lemma {:induction false} TimesCarriesNoFindings(n: nat, t: Tally)
    requires t.Findings() == ZERO
    ensures Times(n, t).Findings() == ZERO
  {
    if n > 0 {
      TimesCarriesNoFindings(n - 1, t);
      FindingsPlus(Times(n - 1, t), t);
    }
  }

  /** Rows raised by a defect counter alone keep the finding counters of the table. */
  lemma DefectCountersBalance(table: Table, keys: seq<Name>, t: Tally)
    requires t.Findings() == ZERO
    ensures Sum(BumpAll(table, keys, t)).Findings() == Sum(table).Findings()
  {
    BumpAllSum(table, keys, t);
    TimesCarriesNoFindings(|keys|, t);
    FindingsPlus(Sum(table), Times(|keys|, t));
    PlusZero(Sum(table).Findings());
  }

  lemma DefectUnitBalances(c: Card, keys: seq<Name>, severity: Name, t: Tally)
    requires Balanced(c) && t.Findings() == ZERO
    ensures Balanced(CountUnit(c, keys, severity, t))
  {
    SumBump(c.bySeverity, severity, t);
    DefectCountersBalance(c.byReviewer, keys, t);
    FindingsPlus(c.total, t);
    PlusZero(c.total.Findings());
  }

  lemma SameTablesBalance(c: Card, c': Card)
    requires Balanced(c) && c'.total == c.total && c'.bySeverity == c.bySeverity && c'.byReviewer == c.byReviewer
    ensures Balanced(c')
  {
  }

  lemma PendingBalances(c: Card, pending: nat)
    requires Balanced(c)
    ensures Balanced(c.(pending := pending))
  {
    SameTablesBalance(c, c.(pending := pending));
  }

  lemma MeetBalances(c: Card, posted: bool)
    requires Balanced(c)
    ensures Balanced(Meet(c, posted))
  {
    SameTablesBalance(c, Meet(c, posted));
  }

  lemma CountStatusBalances(c: Card, known: seq<Name>, posted: bool, severity: Name, status: Status)
    requires Balanced(c)
    ensures Balanced(CountStatus(c, known, posted, severity, status))
  {
    var met := Meet(c, posted);
    MeetBalances(c, posted);
    match status
    case Pending => PendingBalances(met, met.pending + 1);
    case Missed => DefectUnitBalances(met, known, severity, Planted());
    case FoundBy(reviewers) =>
      DefectUnitBalances(met, known, severity, Planted());
      DefectUnitBalances(CountPlanted(met, known, severity), reviewers, severity, Found());
  }

  lemma {:induction false} CountDefectsBalances(c: Card, labels: Labels, findings: seq<Finding>, ds: seq<Defect>)
    requires Balanced(c)
    ensures Balanced(CountDefects(c, labels, findings, ds))
  {
    if ds != [] {
      CountDefectsBalances(c, labels, findings, ds[..|ds| - 1]);
      var d := ds[|ds| - 1];
      CountStatusBalances(CountDefects(c, labels, findings, ds[..|ds| - 1]), REVIEWERS, Posted(findings, d) != [],
                          d.severity, StatusOf(findings, labels, d));
    }
  }

  /** The defect counters agree: every planted defect is scored or pending, what is found was
      located and planted, a severity row finds no more than it plants, and exactly the known
      reviewers' rows carry the planted defects. */
  ghost predicate DefectsAgree(c: Card, known: seq<Name>) {
    && c.total.planted + c.pending == c.plantedTotal
    && c.total.found <= c.total.planted && c.total.found <= c.located
    && |c.unlabelled| == c.total.unlabelled
    && (forall k :: SeverityRowOk(c, k))
    && (forall k :: ReviewerPlantedOk(c, known, k))
    && (forall k :: ReviewerFoundOk(c, k))
  }

  predicate Among<K(==)>(k: K, keys: seq<K>) { k in keys }

  ghost predicate SeverityRowOk(c: Card, k: Name) {
    Row(c.bySeverity, k).found <= Row(c.bySeverity, k).planted
  }

  /** A known reviewer's row carries every planted defect, any other row none. */
  ghost predicate ReviewerPlantedOk(c: Card, known: seq<Name>, k: Name) {
    Row(c.byReviewer, k).planted == if Among(k, known) then c.total.planted else 0
  }

  ghost predicate ReviewerFoundOk(c: Card, k: Name) {
    Row(c.byReviewer, k).found <= c.total.found
  }

  lemma {:induction false} RowOfBumpAll<K(!new)>(table: map<K, Tally>, keys: seq<K>, t: Tally, k: K)
    requires Distinct(keys)
    ensures Row(BumpAll(table, keys, t), k) == if k in keys then Plus(Row(table, k), t) else Row(table, k)
  {
    if keys != [] {
      var front, last := keys[..|keys| - 1], keys[|keys| - 1];
      RowOfBumpAll(table, front, t, k);
      RowOfBump(BumpAll(table, front, t), last, t, k);
      assert keys == front + [last];
      assert last !in front;
      RowOfBumpAll(table, front, t, last);
    }
  }

  lemma CountFindingAgrees(c: Card, known: seq<Name>, id: string, labels: Labels, f: Finding)
    requires DefectsAgree(c, known)
    ensures DefectsAgree(CountFinding(c, id, labels, f), known)
  {
    var c' := CountFinding(c, id, labels, f);
    forall k ensures SeverityRowOk(c', k) { assert SeverityRowOk(c, k); }
    forall k ensures ReviewerPlantedOk(c', known, k) { assert ReviewerPlantedOk(c, known, k); }
    forall k ensures ReviewerFoundOk(c', k) { assert ReviewerFoundOk(c, k); }
  }

  lemma {:induction false} CountFindingsAgrees(c: Card, known: seq<Name>, id: string, labels: Labels, fs: seq<Finding>)
    requires DefectsAgree(c, known)
    ensures DefectsAgree(CountFindings(c, id, labels, fs), known)
  {
    if fs != [] {
      CountFindingsAgrees(c, known, id, labels, fs[..|fs| - 1]);
      CountFindingAgrees(CountFindings(c, id, labels, fs[..|fs| - 1]), known, id, labels, fs[|fs| - 1]);
    }
  }

  lemma SeverityRowsAgree(c: Card, known: seq<Name>, posted: bool, severity: Name, status: Status, k: Name)
    requires SeverityRowOk(c, k)
    ensures SeverityRowOk(CountStatus(c, known, posted, severity, status), k)
  {
    RowOfBump(c.bySeverity, severity, Planted(), k);
    RowOfBump(Bump(c.bySeverity, severity, Planted()), severity, Found(), k);
  }

  lemma ReviewersDistinct()
    ensures Distinct(REVIEWERS)
  {
  }

  /** A scored defect raises the planted counter of the total by one. */
  lemma TotalPlanted(c: Card, known: seq<Name>, posted: bool, severity: Name, status: Status)
    ensures CountStatus(c, known, posted, severity, status).total.planted
         == c.total.planted + if status.Pending? then 0 else 1
  {
  }

  lemma KnownReviewerAgrees(c: Card, known: seq<Name>, posted: bool, severity: Name, status: Status, k: Name)
    requires Distinct(known) && (status.FoundBy? ==> Distinct(status.reviewers)) && Among(k, known)
    ensures Row(CountStatus(c, known, posted, severity, status).byReviewer, k).planted
         == Row(c.byReviewer, k).planted + if status.Pending? then 0 else 1
  {
    PlantedToKnown(c.byReviewer, known, k);
    if status.FoundBy? { FoundKeepsPlanted(BumpAll(c.byReviewer, known, Planted()), status.reviewers, k); }
  }

  lemma UnknownReviewerAgrees(c: Card, known: seq<Name>, posted: bool, severity: Name, status: Status, k: Name)
    requires Distinct(known) && (status.FoundBy? ==> Distinct(status.reviewers))
    requires !Among(k, known) && Row(c.byReviewer, k).planted == 0
    ensures Row(CountStatus(c, known, posted, severity, status).byReviewer, k).planted == 0
  {
    PlantedToKnown(c.byReviewer, known, k);
    if status.FoundBy? { FoundKeepsPlanted(BumpAll(c.byReviewer, known, Planted()), status.reviewers, k); }
  }

  lemma ReviewersPlantedAgree(c: Card, known: seq<Name>, posted: bool, severity: Name, status: Status, k: Name)
    requires Distinct(known) && ReviewerPlantedOk(c, known, k) && (status.FoundBy? ==> Distinct(status.reviewers))
    ensures ReviewerPlantedOk(CountStatus(c, known, posted, severity, status), known, k)
  {
    if Among(k, known) {
      KnownReviewerAgrees(c, known, posted, severity, status, k);
      TotalPlanted(c, known, posted, severity, status);
    } else {
      UnknownReviewerAgrees(c, known, posted, severity, status, k);
    }
  }

  lemma PlantedToKnown<K(!new)>(table: map<K, Tally>, known: seq<K>, k: K)
    requires Distinct(known)
    ensures Row(BumpAll(table, known, Planted()), k).planted == Row(table, k).planted + if Among(k, known) then 1 else 0
  {
    RowOfBumpAll(table, known, Planted(), k);
    if k in known { assert Row(BumpAll(table, known, Planted()), k) == Plus(Row(table, k), Planted()); }
  }

  lemma FoundKeepsPlanted<K(!new)>(table: map<K, Tally>, finders: seq<K>, k: K)
    requires Distinct(finders)
    ensures Row(BumpAll(table, finders, Found()), k).planted == Row(table, k).planted
  {
    RowOfBumpAll(table, finders, Found(), k);
  }

  lemma PlantedKeepsFound<K(!new)>(table: map<K, Tally>, known: seq<K>, k: K)
    requires Distinct(known)
    ensures Row(BumpAll(table, known, Planted()), k).found == Row(table, k).found
  {
    RowOfBumpAll(table, known, Planted(), k);
  }

  lemma FoundOncePerFinder<K(!new)>(table: map<K, Tally>, finders: seq<K>, k: K)
    requires Distinct(finders)
    ensures Row(BumpAll(table, finders, Found()), k).found <= Row(table, k).found + 1
  {
    RowOfBumpAll(table, finders, Found(), k);
  }

  lemma ReviewersFoundAgree(c: Card, known: seq<Name>, posted: bool, severity: Name, status: Status, k: Name)
    requires Distinct(known) && ReviewerFoundOk(c, k) && (status.FoundBy? ==> Distinct(status.reviewers))
    ensures ReviewerFoundOk(CountStatus(c, known, posted, severity, status), k)
  {
    PlantedKeepsFound(c.byReviewer, known, k);
    if status.FoundBy? { FoundOncePerFinder(BumpAll(c.byReviewer, known, Planted()), status.reviewers, k); }
  }

  lemma CountStatusAgrees(c: Card, known: seq<Name>, posted: bool, severity: Name, status: Status)
    requires Distinct(known) && DefectsAgree(c, known) && (status.FoundBy? ==> posted && Distinct(status.reviewers))
    ensures DefectsAgree(CountStatus(c, known, posted, severity, status), known)
  {
    var c' := CountStatus(c, known, posted, severity, status);
    forall k ensures SeverityRowOk(c', k) {
      assert SeverityRowOk(c, k);
      SeverityRowsAgree(c, known, posted, severity, status, k);
    }
    forall k ensures ReviewerPlantedOk(c', known, k) {
      assert ReviewerPlantedOk(c, known, k);
      ReviewersPlantedAgree(c, known, posted, severity, status, k);
    }
    forall k ensures ReviewerFoundOk(c', k) {
      assert ReviewerFoundOk(c, k);
      ReviewersFoundAgree(c, known, posted, severity, status, k);
    }
  }

  lemma StatusIsPosted(findings: seq<Finding>, labels: Labels, d: Defect)
    ensures StatusOf(findings, labels, d).FoundBy? ==>
              Posted(findings, d) != [] && Distinct(StatusOf(findings, labels, d).reviewers)
  {
  }

  lemma {:induction false} CountDefectsAgrees(c: Card, labels: Labels, findings: seq<Finding>, ds: seq<Defect>)
    requires DefectsAgree(c, REVIEWERS)
    ensures DefectsAgree(CountDefects(c, labels, findings, ds), REVIEWERS)
  {
    if ds != [] {
      var d := ds[|ds| - 1];
      CountDefectsAgrees(c, labels, findings, ds[..|ds| - 1]);
      StatusIsPosted(findings, labels, d);
      ReviewersDistinct();
      CountStatusAgrees(CountDefects(c, labels, findings, ds[..|ds| - 1]), REVIEWERS, Posted(findings, d) != [],
                        d.severity, StatusOf(findings, labels, d));
    }
  }

  lemma SameCountersAgree(c: Card, known: seq<Name>, c': Card)
    requires DefectsAgree(c, known) && c'.total == c.total
    requires c'.bySeverity == c.bySeverity && c'.byReviewer == c.byReviewer
    requires c'.plantedTotal == c.plantedTotal && c'.pending == c.pending && c'.located == c.located
    requires c'.unlabelled == c.unlabelled
    ensures DefectsAgree(c', known)
  {
    forall k ensures SeverityRowOk(c', k) { assert SeverityRowOk(c, k); }
    forall k ensures ReviewerPlantedOk(c', known, k) { assert ReviewerPlantedOk(c, known, k); }
    forall k ensures ReviewerFoundOk(c', k) { assert ReviewerFoundOk(c, k); }
  }

  ghost predicate Conserved(c: Card) { Balanced(c) && DefectsAgree(c, REVIEWERS) }

  lemma SameCountersConserve(c: Card, c': Card)
    requires Conserved(c) && c'.total == c.total && c'.bySeverity == c.bySeverity && c'.byReviewer == c.byReviewer
    requires c'.plantedTotal == c.plantedTotal && c'.pending == c.pending && c'.located == c.located
    requires c'.unlabelled == c.unlabelled
    ensures Conserved(c')
  {
    SameTablesBalance(c, c');
    SameCountersAgree(c, REVIEWERS, c');
  }

  lemma CountRunConserves(c: Card, corpus: Corpus, run: CaseRun)
    requires Conserved(c)
    ensures Conserved(CountRun(c, corpus, run))
  {
    var labels, planted := LabelsFor(corpus, run.id), PlantedFor(corpus, run.id);
    if run.skipped {
      SameCountersConserve(c, CountRun(c, corpus, run));
    } else {
      var c0 := Expect(c, labels, run.findings);
      SameCountersConserve(c, c0);
      CountFindingsBalances(c0, run.id, labels, run.findings);
      CountFindingsAgrees(c0, REVIEWERS, run.id, labels, run.findings);
      var c1 := CountFindings(c0, run.id, labels, run.findings);
      CountDefectsBalances(c1, labels, run.findings, planted);
      CountDefectsAgrees(c1, labels, run.findings, planted);
      SameCountersConserve(CountDefects(c1, labels, run.findings, planted), CountRun(c, corpus, run));
    }
  }

  lemma {:induction false} CountRunsConserves(runs: seq<CaseRun>, corpus: Corpus)
    ensures Conserved(CountRuns(runs, corpus))
  {
    if runs == [] {
      assert forall k :: SeverityRowOk(BLANK, k) && ReviewerPlantedOk(BLANK, REVIEWERS, k) && ReviewerFoundOk(BLANK, k);
    } else {
      CountRunsConserves(runs[..|runs| - 1], corpus);
      CountRunConserves(CountRuns(runs[..|runs| - 1], corpus), corpus, runs[|runs| - 1]);
    }
  }

  /** The scorecard conserves: the tables and the total count the same findings and defects, and
      recall never exceeds one, in total and in every severity row. */
  lemma ScoreIsConserved(runs: seq<CaseRun>, corpus: Corpus)
    ensures Conserved(Score(runs, corpus))
  {
    var c, s := CountRuns(runs, corpus), Score(runs, corpus);
    CountRunsConserves(runs, corpus);
    OrderedKeepsSum(c.byReviewer, REVIEWERS);
    OrderedKeepsSum(c.bySeverity, SEVERITIES);
    forall k ensures SeverityRowOk(s, k) {
      assert SeverityRowOk(c, k);
      OrderedKeepsRows(c.bySeverity, SEVERITIES, k);
    }
    forall k ensures ReviewerPlantedOk(s, REVIEWERS, k) && ReviewerFoundOk(s, k) {
      assert ReviewerPlantedOk(c, REVIEWERS, k) && ReviewerFoundOk(c, k);
      OrderedKeepsRows(c.byReviewer, REVIEWERS, k);
    }
  }

  // What a reviewer is credited with.

  /** A finding of the reviewer, not refuted, overlaps the defect and is labelled true. */
  ghost predicate Finds(findings: seq<Finding>, labels: Labels, d: Defect, reviewer: Name) {
    exists f :: f in findings && FindsBy(f, labels, d, reviewer)
  }

  predicate FindsBy(f: Finding, labels: Labels, d: Defect, reviewer: Name) {
    f.reviewer == reviewer && !f.refuted && Overlaps(f, d) && Confirms(labels, f)
  }

  /** How many of the planted defects the reviewer finds. */
  ghost function DefectsFoundBy(labels: Labels, findings: seq<Finding>, ds: seq<Defect>, reviewer: Name): nat {
    if ds == [] then 0
    else
      DefectsFoundBy(labels, findings, ds[..|ds| - 1], reviewer)
      + if Finds(findings, labels, ds[|ds| - 1], reviewer) then 1 else 0
  }

  ghost function FoundInRun(corpus: Corpus, run: CaseRun, reviewer: Name): nat {
    if run.skipped then 0
    else DefectsFoundBy(LabelsFor(corpus, run.id), run.findings, PlantedFor(corpus, run.id), reviewer)
  }

  ghost function FoundInRuns(runs: seq<CaseRun>, corpus: Corpus, reviewer: Name): nat {
    if runs == [] then 0
    else FoundInRuns(runs[..|runs| - 1], corpus, reviewer) + FoundInRun(corpus, runs[|runs| - 1], reviewer)
  }

  lemma {:induction false} PostedIff(findings: seq<Finding>, d: Defect, f: Finding)
    ensures f in Posted(findings, d) <==> f in findings && !f.refuted && Overlaps(f, d)
  {
    if findings != [] {
      var front, last := findings[..|findings| - 1], findings[|findings| - 1];
      PostedIff(front, d, f);
      assert f in findings <==> f in front || f == last;
    }
  }

  predicate Credited(status: Status, k: Name) { status.FoundBy? && Among(k, status.reviewers) }

  lemma StatusNamesFinders(findings: seq<Finding>, labels: Labels, d: Defect, reviewer: Name)
    ensures var status := StatusOf(findings, labels, d);
            Credited(status, reviewer) <==> Finds(findings, labels, d, reviewer)
  {
    StatusCases(findings, labels, d);
    var confirming := Confirming(Posted(findings, d), labels);
    if Finds(findings, labels, d, reviewer) {
      var f :| f in findings && FindsBy(f, labels, d, reviewer);
      PostedIff(findings, d, f);
      assert f in confirming;
    }
    if f :| f in confirming && f.reviewer == reviewer {
      PostedIff(findings, d, f);
      assert FindsBy(f, labels, d, reviewer);
    }
  }

  lemma FinderIsCredited<K(!new)>(table: map<K, Tally>, finders: seq<K>, k: K)
    requires Distinct(finders) && Among(k, finders)
    ensures Row(BumpAll(table, finders, Found()), k).found == Row(table, k).found + 1
  {
    RowOfBumpAll(table, finders, Found(), k);
  }

  lemma OthersAreNot<K(!new)>(table: map<K, Tally>, finders: seq<K>, k: K)
    requires Distinct(finders) && !Among(k, finders)
    ensures Row(BumpAll(table, finders, Found()), k).found == Row(table, k).found
  {
    RowOfBumpAll(table, finders, Found(), k);
  }

  lemma FoundByTable(c: Card, known: seq<Name>, posted: bool, severity: Name, finders: seq<Name>)
    ensures CountStatus(c, known, posted, severity, FoundBy(finders)).byReviewer
         == BumpAll(BumpAll(c.byReviewer, known, Planted()), finders, Found())
  {
  }

  lemma FinderRow<K(!new)>(table: map<K, Tally>, known: seq<K>, finders: seq<K>, k: K)
    requires Distinct(known) && Distinct(finders) && Among(k, finders)
    ensures Row(BumpAll(BumpAll(table, known, Planted()), finders, Found()), k).found == Row(table, k).found + 1
  {
    PlantedKeepsFound(table, known, k);
    FinderIsCredited(BumpAll(table, known, Planted()), finders, k);
  }

  lemma StatusCredits(c: Card, known: seq<Name>, posted: bool, severity: Name, finders: seq<Name>, k: Name)
    requires Distinct(known) && Distinct(finders) && Among(k, finders)
    ensures Row(CountStatus(c, known, posted, severity, FoundBy(finders)).byReviewer, k).found
         == Row(c.byReviewer, k).found + 1
  {
    FoundByTable(c, known, posted, severity, finders);
    FinderRow(c.byReviewer, known, finders, k);
  }

  lemma StatusCreditsNoOther(c: Card, known: seq<Name>, posted: bool, severity: Name, status: Status, k: Name)
    requires Distinct(known) && (status.FoundBy? ==> Distinct(status.reviewers)) && !Credited(status, k)
    ensures Row(CountStatus(c, known, posted, severity, status).byReviewer, k).found == Row(c.byReviewer, k).found
  {
    PlantedKeepsFound(c.byReviewer, known, k);
    if status.FoundBy? { OthersAreNot(BumpAll(c.byReviewer, known, Planted()), status.reviewers, k); }
  }

  lemma {:induction false} DefectsCredit(c: Card, labels: Labels, findings: seq<Finding>, ds: seq<Defect>, k: Name)
    ensures Row(CountDefects(c, labels, findings, ds).byReviewer, k).found
         == Row(c.byReviewer, k).found + DefectsFoundBy(labels, findings, ds, k)
  {
    if ds != [] {
      var front, d := ds[..|ds| - 1], ds[|ds| - 1];
      DefectsCredit(c, labels, findings, front, k);
      ReviewersDistinct();
      StatusNamesFinders(findings, labels, d, k);
      var before, posted := CountDefects(c, labels, findings, front), Posted(findings, d) != [];
      var status := StatusOf(findings, labels, d);
      if Credited(status, k) {
        StatusCredits(before, REVIEWERS, posted, d.severity, status.reviewers, k);
      } else {
        StatusCreditsNoOther(before, REVIEWERS, posted, d.severity, status, k);
      }
    }
  }

  lemma {:induction false} FindingsCreditNobody(c: Card, id: string, labels: Labels, fs: seq<Finding>, k: Name)
    ensures Row(CountFindings(c, id, labels, fs).byReviewer, k).found == Row(c.byReviewer, k).found
  {
    if fs != [] { FindingsCreditNobody(c, id, labels, fs[..|fs| - 1], k); }
  }

  lemma RunCredits(c: Card, corpus: Corpus, run: CaseRun, k: Name)
    ensures Row(CountRun(c, corpus, run).byReviewer, k).found
         == Row(c.byReviewer, k).found + FoundInRun(corpus, run, k)
  {
    if !run.skipped {
      var labels := LabelsFor(corpus, run.id);
      var c0 := Expect(c, labels, run.findings);
      FindingsCreditNobody(c0, run.id, labels, run.findings, k);
      DefectsCredit(CountFindings(c0, run.id, labels, run.findings), labels, run.findings,
                    PlantedFor(corpus, run.id), k);
    }
  }

  /** A reviewer's row counts the planted defects its own true findings hit, each once. */
  lemma {:induction false} RunsCredit(runs: seq<CaseRun>, corpus: Corpus, k: Name)
    ensures Row(CountRuns(runs, corpus).byReviewer, k).found == FoundInRuns(runs, corpus, k)
  {
    if runs != [] {
      var front := runs[..|runs| - 1];
      RunsCredit(front, corpus, k);
      RunCredits(CountRuns(front, corpus), corpus, runs[|runs| - 1], k);
    }
  }

  lemma ReviewerIsCredited(runs: seq<CaseRun>, corpus: Corpus, reviewer: Name)
    ensures Row(Score(runs, corpus).byReviewer, reviewer).found == FoundInRuns(runs, corpus, reviewer)
  {
    RunsCredit(runs, corpus, reviewer);
    OrderedKeepsRows(CountRuns(runs, corpus).byReviewer, REVIEWERS, reviewer);
  }

  /** The reviewer finds a planted defect of some run that was not skipped. */
  ghost predicate FindsSome(runs: seq<CaseRun>, corpus: Corpus, reviewer: Name) {
    exists run, d :: run in runs && !run.skipped && d in PlantedFor(corpus, run.id)
                     && Finds(run.findings, LabelsFor(corpus, run.id), d, reviewer)
  }

  lemma {:induction false} FoundDefectsIff(labels: Labels, findings: seq<Finding>, ds: seq<Defect>, k: Name)
    ensures DefectsFoundBy(labels, findings, ds, k) > 0 <==> exists d :: d in ds && Finds(findings, labels, d, k)
  {
    if ds != [] {
      var front, last := ds[..|ds| - 1], ds[|ds| - 1];
      FoundDefectsIff(labels, findings, front, k);
      assert forall d :: d in ds <==> d in front || d == last;
    }
  }

  lemma {:induction false} FoundRunsIff(runs: seq<CaseRun>, corpus: Corpus, k: Name)
    ensures FoundInRuns(runs, corpus, k) > 0 <==> FindsSome(runs, corpus, k)
  {
    if runs != [] {
      var front, last := runs[..|runs| - 1], runs[|runs| - 1];
      FoundRunsIff(front, corpus, k);
      FoundDefectsIff(LabelsFor(corpus, last.id), last.findings, PlantedFor(corpus, last.id), k);
      assert forall run :: run in runs <==> run in front || run == last;
    }
  }

  /** A reviewer row's recall is a proper ratio if and only if the reviewer is a known one, or no
      finding of theirs is labelled true on a planted defect: an unknown reviewer's row counts finds
      against no planted defect. */
  lemma ReviewerRecallIff(runs: seq<CaseRun>, corpus: Corpus, reviewer: Name)
    ensures var row := Row(Score(runs, corpus).byReviewer, reviewer);
            row.found <= row.planted <==> Among(reviewer, REVIEWERS) || !FindsSome(runs, corpus, reviewer)
  {
    ScoreIsConserved(runs, corpus);
    assert ReviewerPlantedOk(Score(runs, corpus), REVIEWERS, reviewer);
    assert ReviewerFoundOk(Score(runs, corpus), reviewer);
    ReviewerIsCredited(runs, corpus, reviewer);
    FoundRunsIff(runs, corpus, reviewer);
  }

  ghost predicate Exceeds(runs: seq<CaseRun>, corpus: Corpus, reviewer: Name) {
    Row(Score(runs, corpus).byReviewer, reviewer).found > Row(Score(runs, corpus).byReviewer, reviewer).planted
  }

  lemma OutsiderExceeds(runs: seq<CaseRun>, corpus: Corpus, reviewer: Name, run: CaseRun, d: Defect, f: Finding)
    requires !Among(reviewer, REVIEWERS) && run in runs && !run.skipped && d in PlantedFor(corpus, run.id)
    requires f in run.findings && FindsBy(f, LabelsFor(corpus, run.id), d, reviewer)
    ensures Exceeds(runs, corpus, reviewer)
  {
    assert Finds(run.findings, LabelsFor(corpus, run.id), d, reviewer);
    ReviewerRecallIff(runs, corpus, reviewer);
  }

  const DEFECT := Defect("f", 1, 1, Name("major"))
  const CORPUS: Corpus := map["c" := Case(map["p" := Some(IsTrue)], [DEFECT])]

  function StrangerRun(stranger: Name): CaseRun {
    CaseRun("c", false, [Finding("p", stranger, Name("major"), "f", 1, 1, false)])
  }

  /** One defect, found by a reviewer outside the table: one find of none planted. */
  lemma StrangerExceedsRecall(stranger: Name)
    requires !Among(stranger, REVIEWERS)
    ensures Exceeds([StrangerRun(stranger)], CORPUS, stranger)
  {
    var run := StrangerRun(stranger);
    var f := run.findings[0];
    assert LabelsFor(CORPUS, "c") == map["p" := Some(IsTrue)] && PlantedFor(CORPUS, "c") == [DEFECT];
    OutsiderExceeds([run], CORPUS, stranger, run, DEFECT, f);
  }

  // Every finding is counted once.

  function CountedFindings(runs: seq<CaseRun>): nat {
    if runs == [] then 0
    else
      var last := runs[|runs| - 1];
      CountedFindings(runs[..|runs| - 1]) + if last.skipped then 0 else |last.findings|
  }

  function All(t: Tally): nat { t.Labelled() + t.unlabelled }

  lemma {:induction false} FindingsAddUp(c: Card, id: string, labels: Labels, fs: seq<Finding>)
    ensures All(CountFindings(c, id, labels, fs).total) == All(c.total) + |fs|
  {
    if fs != [] { FindingsAddUp(c, id, labels, fs[..|fs| - 1]); }
  }

  lemma BumpsCountNoFindings(a: Tally, t: Tally)
    requires t.Findings() == ZERO
    ensures Plus(a, t).Findings() == a.Findings()
  {
  }

  lemma StatusCountsNoFindings(c: Card, known: seq<Name>, posted: bool, severity: Name, s: Status)
    ensures CountStatus(c, known, posted, severity, s).total.Findings() == c.total.Findings()
  {
    BumpsCountNoFindings(c.total, Planted());
    BumpsCountNoFindings(Plus(c.total, Planted()), Found());
  }

  lemma {:induction false} DefectsCountNoFindings(c: Card, labels: Labels, findings: seq<Finding>, ds: seq<Defect>)
    ensures CountDefects(c, labels, findings, ds).total.Findings() == c.total.Findings()
  {
    if ds != [] {
      var front, d := ds[..|ds| - 1], ds[|ds| - 1];
      DefectsCountNoFindings(c, labels, findings, front);
      StatusCountsNoFindings(CountDefects(c, labels, findings, front), REVIEWERS, Posted(findings, d) != [], d.severity,
                             StatusOf(findings, labels, d));
    }
  }

  lemma {:induction false} RunsAddUp(runs: seq<CaseRun>, corpus: Corpus)
    ensures All(CountRuns(runs, corpus).total) == CountedFindings(runs)
  {
    if runs != [] {
      var front, run := runs[..|runs| - 1], runs[|runs| - 1];
      RunsAddUp(front, corpus);
      if !run.skipped {
        var labels := LabelsFor(corpus, run.id);
        var c0 := Expect(CountRuns(front, corpus), labels, run.findings);
        FindingsAddUp(c0, run.id, labels, run.findings);
        DefectsCountNoFindings(CountFindings(c0, run.id, labels, run.findings), labels, run.findings,
                               PlantedFor(corpus, run.id));
      }
    }
  }

  /** The six finding counters of the total are the findings of the runs that were not skipped. */
  lemma EveryFindingCountedOnce(runs: seq<CaseRun>, corpus: Corpus)
    ensures All(Score(runs, corpus).total) == CountedFindings(runs)
  {
    RunsAddUp(runs, corpus);
  }

  // More labels.

  /** The second labels keep every label of the first; only unlabelled findings may gain one. */
  ghost predicate Extends(labels: Labels, more: Labels) {
    forall fp :: LabelOf(labels, fp).Some? ==> LabelOf(more, fp) == LabelOf(labels, fp)
  }

  ghost predicate CorpusExtends(corpus: Corpus, more: Corpus) {
    forall id :: Extends(LabelsFor(corpus, id), LabelsFor(more, id)) && PlantedFor(corpus, id) == PlantedFor(more, id)
  }

  /** No less found, no more pending, no fewer labelled findings. */
  ghost predicate Improves(c: Card, d: Card) {
    && c.total.found <= d.total.found
    && d.pending <= c.pending
    && c.total.Labelled() <= d.total.Labelled()
  }

  lemma MoreLabelsFindMore(findings: seq<Finding>, labels: Labels, more: Labels, d: Defect)
    requires Extends(labels, more)
    ensures IsFound(findings, labels, d) ==> IsFound(findings, more, d)
    ensures IsPending(findings, more, d) ==> IsPending(findings, labels, d)
  {
    var posted := Posted(findings, d);
    if IsFound(findings, labels, d) {
      var f :| f in posted && Confirms(labels, f);
      assert Confirms(more, f);
    }
    if IsPending(findings, more, d) {
      var f :| f in posted && Waits(more, f);
      assert Waits(labels, f);
    }
  }

  lemma FindingImproves(c: Card, d: Card, id: string, labels: Labels, more: Labels, f: Finding)
    requires Extends(labels, more) && Improves(c, d)
    ensures Improves(CountFinding(c, id, labels, f), CountFinding(d, id, more, f))
  {
    assert LabelOf(labels, f.fingerprint).Some? ==> LabelOf(more, f.fingerprint) == LabelOf(labels, f.fingerprint);
  }

  lemma {:induction false} FindingsImprove(c: Card, d: Card, id: string, labels: Labels, more: Labels, fs: seq<Finding>)
    requires Extends(labels, more) && Improves(c, d)
    ensures Improves(CountFindings(c, id, labels, fs), CountFindings(d, id, more, fs))
  {
    if fs != [] {
      var front := fs[..|fs| - 1];
      FindingsImprove(c, d, id, labels, more, front);
      FindingImproves(CountFindings(c, id, labels, front), CountFindings(d, id, more, front), id, labels, more,
                      fs[|fs| - 1]);
    }
  }

  lemma StatusFound(c: Card, known: seq<Name>, posted: bool, severity: Name, s: Status)
    ensures CountStatus(c, known, posted, severity, s).total.found == c.total.found + if s.FoundBy? then 1 else 0
  {
  }

  lemma StatusPending(c: Card, known: seq<Name>, posted: bool, severity: Name, s: Status)
    ensures CountStatus(c, known, posted, severity, s).pending == c.pending + if s.Pending? then 1 else 0
  {
  }

  lemma StatusLabelled(c: Card, known: seq<Name>, posted: bool, severity: Name, s: Status)
    ensures CountStatus(c, known, posted, severity, s).total.Labelled() == c.total.Labelled()
  {
  }

  lemma StatusImproves(c: Card, d: Card, known: seq<Name>, posted: bool, severity: Name, s: Status, t: Status)
    requires Improves(c, d) && (s.FoundBy? ==> t.FoundBy?) && (t.Pending? ==> s.Pending?)
    ensures Improves(CountStatus(c, known, posted, severity, s), CountStatus(d, known, posted, severity, t))
  {
    var after, after' := CountStatus(c, known, posted, severity, s), CountStatus(d, known, posted, severity, t);
    StatusFound(c, known, posted, severity, s);
    StatusFound(d, known, posted, severity, t);
    assert after.total.found <= after'.total.found;
    StatusPending(c, known, posted, severity, s);
    StatusPending(d, known, posted, severity, t);
    assert after'.pending <= after.pending;
    StatusLabelled(c, known, posted, severity, s);
    StatusLabelled(d, known, posted, severity, t);
  }

  lemma {:induction false} DefectsImprove(c: Card, d: Card, labels: Labels, more: Labels, fs: seq<Finding>,
                                          ds: seq<Defect>)
    requires Extends(labels, more) && Improves(c, d)
    ensures Improves(CountDefects(c, labels, fs, ds), CountDefects(d, more, fs, ds))
  {
    if ds != [] {
      var front, x := ds[..|ds| - 1], ds[|ds| - 1];
      DefectsImprove(c, d, labels, more, fs, front);
      MoreLabelsFindMore(fs, labels, more, x);
      StatusImproves(CountDefects(c, labels, fs, front), CountDefects(d, more, fs, front), REVIEWERS,
                     Posted(fs, x) != [], x.severity, StatusOf(fs, labels, x), StatusOf(fs, more, x));
    }
  }

  lemma {:induction false} RunsImprove(runs: seq<CaseRun>, corpus: Corpus, more: Corpus)
    requires CorpusExtends(corpus, more)
    ensures Improves(CountRuns(runs, corpus), CountRuns(runs, more))
  {
    if runs != [] {
      var front, run := runs[..|runs| - 1], runs[|runs| - 1];
      RunsImprove(front, corpus, more);
      if !run.skipped {
        var labels, wider := LabelsFor(corpus, run.id), LabelsFor(more, run.id);
        var c := Expect(CountRuns(front, corpus), labels, run.findings);
        var d := Expect(CountRuns(front, more), wider, run.findings);
        FindingsImprove(c, d, run.id, labels, wider, run.findings);
        DefectsImprove(CountFindings(c, run.id, labels, run.findings), CountFindings(d, run.id, wider, run.findings),
                       labels, wider, run.findings, PlantedFor(corpus, run.id));
      }
    }
  }

  /** Labelling more of the same run never loses a found defect, never leaves more pending and
      never counts fewer labelled findings. */
  lemma LabellingIsMonotone(runs: seq<CaseRun>, corpus: Corpus, more: Corpus)
    requires CorpusExtends(corpus, more)
    ensures Improves(Score(runs, corpus), Score(runs, more))
  {
    RunsImprove(runs, corpus, more);
  }
}
