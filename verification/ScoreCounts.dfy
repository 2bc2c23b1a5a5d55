/** What each counter of a scorecard counts (`bench/score.py`), said of the findings and defects of the
    runs themselves. */
module ScoreCounts {
  import opened Basics
  import opened Ordering
  import opened ScoreLaws
  import opened Scoring

  // Findings, by label and final status.

  datatype Kind = TruePositive | FalsePositive | InDoubt | Unlabelled | CorrectRefutation | WrongRefutation

  predicate OfKind(kind: Kind, given: Option<Label>, refuted: bool) {
    match kind
    case TruePositive => given == Some(IsTrue) && !refuted
    case FalsePositive => given == Some(IsFalse) && !refuted
    case InDoubt => given == Some(Unsure)
    case Unlabelled => given == None
    case CorrectRefutation => given == Some(IsFalse) && refuted
    case WrongRefutation => given == Some(IsTrue) && refuted
  }

  function Counter(t: Tally, kind: Kind): nat {
    match kind
    case TruePositive => t.tp
    case FalsePositive => t.fp
    case InDoubt => t.unsure
    case Unlabelled => t.unlabelled
    case CorrectRefutation => t.correctRefutations
    case WrongRefutation => t.wrongRefutations
  }

  /** A row of the card: the total, one reviewer's or one severity's. */
  datatype RowKey = Total | OfReviewer(reviewer: Name) | OfSeverity(severity: Name)

  function RowAt(c: Card, key: RowKey): Tally {
    match key
    case Total => c.total
    case OfReviewer(k) => Row(c.byReviewer, k)
    case OfSeverity(k) => Row(c.bySeverity, k)
  }

  predicate Counts(key: RowKey, f: Finding) {
    match key
    case Total => true
    case OfReviewer(k) => f.reviewer == k
    case OfSeverity(k) => f.severity == k
  }

  function FindingsOf(fs: seq<Finding>, labels: Labels, key: RowKey, kind: Kind): nat {
    if fs == [] then 0
    else
      var f := fs[|fs| - 1];
      FindingsOf(fs[..|fs| - 1], labels, key, kind)
      + if Counts(key, f) && OfKind(kind, LabelOf(labels, f.fingerprint), f.refuted) then 1 else 0
  }

  /** The findings of one kind in one row, over the runs that were not skipped. */
  function FindingsIn(runs: seq<CaseRun>, corpus: Corpus, key: RowKey, kind: Kind): nat {
    if runs == [] then 0
    else
      var run := runs[|runs| - 1];
      FindingsIn(runs[..|runs| - 1], corpus, key, kind)
      + if run.skipped then 0 else FindingsOf(run.findings, LabelsFor(corpus, run.id), key, kind)
  }

  lemma AddedCounts(t: Tally, given: Option<Label>, refuted: bool, kind: Kind)
    ensures Counter(Added(t, given, refuted), kind) == Counter(t, kind) + if OfKind(kind, given, refuted) then 1 else 0
  {
  }

  lemma FindingCounts(c: Card, id: string, labels: Labels, f: Finding, key: RowKey, kind: Kind)
    ensures Counter(RowAt(CountFinding(c, id, labels, f), key), kind)
         == Counter(RowAt(c, key), kind)
            + if Counts(key, f) && OfKind(kind, LabelOf(labels, f.fingerprint), f.refuted) then 1 else 0
  {
    AddedCounts(RowAt(c, key), LabelOf(labels, f.fingerprint), f.refuted, kind);
  }

  lemma {:induction false} FindingsCount(c: Card, id: string, labels: Labels, fs: seq<Finding>, key: RowKey, kind: Kind)
    ensures Counter(RowAt(CountFindings(c, id, labels, fs), key), kind)
         == Counter(RowAt(c, key), kind) + FindingsOf(fs, labels, key, kind)
  {
    if fs != [] {
      FindingsCount(c, id, labels, fs[..|fs| - 1], key, kind);
      FindingCounts(CountFindings(c, id, labels, fs[..|fs| - 1]), id, labels, fs[|fs| - 1], key, kind);
    }
  }

  predicate IsDefectUnit(t: Tally) { t == Planted() || t == Found() }

  lemma PlusUnit(a: Tally, t: Tally, kind: Kind)
    requires IsDefectUnit(t)
    ensures Counter(Plus(a, t), kind) == Counter(a, kind)
  {
  }

  lemma BumpKeepsFindings<K(!new)>(table: map<K, Tally>, key: K, t: Tally, k: K, kind: Kind)
    requires IsDefectUnit(t)
    ensures Counter(Row(Bump(table, key, t), k), kind) == Counter(Row(table, k), kind)
  {
    RowOfBump(table, key, t, k);
    PlusUnit(Row(table, k), t, kind);
  }

  lemma BumpAllKeepsFindings<K(!new)>(table: map<K, Tally>, keys: seq<K>, t: Tally, k: K, kind: Kind)
    requires IsDefectUnit(t) && Distinct(keys)
    ensures Counter(Row(BumpAll(table, keys, t), k), kind) == Counter(Row(table, k), kind)
  {
    RowOfBumpAll(table, keys, t, k);
    PlusUnit(Row(table, k), t, kind);
  }

  /** A defect counter leaves the finding counters of every row alone. */
  lemma UnitKeepsFindings(c: Card, reviewers: seq<Name>, severity: Name, t: Tally, key: RowKey, kind: Kind)
    requires IsDefectUnit(t) && Distinct(reviewers)
    ensures Counter(RowAt(CountUnit(c, reviewers, severity, t), key), kind) == Counter(RowAt(c, key), kind)
  {
    match key
    case Total => PlusUnit(c.total, t, kind);
    case OfReviewer(k) => BumpAllKeepsFindings(c.byReviewer, reviewers, t, k, kind);
    case OfSeverity(k) => BumpKeepsFindings(c.bySeverity, severity, t, k, kind);
  }

  lemma StatusKeepsFindings(c: Card, known: seq<Name>, posted: bool, severity: Name, status: Status,
                            key: RowKey, kind: Kind)
    requires Distinct(known) && (status.FoundBy? ==> Distinct(status.reviewers))
    ensures Counter(RowAt(CountStatus(c, known, posted, severity, status), key), kind) == Counter(RowAt(c, key), kind)
  {
    var met := Meet(c, posted);
    UnitKeepsFindings(met, known, severity, Planted(), key, kind);
    if status.FoundBy? {
      UnitKeepsFindings(CountPlanted(met, known, severity), status.reviewers, severity, Found(), key, kind);
    }
  }

  lemma {:induction false} DefectsKeepFindings(c: Card, labels: Labels, findings: seq<Finding>, ds: seq<Defect>,
                                               key: RowKey, kind: Kind)
    ensures Counter(RowAt(CountDefects(c, labels, findings, ds), key), kind) == Counter(RowAt(c, key), kind)
  {
    if ds != [] {
      var front, d := ds[..|ds| - 1], ds[|ds| - 1];
      DefectsKeepFindings(c, labels, findings, front, key, kind);
      ReviewersDistinct();
      StatusIsPosted(findings, labels, d);
      StatusKeepsFindings(CountDefects(c, labels, findings, front), REVIEWERS, Posted(findings, d) != [], d.severity,
                          StatusOf(findings, labels, d), key, kind);
    }
  }

  lemma RunCounts(c: Card, corpus: Corpus, run: CaseRun, key: RowKey, kind: Kind)
    ensures Counter(RowAt(CountRun(c, corpus, run), key), kind)
         == Counter(RowAt(c, key), kind)
            + if run.skipped then 0 else FindingsOf(run.findings, LabelsFor(corpus, run.id), key, kind)
  {
    if !run.skipped {
      var labels := LabelsFor(corpus, run.id);
      var met := Expect(c, labels, run.findings);
      FindingsCount(met, run.id, labels, run.findings, key, kind);
      DefectsKeepFindings(CountFindings(met, run.id, labels, run.findings), labels, run.findings,
                          PlantedFor(corpus, run.id), key, kind);
    }
  }

  lemma {:induction false} RunsCount(runs: seq<CaseRun>, corpus: Corpus, key: RowKey, kind: Kind)
    ensures Counter(RowAt(CountRuns(runs, corpus), key), kind) == FindingsIn(runs, corpus, key, kind)
  {
    if runs != [] {
      RunsCount(runs[..|runs| - 1], corpus, key, kind);
      RunCounts(CountRuns(runs[..|runs| - 1], corpus), corpus, runs[|runs| - 1], key, kind);
    }
  }

  /** Completing the tables changes nothing else. */
  lemma ScoreIsCompleted(runs: seq<CaseRun>, corpus: Corpus)
    ensures var c, s := CountRuns(runs, corpus), Score(runs, corpus);
            && s.total == c.total && s.lines == c.lines && s.unlabelled == c.unlabelled && s.skipped == c.skipped
            && s.located == c.located && s.expected == c.expected && s.matched == c.matched
            && s.plantedTotal == c.plantedTotal && s.pending == c.pending
  {
  }

  lemma OrderedKeepsRow(runs: seq<CaseRun>, corpus: Corpus, key: RowKey)
    ensures RowAt(Score(runs, corpus), key) == RowAt(CountRuns(runs, corpus), key)
  {
    var c := CountRuns(runs, corpus);
    match key
    case Total =>
    case OfReviewer(k) => OrderedKeepsRows(c.byReviewer, REVIEWERS, k);
    case OfSeverity(k) => OrderedKeepsRows(c.bySeverity, SEVERITIES, k);
  }

  /** In the total, in every reviewer's row and in every severity's, each of the six counters is the
      number of the findings there with that label and that final status. */
  lemma FindingCountersAreExact(runs: seq<CaseRun>, corpus: Corpus, key: RowKey, kind: Kind)
    ensures Counter(RowAt(Score(runs, corpus), key), kind) == FindingsIn(runs, corpus, key, kind)
  {
    RunsCount(runs, corpus, key, kind);
    OrderedKeepsRow(runs, corpus, key);
  }

  lemma {:induction false} OrderedHasKeys<K(!new)>(table: map<K, Tally>, keys: seq<K>, k: K)
    ensures k in Ordered(table, keys) <==> k in table || k in keys
  {
    if keys != [] {
      OrderedHasKeys(table, keys[..|keys| - 1], k);
      assert k in keys <==> k in keys[..|keys| - 1] || k == keys[|keys| - 1];
    }
  }

  /** Every known reviewer and every known severity has a row, counted or not. */
  lemma KnownRowsAreThere(runs: seq<CaseRun>, corpus: Corpus, k: Name)
    ensures k.text in ["architect", "sentinel", "tester", "scribe"] ==> k in Score(runs, corpus).byReviewer
    ensures k.text in ["blocker", "major", "minor", "nit"] ==> k in Score(runs, corpus).bySeverity
  {
    var c := CountRuns(runs, corpus);
    OrderedHasKeys(c.byReviewer, REVIEWERS, k);
    OrderedHasKeys(c.bySeverity, SEVERITIES, k);
  }

  // Planted defects, by how they fare.

  /** The finding was posted on the defect's file, over one of its lines. */
  predicate SharesALine(f: Finding, d: Defect, line: int) {
    && f.file == d.file && d.first <= line <= d.last
    && f.lineStart <= line && (line <= f.lineStart || line <= f.lineEnd)
  }

  /** A finding overlaps a defect whose range is not empty when they have a line in common. */
  lemma OverlapsIff(f: Finding, d: Defect)
    requires d.first <= d.last
    ensures Overlaps(f, d) <==> exists line :: SharesALine(f, d, line)
  {
    if Overlaps(f, d) {
      assert SharesALine(f, d, if f.lineStart >= d.first then f.lineStart else d.first);
    }
  }

  predicate StandsOn(f: Finding, d: Defect) { !f.refuted && Overlaps(f, d) }

  ghost predicate IsLocated(fs: seq<Finding>, d: Defect) { exists f :: f in fs && StandsOn(f, d) }

  ghost predicate IsConfirmed(fs: seq<Finding>, labels: Labels, d: Defect) {
    exists f :: f in fs && StandsOn(f, d) && LabelOf(labels, f.fingerprint) == Some(IsTrue)
  }

  /** Nothing confirms the defect yet, and a finding on it has no label. */
  ghost predicate IsAwaited(fs: seq<Finding>, labels: Labels, d: Defect) {
    !IsConfirmed(fs, labels, d) && exists f :: f in fs && StandsOn(f, d) && LabelOf(labels, f.fingerprint) == None
  }

  datatype Fate = Any | Located | Awaited | Scored | Confirmed

  ghost predicate Fares(fs: seq<Finding>, labels: Labels, d: Defect, fate: Fate) {
    match fate
    case Any => true
    case Located => IsLocated(fs, d)
    case Awaited => IsAwaited(fs, labels, d)
    case Scored => !IsAwaited(fs, labels, d)
    case Confirmed => IsConfirmed(fs, labels, d)
  }

  /** The defect is one of a severity, when one is given. */
  predicate Weighs(d: Defect, severity: Option<Name>) { severity.Some? ==> d.severity == severity.value }

  ghost function DefectsOf(fs: seq<Finding>, labels: Labels, ds: seq<Defect>, fate: Fate, severity: Option<Name>): nat {
    if ds == [] then 0
    else
      var d := ds[|ds| - 1];
      DefectsOf(fs, labels, ds[..|ds| - 1], fate, severity)
      + if Weighs(d, severity) && Fares(fs, labels, d, fate) then 1 else 0
  }

  ghost function DefectsInRun(run: CaseRun, corpus: Corpus, fate: Fate, severity: Option<Name>): nat {
    if run.skipped then 0
    else DefectsOf(run.findings, LabelsFor(corpus, run.id), PlantedFor(corpus, run.id), fate, severity)
  }

  /** The planted defects that fare so, over the runs that were not skipped. */
  ghost function DefectsIn(runs: seq<CaseRun>, corpus: Corpus, fate: Fate, severity: Option<Name>): nat {
    if runs == [] then 0
    else
      DefectsIn(runs[..|runs| - 1], corpus, fate, severity) + DefectsInRun(runs[|runs| - 1], corpus, fate, severity)
  }

  /** The counter of the card that counts defects of this fate, of one severity or of all. */
  function DefectCounter(c: Card, fate: Fate, severity: Option<Name>): nat
    requires severity.Some? ==> fate.Scored? || fate.Confirmed?
  {
    match fate
    case Any => c.plantedTotal
    case Located => c.located
    case Awaited => c.pending
    case Scored => if severity.Some? then Row(c.bySeverity, severity.value).planted else c.total.planted
    case Confirmed => if severity.Some? then Row(c.bySeverity, severity.value).found else c.total.found
  }

  lemma StatusIsFate(fs: seq<Finding>, labels: Labels, d: Defect)
    ensures Posted(fs, d) != [] <==> IsLocated(fs, d)
    ensures StatusOf(fs, labels, d).FoundBy? <==> IsConfirmed(fs, labels, d)
    ensures StatusOf(fs, labels, d).Pending? <==> IsAwaited(fs, labels, d)
  {
    var posted := Posted(fs, d);
    forall f ensures f in posted <==> f in fs && StandsOn(f, d) { PostedIff(fs, d, f); }
    if posted != [] { assert posted[0] in posted; }
    assert IsFound(fs, labels, d) <==> IsConfirmed(fs, labels, d) by {
      if IsFound(fs, labels, d) { var f :| f in posted && Confirms(labels, f); }
      if IsConfirmed(fs, labels, d) {
        var f :| f in fs && StandsOn(f, d) && LabelOf(labels, f.fingerprint) == Some(IsTrue);
        assert f in posted && Confirms(labels, f);
      }
    }
    assert IsPending(fs, labels, d) <==> IsAwaited(fs, labels, d) by {
      if IsPending(fs, labels, d) { var f :| f in posted && Waits(labels, f); }
      if IsAwaited(fs, labels, d) {
        var f :| f in fs && StandsOn(f, d) && LabelOf(labels, f.fingerprint) == None;
        assert f in posted && Waits(labels, f);
      }
    }
  }

  predicate StatusFares(status: Status, posted: bool, fate: Fate) {
    match fate
    case Any => true
    case Located => posted
    case Awaited => status.Pending?
    case Scored => !status.Pending?
    case Confirmed => status.FoundBy?
  }

  lemma TotalCounts(c: Card, known: seq<Name>, posted: bool, severity: Name, status: Status, fate: Fate)
    ensures DefectCounter(CountStatus(c, known, posted, severity, status), fate, None)
         == DefectCounter(c, fate, None) + if StatusFares(status, posted, fate) then 1 else 0
  {
  }

  /** One more among the rows of a severity, when they are counted so. */
  predicate RowGrows(row: Tally, after: Tally, scored: bool, confirmed: bool) {
    && after.planted == row.planted + (if scored then 1 else 0)
    && after.found == row.found + (if confirmed then 1 else 0)
  }

  lemma SeverityCounts(c: Card, known: seq<Name>, posted: bool, severity: Name, status: Status, k: Name)
    ensures RowGrows(Row(c.bySeverity, k), Row(CountStatus(c, known, posted, severity, status).bySeverity, k),
                     severity == k && !status.Pending?, severity == k && status.FoundBy?)
  {
    RowOfBump(c.bySeverity, severity, Planted(), k);
    RowOfBump(Bump(c.bySeverity, severity, Planted()), severity, Found(), k);
  }

  lemma RowFares(c: Card, after: Card, severity: Name, status: Status, posted: bool, fate: Fate, k: Name)
    requires fate.Scored? || fate.Confirmed?
    requires RowGrows(Row(c.bySeverity, k), Row(after.bySeverity, k), severity == k && !status.Pending?,
                      severity == k && status.FoundBy?)
    ensures DefectCounter(after, fate, Some(k))
         == DefectCounter(c, fate, Some(k)) + if severity == k && StatusFares(status, posted, fate) then 1 else 0
  {
  }

  lemma StatusCounts(c: Card, known: seq<Name>, posted: bool, severity: Name, status: Status, fate: Fate,
                     of: Option<Name>)
    requires of.Some? ==> fate.Scored? || fate.Confirmed?
    ensures DefectCounter(CountStatus(c, known, posted, severity, status), fate, of)
         == DefectCounter(c, fate, of)
            + if (of.Some? ==> severity == of.value) && StatusFares(status, posted, fate) then 1 else 0
  {
    if of.Some? {
      SeverityCounts(c, known, posted, severity, status, of.value);
      RowFares(c, CountStatus(c, known, posted, severity, status), severity, status, posted, fate, of.value);
    } else {
      TotalCounts(c, known, posted, severity, status, fate);
    }
  }

  lemma {:induction false} DefectsCount(c: Card, labels: Labels, fs: seq<Finding>, ds: seq<Defect>, fate: Fate,
                                        of: Option<Name>)
    requires of.Some? ==> fate.Scored? || fate.Confirmed?
    ensures DefectCounter(CountDefects(c, labels, fs, ds), fate, of)
         == DefectCounter(c, fate, of) + DefectsOf(fs, labels, ds, fate, of)
  {
    if ds != [] {
      var front, d := ds[..|ds| - 1], ds[|ds| - 1];
      DefectsCount(c, labels, fs, front, fate, of);
      StatusIsFate(fs, labels, d);
      StatusCounts(CountDefects(c, labels, fs, front), REVIEWERS, Posted(fs, d) != [], d.severity,
                   StatusOf(fs, labels, d), fate, of);
    }
  }

  lemma {:induction false} FindingsKeepDefects(c: Card, id: string, labels: Labels, fs: seq<Finding>, fate: Fate,
                                               of: Option<Name>)
    requires of.Some? ==> fate.Scored? || fate.Confirmed?
    ensures DefectCounter(CountFindings(c, id, labels, fs), fate, of) == DefectCounter(c, fate, of)
  {
    if fs != [] { FindingsKeepDefects(c, id, labels, fs[..|fs| - 1], fate, of); }
  }

  lemma RunCountsDefects(c: Card, corpus: Corpus, run: CaseRun, fate: Fate, of: Option<Name>)
    requires of.Some? ==> fate.Scored? || fate.Confirmed?
    ensures DefectCounter(CountRun(c, corpus, run), fate, of)
         == DefectCounter(c, fate, of) + DefectsInRun(run, corpus, fate, of)
  {
    if !run.skipped {
      var labels := LabelsFor(corpus, run.id);
      var met := Expect(c, labels, run.findings);
      FindingsKeepDefects(met, run.id, labels, run.findings, fate, of);
      DefectsCount(CountFindings(met, run.id, labels, run.findings), labels, run.findings, PlantedFor(corpus, run.id),
                   fate, of);
    }
  }

  lemma {:induction false} RunsCountDefects(runs: seq<CaseRun>, corpus: Corpus, fate: Fate, of: Option<Name>)
    requires of.Some? ==> fate.Scored? || fate.Confirmed?
    ensures DefectCounter(CountRuns(runs, corpus), fate, of) == DefectsIn(runs, corpus, fate, of)
  {
    if runs != [] {
      RunsCountDefects(runs[..|runs| - 1], corpus, fate, of);
      RunCountsDefects(CountRuns(runs[..|runs| - 1], corpus), corpus, runs[|runs| - 1], fate, of);
    }
  }

  lemma SameDefectCounter(c: Card, s: Card, fate: Fate, of: Option<Name>)
    requires of.Some? ==> fate.Scored? || fate.Confirmed?
    requires s.total == c.total && s.located == c.located && s.plantedTotal == c.plantedTotal && s.pending == c.pending
    requires of.Some? ==> RowAt(s, OfSeverity(of.value)) == RowAt(c, OfSeverity(of.value))
    ensures DefectCounter(s, fate, of) == DefectCounter(c, fate, of)
  {
  }

  /** The planted defects in all, the located, the awaited, and in total and by severity the scored and
      the found: each counter is the number of defects that fare so. */
  lemma DefectCountersAreExact(runs: seq<CaseRun>, corpus: Corpus, fate: Fate, of: Option<Name>)
    requires of.Some? ==> fate.Scored? || fate.Confirmed?
    ensures DefectCounter(Score(runs, corpus), fate, of) == DefectsIn(runs, corpus, fate, of)
  {
    RunsCountDefects(runs, corpus, fate, of);
    ScoreIsCompleted(runs, corpus);
    if of.Some? { OrderedKeepsRow(runs, corpus, OfSeverity(of.value)); }
    SameDefectCounter(CountRuns(runs, corpus), Score(runs, corpus), fate, of);
  }

  // The lines, the skipped runs and the findings that wait for a label.

  function RefutedIn(fs: seq<Finding>): nat {
    if fs == [] then 0 else (if fs[0].refuted then 1 else 0) + RefutedIn(fs[1..])
  }

  lemma {:induction false} RefutedFromFront(fs: seq<Finding>, f: Finding)
    ensures RefutedIn(fs + [f]) == RefutedIn(fs) + if f.refuted then 1 else 0
  {
    if fs != [] {
      RefutedFromFront(fs[1..], f);
      assert (fs + [f])[1..] == fs[1..] + [f];
    }
  }

  lemma {:induction false} RefutedIsCount(fs: seq<Finding>)
    ensures Refuted(fs) == RefutedIn(fs)
  {
    if fs != [] {
      RefutedIsCount(fs[..|fs| - 1]);
      RefutedFromFront(fs[..|fs| - 1], fs[|fs| - 1]);
      assert fs == fs[..|fs| - 1] + [fs[|fs| - 1]];
    }
  }

  ghost predicate LineOf(line: CaseLine, run: CaseRun, corpus: Corpus) {
    && line.id == run.id && line.planted == |PlantedFor(corpus, run.id)|
    && line.located == DefectsInRun(run, corpus, Located, None)
    && line.findings == (if run.skipped then 0 else |run.findings|)
    && line.refuted == if run.skipped then 0 else RefutedIn(run.findings)
  }

  lemma {:induction false} FindingsKeepLines(c: Card, id: string, labels: Labels, fs: seq<Finding>)
    ensures CountFindings(c, id, labels, fs).lines == c.lines && CountFindings(c, id, labels, fs).skipped == c.skipped
  {
    if fs != [] { FindingsKeepLines(c, id, labels, fs[..|fs| - 1]); }
  }

  lemma {:induction false} DefectsKeepLines(c: Card, labels: Labels, fs: seq<Finding>, ds: seq<Defect>)
    ensures var r := CountDefects(c, labels, fs, ds);
            r.lines == c.lines && r.skipped == c.skipped && r.unlabelled == c.unlabelled
  {
    if ds != [] { DefectsKeepLines(c, labels, fs, ds[..|ds| - 1]); }
  }

  lemma RunAddsLine(c: Card, corpus: Corpus, run: CaseRun)
    ensures var r := CountRun(c, corpus, run);
            && |r.lines| == |c.lines| + 1 && r.lines[..|c.lines|] == c.lines
            && LineOf(r.lines[|c.lines|], run, corpus)
            && r.skipped == c.skipped + if run.skipped then 1 else 0
  {
    if !run.skipped {
      var labels, planted := LabelsFor(corpus, run.id), PlantedFor(corpus, run.id);
      var c0 := Expect(c, labels, run.findings);
      var c1 := CountFindings(c0, run.id, labels, run.findings);
      FindingsKeepLines(c0, run.id, labels, run.findings);
      DefectsKeepLines(c1, labels, run.findings, planted);
      DefectsCount(c1, labels, run.findings, planted, Located, None);
      RefutedIsCount(run.findings);
    }
  }

  function SkippedRuns(runs: seq<CaseRun>): nat {
    if runs == [] then 0 else SkippedRuns(runs[1..]) + if runs[0].skipped then 1 else 0
  }

  lemma {:induction false} SkippedFromFront(runs: seq<CaseRun>, run: CaseRun)
    ensures SkippedRuns(runs + [run]) == SkippedRuns(runs) + if run.skipped then 1 else 0
  {
    if runs != [] {
      SkippedFromFront(runs[1..], run);
      assert (runs + [run])[1..] == runs[1..] + [run];
    }
  }

  /** One line for each run, skipped or not, in their order. */
  ghost predicate LinesAre(c: Card, runs: seq<CaseRun>, corpus: Corpus) {
    && |c.lines| == |runs| && (forall i | 0 <= i < |runs| :: LineOf(c.lines[i], runs[i], corpus))
    && c.skipped == SkippedRuns(runs)
  }

  lemma OneLineMore(c: Card, r: Card, front: seq<CaseRun>, run: CaseRun, corpus: Corpus)
    requires LinesAre(c, front, corpus) && |r.lines| == |c.lines| + 1 && r.lines[..|c.lines|] == c.lines
    requires LineOf(r.lines[|c.lines|], run, corpus) && r.skipped == c.skipped + if run.skipped then 1 else 0
    ensures LinesAre(r, front + [run], corpus)
  {
    SkippedFromFront(front, run);
    forall i | 0 <= i < |front| + 1 ensures LineOf(r.lines[i], (front + [run])[i], corpus) {
      if i < |front| { assert r.lines[i] == r.lines[..|c.lines|][i] && LineOf(c.lines[i], front[i], corpus); }
    }
  }

  lemma RunKeepsLines(c: Card, front: seq<CaseRun>, run: CaseRun, corpus: Corpus)
    requires LinesAre(c, front, corpus)
    ensures LinesAre(CountRun(c, corpus, run), front + [run], corpus)
  {
    RunAddsLine(c, corpus, run);
    OneLineMore(c, CountRun(c, corpus, run), front, run, corpus);
  }

  lemma {:induction false} RunsAddLines(runs: seq<CaseRun>, corpus: Corpus)
    ensures LinesAre(CountRuns(runs, corpus), runs, corpus)
  {
    if runs != [] {
      var front, run := runs[..|runs| - 1], runs[|runs| - 1];
      RunsAddLines(front, corpus);
      RunKeepsLines(CountRuns(front, corpus), front, run, corpus);
      assert runs == front + [run];
    }
  }

  lemma LinesAreRuns(runs: seq<CaseRun>, corpus: Corpus)
    ensures LinesAre(Score(runs, corpus), runs, corpus)
  {
    RunsAddLines(runs, corpus);
    ScoreIsCompleted(runs, corpus);
  }

  /** The findings that wait for a label, in order, each with the case. */
  ghost function WaitingIn(labels: Labels, id: string, fs: seq<Finding>): seq<(string, Finding)> {
    if fs == [] then []
    else (if LabelOf(labels, fs[0].fingerprint) == None then [(id, fs[0])] else []) + WaitingIn(labels, id, fs[1..])
  }

  ghost function WaitingOf(run: CaseRun, corpus: Corpus): seq<(string, Finding)> {
    if run.skipped then [] else WaitingIn(LabelsFor(corpus, run.id), run.id, run.findings)
  }

  ghost function AllWaiting(runs: seq<CaseRun>, corpus: Corpus): seq<(string, Finding)> {
    if runs == [] then [] else WaitingOf(runs[0], corpus) + AllWaiting(runs[1..], corpus)
  }

  lemma {:induction false} WaitingFromFront(labels: Labels, id: string, fs: seq<Finding>, f: Finding)
    ensures WaitingIn(labels, id, fs + [f])
         == WaitingIn(labels, id, fs) + if LabelOf(labels, f.fingerprint) == None then [(id, f)] else []
  {
    if fs == [] {
      assert (fs + [f])[1..] == [];
    } else {
      assert (fs + [f])[1..] == fs[1..] + [f];
      WaitingFromFront(labels, id, fs[1..], f);
    }
  }

  lemma {:induction false} AllWaitingFromFront(runs: seq<CaseRun>, run: CaseRun, corpus: Corpus)
    ensures AllWaiting(runs + [run], corpus) == AllWaiting(runs, corpus) + WaitingOf(run, corpus)
  {
    if runs == [] {
      assert (runs + [run])[1..] == [];
    } else {
      assert (runs + [run])[1..] == runs[1..] + [run];
      AllWaitingFromFront(runs[1..], run, corpus);
    }
  }

  lemma {:induction false} FindingsListed(c: Card, id: string, labels: Labels, fs: seq<Finding>)
    ensures CountFindings(c, id, labels, fs).unlabelled == c.unlabelled + WaitingIn(labels, id, fs)
  {
    if fs != [] {
      var front, last := fs[..|fs| - 1], fs[|fs| - 1];
      FindingsListed(c, id, labels, front);
      WaitingFromFront(labels, id, front, last);
      assert fs == front + [last];
    }
  }

  lemma RunListed(c: Card, corpus: Corpus, run: CaseRun)
    ensures CountRun(c, corpus, run).unlabelled == c.unlabelled + WaitingOf(run, corpus)
  {
    if !run.skipped {
      var labels := LabelsFor(corpus, run.id);
      var met := Expect(c, labels, run.findings);
      FindingsListed(met, run.id, labels, run.findings);
      DefectsKeepLines(CountFindings(met, run.id, labels, run.findings), labels, run.findings,
                       PlantedFor(corpus, run.id));
    }
  }

  lemma {:induction false} RunsListed(runs: seq<CaseRun>, corpus: Corpus)
    ensures CountRuns(runs, corpus).unlabelled == AllWaiting(runs, corpus)
  {
    if runs != [] {
      var front, run := runs[..|runs| - 1], runs[|runs| - 1];
      RunsListed(front, corpus);
      RunListed(CountRuns(front, corpus), corpus, run);
      AllWaitingFromFront(front, run, corpus);
      assert runs == front + [run];
    }
  }

  /** Listed as waiting for a label are the unlabelled findings of the runs that were not skipped, in
      the order of the runs and of their findings. */
  lemma UnlabelledAreListed(runs: seq<CaseRun>, corpus: Corpus)
    ensures Score(runs, corpus).unlabelled == AllWaiting(runs, corpus)
  {
    RunsListed(runs, corpus);
    ScoreIsCompleted(runs, corpus);
  }

  // How many labels were met again.

  ghost predicate MetAgain(run: CaseRun, corpus: Corpus) {
    forall fp | LabelOf(LabelsFor(corpus, run.id), fp).Some? :: Meets(run.findings, fp)
  }

  ghost predicate Meets(fs: seq<Finding>, fp: string) { exists f :: f in fs && f.fingerprint == fp }

  lemma PrintsMetIff(labels: Labels, fs: seq<Finding>)
    ensures LabelledPrints(labels) <= (set f | f in fs :: f.fingerprint) <==>
            forall fp | LabelOf(labels, fp).Some? :: Meets(fs, fp)
  {
    var prints, seen := LabelledPrints(labels), set f | f in fs :: f.fingerprint;
    forall fp ensures fp in prints <==> LabelOf(labels, fp).Some? {}
    forall fp ensures fp in seen <==> Meets(fs, fp) {}
  }

  lemma {:induction false} FindingsKeepMatches(c: Card, id: string, labels: Labels, fs: seq<Finding>)
    ensures var r := CountFindings(c, id, labels, fs); r.expected == c.expected && r.matched == c.matched
  {
    if fs != [] { FindingsKeepMatches(c, id, labels, fs[..|fs| - 1]); }
  }

  lemma {:induction false} DefectsKeepMatches(c: Card, labels: Labels, fs: seq<Finding>, ds: seq<Defect>)
    ensures var r := CountDefects(c, labels, fs, ds); r.expected == c.expected && r.matched == c.matched
  {
    if ds != [] { DefectsKeepMatches(c, labels, fs, ds[..|ds| - 1]); }
  }

  lemma PartIsSmaller<T>(a: set<T>, b: set<T>)
    ensures |a * b| <= |a| && (|a * b| == |a| <==> a <= b)
  {
    assert a == (a * b) + (a - b);
    if |a * b| == |a| { assert a - b == {}; }
    if a <= b { assert a * b == a; }
  }

  lemma RunMatches(c: Card, corpus: Corpus, run: CaseRun)
    ensures var r := CountRun(c, corpus, run);
            && r.expected - r.matched >= c.expected - c.matched
            && (r.expected - r.matched == c.expected - c.matched <==> run.skipped || MetAgain(run, corpus))
  {
    if !run.skipped {
      var labels := LabelsFor(corpus, run.id);
      var c0 := Expect(c, labels, run.findings);
      FindingsKeepMatches(c0, run.id, labels, run.findings);
      DefectsKeepMatches(CountFindings(c0, run.id, labels, run.findings), labels, run.findings,
                         PlantedFor(corpus, run.id));
      PartIsSmaller(LabelledPrints(labels), set f | f in run.findings :: f.fingerprint);
      PrintsMetIff(labels, run.findings);
    }
  }

  lemma {:induction false} RunsMatch(runs: seq<CaseRun>, corpus: Corpus)
    ensures var c := CountRuns(runs, corpus);
            && c.matched <= c.expected
            && (c.matched == c.expected <==> forall run | run in runs && !run.skipped :: MetAgain(run, corpus))
  {
    if runs != [] {
      var front, run := runs[..|runs| - 1], runs[|runs| - 1];
      RunsMatch(front, corpus);
      RunMatches(CountRuns(front, corpus), corpus, run);
      assert forall r :: r in runs <==> r in front || r == run;
    }
  }

  /** No more labelled fingerprints are found again than there are; as many exactly when every run that
      was not skipped has all of its case's. */
  lemma AllMatchedIff(runs: seq<CaseRun>, corpus: Corpus)
    ensures var c := Score(runs, corpus);
            && c.matched <= c.expected
            && (c.matched == c.expected <==> forall run | run in runs && !run.skipped :: MetAgain(run, corpus))
  {
    RunsMatch(runs, corpus);
    ScoreIsCompleted(runs, corpus);
  }
}
