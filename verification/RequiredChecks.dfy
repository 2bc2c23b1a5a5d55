/** The latest-wins classification of required checks (`forge/github.py`). */
module RequiredChecks {
  import opened Basics
  import opened Ordering

  /** One rollup entry; an absent or null field is "". */
  datatype Check = Check(name: string, startedAt: string, status: string, conclusion: string)

  const FAIL_CONCLUSIONS: set<string> :=
    {"FAILURE", "CANCELLED", "TIMED_OUT", "ACTION_REQUIRED", "STARTUP_FAILURE", "STALE"}
  const SUCCESS_CONCLUSIONS: set<string> := {"SUCCESS", "NEUTRAL", "SKIPPED"}
  const PENDING_STATUSES: set<string> :=
    {"QUEUED", "IN_PROGRESS", "PENDING", "WAITING", "EXPECTED", "REQUESTED"}

  /** `str.upper`, whatever it does beyond ASCII. */
  type Upper = string -> string

  datatype Verdict = Failed(conclusion: string) | Pending | Missing | Succeeded

  /** What one run says about its check; an unknown conclusion is a failure. */
  function VerdictOf(upper: Upper, run: Check): Verdict {
    var conclusion, status := upper(run.conclusion), upper(run.status);
    if conclusion in FAIL_CONCLUSIONS then Failed(conclusion)
    else if conclusion in SUCCESS_CONCLUSIONS then Succeeded
    else if status in PENDING_STATUSES || conclusion == "" then Pending
    else Failed(conclusion)
  }

  predicate NotAfter(a: Check, b: Check) {
    StringOrder()(a.startedAt, b.startedAt)
  }

  /** Whether the entry replaces the one kept so far. */
  predicate Replaces(kept: Option<Check>, entry: Check) {
    kept.None? || NotAfter(kept.value, entry)
  }

  /** The entry the first loop keeps under a name. */
  function Latest(rollup: seq<Check>, name: string): Option<Check> {
    if rollup == [] then None
    else
      var kept, entry := Latest(rollup[..|rollup| - 1], name), rollup[|rollup| - 1];
      if entry.name == name && name != "" && Replaces(kept, entry) then Some(entry) else kept
  }

  function VerdictFor(upper: Upper, rollup: seq<Check>, name: string): Verdict {
    match Latest(rollup, name)
    case None => Missing
    case Some(run) => VerdictOf(upper, run)
  }

  datatype Buckets = Buckets(failed: seq<string>, pending: seq<string>, missing: seq<string>)

  function Put(b: Buckets, name: string, v: Verdict): Buckets {
    match v
    case Failed(conclusion) => b.(failed := b.failed + [name + "=" + conclusion])
    case Pending => b.(pending := b.pending + [name])
    case Missing => b.(missing := b.missing + [name])
    case Succeeded => b
  }

  function Classified(upper: Upper, rollup: seq<Check>, names: seq<string>): Buckets {
    if names == [] then Buckets([], [], [])
    else
      var name := names[|names| - 1];
      Put(Classified(upper, rollup, names[..|names| - 1]), name, VerdictFor(upper, rollup, name))
  }

  method LatestByName(rollup: seq<Check>) returns (byName: map<string, Check>)
    ensures forall n :: n in byName <==> Latest(rollup, n).Some?
    ensures forall n | n in byName :: Latest(rollup, n) == Some(byName[n])
  {
    byName := map[];
    for i := 0 to |rollup|
      invariant forall n :: n in byName <==> Latest(rollup[..i], n).Some?
      invariant forall n | n in byName :: Latest(rollup[..i], n) == Some(byName[n])
    {
      var entry := rollup[i];
      TakeOneMore([], rollup, i);
      if entry.name == "" {
        continue;
      }
      if entry.name !in byName || NotAfter(byName[entry.name], entry) {
        byName := byName[entry.name := entry];
      }
    }
    TakeAll(rollup);
  }

  method ClassifyRequiredChecks(upper: Upper, rollup: seq<Check>, required: seq<string>)
    returns (failed: seq<string>, pending: seq<string>, missing: seq<string>)
    ensures Buckets(failed, pending, missing) == Classified(upper, rollup, required)
  {
    var byName := LatestByName(rollup);
    failed, pending, missing := [], [], [];
    for i := 0 to |required|
      invariant Buckets(failed, pending, missing) == Classified(upper, rollup, required[..i])
    {
      TakeOneMore([], required, i);
      var name := required[i];
      if name !in byName {
        missing := missing + [name];
        continue;
      }
      var run := byName[name];
      var conclusion, status := upper(run.conclusion), upper(run.status);
      if conclusion in FAIL_CONCLUSIONS {
        failed := failed + [name + "=" + conclusion];
      } else if conclusion in SUCCESS_CONCLUSIONS {
        continue;
      } else if status in PENDING_STATUSES || conclusion == "" {
        pending := pending + [name];
      } else {
        failed := failed + [name + "=" + conclusion];
      }
    }
    TakeAll(required);
  }

  datatype State = Failure | MissingChecks | Success | StillPending

  function CheckState(b: Buckets): State {
    if b.failed != [] then Failure
    else if b.missing != [] && b.pending == [] then MissingChecks
    else if b.pending == [] && b.missing == [] then Success
    else StillPending
  }

  // What the classification means.

  datatype Bucket = InFailed | InPending | InMissing | InSucceeded

  function BucketOf(v: Verdict): Bucket {
    match v
    case Failed(_) => InFailed
    case Pending => InPending
    case Missing => InMissing
    case Succeeded => InSucceeded
  }

  /** The names of one bucket, in the required order. */
  function NamesIn(upper: Upper, rollup: seq<Check>, names: seq<string>, bucket: Bucket): seq<string> {
    if names == [] then []
    else
      var name := names[|names| - 1];
      NamesIn(upper, rollup, names[..|names| - 1], bucket)
      + if BucketOf(VerdictFor(upper, rollup, name)) == bucket then [name] else []
  }

  function ShownAs(upper: Upper, rollup: seq<Check>, name: string): string {
    match VerdictFor(upper, rollup, name)
    case Failed(conclusion) => name + "=" + conclusion
    case _ => name
  }

  /** The three lists returned are three of the four buckets, in order, failures with their label. */
  lemma {:induction false} BucketsReturned(upper: Upper, rollup: seq<Check>, names: seq<string>)
    ensures var b, f := Classified(upper, rollup, names), NamesIn(upper, rollup, names, InFailed);
            && b.pending == NamesIn(upper, rollup, names, InPending)
            && b.missing == NamesIn(upper, rollup, names, InMissing)
            && |b.failed| == |f| && forall i | 0 <= i < |f| :: b.failed[i] == ShownAs(upper, rollup, f[i])
  {
    if names != [] {
      BucketsReturned(upper, rollup, names[..|names| - 1]);
    }
  }

  function Times(names: seq<string>, name: string): nat { multiset(names)[name] }

  lemma OneMoreTime(names: seq<string>, name: string)
    requires names != []
    ensures var last := names[|names| - 1];
            Times(names, name) == Times(names[..|names| - 1], name) + if last == name then 1 else 0
  {
    assert names == names[..|names| - 1] + [names[|names| - 1]];
  }

  lemma OneMoreIn(upper: Upper, rollup: seq<Check>, names: seq<string>, bucket: Bucket, name: string)
    requires names != []
    ensures var last := names[|names| - 1];
            Times(NamesIn(upper, rollup, names, bucket), name)
            == Times(NamesIn(upper, rollup, names[..|names| - 1], bucket), name)
               + if last == name && BucketOf(VerdictFor(upper, rollup, last)) == bucket then 1 else 0
  {
    var front, last := names[..|names| - 1], names[|names| - 1];
    var before := NamesIn(upper, rollup, front, bucket);
    if BucketOf(VerdictFor(upper, rollup, last)) == bucket {
      OneMoreTime(before + [last], name);
      assert (before + [last])[..|before|] == before;
    } else {
      assert before + [] == before;
    }
  }

  /** The four buckets together are the required names: each is in as many places of them as it was
      asked for, and so in exactly one when it was asked for once. */
  lemma {:induction false} EachNameInOneBucket(upper: Upper, rollup: seq<Check>, names: seq<string>, name: string)
    ensures Times(names, name) == Times(NamesIn(upper, rollup, names, InFailed), name)
                                  + Times(NamesIn(upper, rollup, names, InPending), name)
                                  + Times(NamesIn(upper, rollup, names, InMissing), name)
                                  + Times(NamesIn(upper, rollup, names, InSucceeded), name)
  {
    if names != [] {
      EachNameInOneBucket(upper, rollup, names[..|names| - 1], name);
      OneMoreTime(names, name);
      OneMoreIn(upper, rollup, names, InFailed, name);
      OneMoreIn(upper, rollup, names, InPending, name);
      OneMoreIn(upper, rollup, names, InMissing, name);
      OneMoreIn(upper, rollup, names, InSucceeded, name);
    }
  }

  lemma {:induction false} SuccessIff(upper: Upper, rollup: seq<Check>, names: seq<string>)
    ensures CheckState(Classified(upper, rollup, names)) == Success <==>
            forall name | name in names :: VerdictFor(upper, rollup, name) == Succeeded
  {
    if names != [] {
      var front, last := names[..|names| - 1], names[|names| - 1];
      SuccessIff(upper, rollup, front);
      assert forall n :: n in names <==> n in front || n == last;
    }
  }

  // What one run says, and what they say together.

  predicate SaysSuccess(conclusion: string) {
    conclusion == "SUCCESS" || conclusion == "NEUTRAL" || conclusion == "SKIPPED"
  }

  predicate SaysFailure(conclusion: string) {
    || conclusion == "FAILURE" || conclusion == "CANCELLED" || conclusion == "TIMED_OUT"
    || conclusion == "ACTION_REQUIRED" || conclusion == "STARTUP_FAILURE" || conclusion == "STALE"
  }

  predicate SaysPending(status: string) {
    || status == "QUEUED" || status == "IN_PROGRESS" || status == "PENDING"
    || status == "WAITING" || status == "EXPECTED" || status == "REQUESTED"
  }

  /** A run fails closed: only the three good conclusions succeed, a run is waited for only while it
      has no known conclusion and is under way or has none at all, and anything else has failed. */
  lemma VerdictIsClosed(upper: Upper, run: Check)
    ensures var c, waits := upper(run.conclusion), SaysPending(upper(run.status)) || upper(run.conclusion) == "";
            && (VerdictOf(upper, run) == Succeeded <==> SaysSuccess(c))
            && (VerdictOf(upper, run) == Pending <==> !SaysSuccess(c) && !SaysFailure(c) && waits)
            && (VerdictOf(upper, run) == Failed(c) <==> !SaysSuccess(c) && (SaysFailure(c) || !waits))
  {
  }

  ghost predicate SomeSays(upper: Upper, rollup: seq<Check>, names: seq<string>, bucket: Bucket) {
    exists name :: name in names && BucketOf(VerdictFor(upper, rollup, name)) == bucket
  }

  lemma {:induction false} BucketIsFilled(upper: Upper, rollup: seq<Check>, names: seq<string>)
    ensures var b := Classified(upper, rollup, names);
            && (b.failed != [] <==> SomeSays(upper, rollup, names, InFailed))
            && (b.pending != [] <==> SomeSays(upper, rollup, names, InPending))
            && (b.missing != [] <==> SomeSays(upper, rollup, names, InMissing))
  {
    if names != [] {
      var front, last := names[..|names| - 1], names[|names| - 1];
      BucketIsFilled(upper, rollup, front);
      assert forall n :: n in names <==> n in front || n == last;
    }
  }

  /** One failed check fails the whole; otherwise a missing one shows only when none is pending, and
      anything short of success is still pending. */
  lemma StateIs(upper: Upper, rollup: seq<Check>, names: seq<string>)
    ensures var state := CheckState(Classified(upper, rollup, names));
            var failed, pending, missing := SomeSays(upper, rollup, names, InFailed),
                                            SomeSays(upper, rollup, names, InPending),
                                            SomeSays(upper, rollup, names, InMissing);
            && (state == Failure <==> failed)
            && (state == MissingChecks <==> !failed && missing && !pending)
            && (state == StillPending <==> !failed && pending)
  {
    BucketIsFilled(upper, rollup, names);
  }

  // Which runs count.

  lemma StartsAreOrdered()
    ensures forall a, b :: StringOrder()(a, b) || StringOrder()(b, a)
    ensures forall a, b, c :: StringOrder()(a, b) && StringOrder()(b, c) ==> StringOrder()(a, c)
  {
    StringOrderTotal();
  }

  /** A run of the check that no other run of it started after. */
  ghost predicate IsTop(rollup: seq<Check>, name: string, run: Check) {
    && run in rollup && run.name == name && name != ""
    && forall r | r in rollup && r.name == name :: StringOrder()(r.startedAt, run.startedAt)
  }

  lemma {:induction false} LatestIsTop(rollup: seq<Check>, name: string)
    ensures match Latest(rollup, name)
            case None => name == "" || forall r | r in rollup :: r.name != name
            case Some(run) => IsTop(rollup, name, run)
  {
    if rollup != [] {
      var front, last := rollup[..|rollup| - 1], rollup[|rollup| - 1];
      LatestIsTop(front, name);
      StartsAreOrdered();
      assert forall r :: r in rollup <==> r in front || r == last;
    }
  }

  /** The verdict does not hang on which of the latest runs is met last. */
  ghost predicate TopsAgree(upper: Upper, rollup: seq<Check>, name: string) {
    forall a, b | IsTop(rollup, name, a) && IsTop(rollup, name, b) :: VerdictOf(upper, a) == VerdictOf(upper, b)
  }

  lemma TopsOfSameRuns(rollup: seq<Check>, other: seq<Check>, name: string, run: Check)
    requires forall r :: r in rollup <==> r in other
    ensures IsTop(rollup, name, run) <==> IsTop(other, name, run)
  {
  }

  lemma AgreeingTopsDecide(upper: Upper, rollup: seq<Check>, other: seq<Check>, name: string)
    requires TopsAgree(upper, rollup, name)
    requires forall run :: IsTop(rollup, name, run) <==> IsTop(other, name, run)
    requires (exists r :: r in rollup && r.name == name) <==> (exists r :: r in other && r.name == name)
    ensures VerdictFor(upper, other, name) == VerdictFor(upper, rollup, name)
  {
    LatestIsTop(rollup, name);
    LatestIsTop(other, name);
    if name == "" {
      NamelessIsMissing(rollup);
      NamelessIsMissing(other);
    }
  }

  lemma {:induction false} NamelessIsMissing(rollup: seq<Check>)
    ensures Latest(rollup, "") == None
  {
    if rollup != [] { NamelessIsMissing(rollup[..|rollup| - 1]); }
  }

  /** Moving one of the latest runs to the end makes it the run that counts. */
  lemma LastTopCounts(upper: Upper, rollup: seq<Check>, name: string, run: Check) returns (moved: seq<Check>)
    requires IsTop(rollup, name, run)
    ensures multiset(moved) == multiset(rollup) && VerdictFor(upper, moved, name) == VerdictOf(upper, run)
  {
    var i :| 0 <= i < |rollup| && rollup[i] == run;
    var others := rollup[..i] + rollup[i + 1..];
    moved := others + [run];
    assert rollup == rollup[..i] + [run] + rollup[i + 1..];
    assert moved[..|moved| - 1] == others;
    LatestIsTop(others, name);
    assert forall r | r in others :: r in rollup;
  }

  /** "Iteration order must never decide": it does not, whatever the permutation, exactly when the
      runs sharing the latest start time say the same. */
  lemma OrderNeverDecidesIff(upper: Upper, rollup: seq<Check>, name: string)
    ensures (forall p | multiset(p) == multiset(rollup) ::
               VerdictFor(upper, p, name) == VerdictFor(upper, rollup, name))
            <==> TopsAgree(upper, rollup, name)
  {
    if TopsAgree(upper, rollup, name) {
      forall p | multiset(p) == multiset(rollup) ensures VerdictFor(upper, p, name) == VerdictFor(upper, rollup, name) {
        SameElements(p, rollup);
        forall run ensures IsTop(rollup, name, run) <==> IsTop(p, name, run) {
          TopsOfSameRuns(rollup, p, name, run);
        }
        AgreeingTopsDecide(upper, rollup, p, name);
      }
    }
    if forall p | multiset(p) == multiset(rollup) :: VerdictFor(upper, p, name) == VerdictFor(upper, rollup, name) {
      forall a, b | IsTop(rollup, name, a) && IsTop(rollup, name, b)
        ensures VerdictOf(upper, a) == VerdictOf(upper, b)
      {
        var p := LastTopCounts(upper, rollup, name, a);
        var q := LastTopCounts(upper, rollup, name, b);
      }
    }
  }

  lemma SameElements(p: seq<Check>, q: seq<Check>)
    requires multiset(p) == multiset(q)
    ensures forall r :: r in p <==> r in q
  {
    assert forall r :: r in p <==> r in multiset(p);
    assert forall r :: r in q <==> r in multiset(q);
  }

  /** Runs that started before the latest one change nothing, wherever they are slipped in. */
  lemma OlderRunsNeverCount(upper: Upper, rollup: seq<Check>, older: seq<Check>, merged: seq<Check>,
                            name: string, run: Check)
    requires TopsAgree(upper, rollup, name) && IsTop(rollup, name, run)
    requires forall r | r in older && r.name == name :: !StringOrder()(run.startedAt, r.startedAt)
    requires multiset(merged) == multiset(rollup + older)
    ensures VerdictFor(upper, merged, name) == VerdictFor(upper, rollup, name)
  {
    SameElements(merged, rollup + older);
    StartsAreOrdered();
    forall r ensures IsTop(rollup, name, r) <==> IsTop(merged, name, r) {
      assert IsTop(merged, name, r) ==> StringOrder()(run.startedAt, r.startedAt);
    }
    AgreeingTopsDecide(upper, rollup, merged, name);
  }

  lemma SecondOfTwoCounts(a: Check, b: Check)
    requires a.name == b.name != "" && a.startedAt == b.startedAt
    ensures Latest([a, b], a.name) == Some(b)
  {
    StartsAreOrdered();
    assert [a, b][..1] == [a] && [a][..0] == [];
    assert Latest([], a.name) == None && Latest([a], a.name) == Some(a);
  }

  /** Two runs with one start time: which comes last in the listing decides. */
  lemma TiedRunsAreDecidedByOrder(upper: Upper)
    requires upper("SUCCESS") == "SUCCESS" && upper("FAILURE") == "FAILURE"
    ensures var green := Check("lint", "2026-07-03", "COMPLETED", "SUCCESS");
            var red := Check("lint", "2026-07-03", "COMPLETED", "FAILURE");
            VerdictFor(upper, [green, red], "lint") != VerdictFor(upper, [red, green], "lint")
  {
    var green := Check("lint", "2026-07-03", "COMPLETED", "SUCCESS");
    var red := Check("lint", "2026-07-03", "COMPLETED", "FAILURE");
    SecondOfTwoCounts(green, red);
    SecondOfTwoCounts(red, green);
  }
}
