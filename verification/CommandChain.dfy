/** The `&&`-chained command runner (`gates/commands.py`). Words, or an error, are what `shlex` hands
    over; a step runs in an environment that answers with an outcome and the seconds it took. */
module CommandChain {
  import opened Basics

  const SHELL_OPERATORS: set<string> :=
    {"||", ";", ";;", "|", "&", ">", ">>", "<", "<<", ">&", "&>", "|&", "(", ")"}
  const AND := "&&"

  predicate IsLetter(c: char) { 'a' <= c <= 'z' || 'A' <= c <= 'Z' || c == '_' }

  predicate IsNameThenEquals(s: string) {
    s != "" && (s[0] == '=' || ((IsLetter(s[0]) || '0' <= s[0] <= '9') && IsNameThenEquals(s[1..])))
  }

  /** `^[A-Za-z_][A-Za-z0-9_]*=` */
  predicate IsAssignment(word: string) {
    word != "" && IsLetter(word[0]) && IsNameThenEquals(word[1..])
  }

  datatype SplitError = Operator(word: string) | LeadingAssignment(word: string) | EmptyStep

  type Steps = seq<seq<string>>

  /** One word of the loop in `split_steps`. */
  function AddWord(steps: Steps, word: string): Result<Steps, SplitError>
    requires steps != []
  {
    var last := steps[|steps| - 1];
    if word == AND then Ok(steps + [[]])
    else if word in SHELL_OPERATORS then Err(Operator(word))
    else if last == [] && IsAssignment(word) then Err(LeadingAssignment(word))
    else Ok(steps[..|steps| - 1] + [last + [word]])
  }

  function Collect(words: seq<string>): (r: Result<Steps, SplitError>)
    ensures r.Ok? ==> r.value != []
  {
    if words == [] then Ok([[]])
    else
      match Collect(words[..|words| - 1])
      case Err(e) => Err(e)
      case Ok(steps) => AddWord(steps, words[|words| - 1])
  }

  function Split(words: seq<string>): Result<Steps, SplitError> {
    match Collect(words)
    case Err(e) => Err(e)
    case Ok(steps) => if [] in steps then Err(EmptyStep) else Ok(steps)
  }

  method SplitSteps(words: seq<string>) returns (r: Result<Steps, SplitError>)
    ensures r == Split(words)
  {
    var steps: Steps := [[]];
    for i := 0 to |words|
      invariant Collect(words[..i]) == Ok(steps)
    {
      var word := words[i];
      TakeOneMore([], words, i);
      if word == AND {
        steps := steps + [[]];
        continue;
      }
      if word in SHELL_OPERATORS {
        ErrorStays(words, i + 1);
        return Err(Operator(word));
      }
      if steps[|steps| - 1] == [] && IsAssignment(word) {
        ErrorStays(words, i + 1);
        return Err(LeadingAssignment(word));
      }
      steps := steps[..|steps| - 1] + [steps[|steps| - 1] + [word]];
    }
    TakeAll(words);
    if [] in steps {
      return Err(EmptyStep);
    }
    r := Ok(steps);
  }

  lemma {:induction false} ErrorStays(words: seq<string>, n: nat)
    requires n <= |words| && Collect(words[..n]).Err?
    ensures Collect(words) == Collect(words[..n])
  {
    if n < |words| {
      assert words[..|words| - 1][..n] == words[..n];
      ErrorStays(words[..|words| - 1], n);
    } else {
      TakeAll(words);
    }
  }

  /** `&&` between the steps. */
  function Join(steps: Steps): seq<string>
    requires steps != []
  {
    if |steps| == 1 then steps[0] else Join(steps[..|steps| - 1]) + [AND] + steps[|steps| - 1]
  }

  /** No `&&` or other operator in the step, and it does not start with an assignment. */
  predicate CleanStep(step: seq<string>) {
    && (forall i | 0 <= i < |step| :: IsPlain(step[i]))
    && (step != [] ==> !IsAssignment(step[0]))
  }

  predicate IsPlain(word: string) { word != AND && word !in SHELL_OPERATORS }

  predicate CleanSteps(steps: Steps) {
    steps != [] && forall i | 0 <= i < |steps| :: CleanStep(steps[i])
  }

  predicate Runnable(steps: Steps) {
    CleanSteps(steps) && [] !in steps
  }

  lemma AndKeeps(steps: Steps)
    requires CleanSteps(steps)
    ensures CleanSteps(steps + [[]]) && Join(steps + [[]]) == Join(steps) + [AND]
  {
    assert (steps + [[]])[..|steps + [[]]| - 1] == steps;
    assert Join(steps) + [AND] + [] == Join(steps) + [AND];
  }

  lemma WordKeeps(others: Steps, last: seq<string>, word: string)
    requires CleanSteps(others + [last]) && IsPlain(word)
    requires last == [] ==> !IsAssignment(word)
    ensures CleanSteps(others + [last + [word]])
    ensures Join(others + [last + [word]]) == Join(others + [last]) + [word]
  {
    var steps, grown := others + [last], others + [last + [word]];
    assert grown[..|grown| - 1] == others && steps[..|steps| - 1] == others;
    assert CleanStep(steps[|others|]);
    forall i | 0 <= i < |grown| ensures CleanStep(grown[i]) {
      if i < |others| { assert CleanStep(steps[i]); }
    }
    if others != [] { Assoc(Join(others) + [AND], last, [word]); }
  }

  lemma AddWordJoins(steps: Steps, word: string)
    requires CleanSteps(steps) && AddWord(steps, word).Ok?
    ensures CleanSteps(AddWord(steps, word).value) && Join(AddWord(steps, word).value) == Join(steps) + [word]
  {
    if word == AND {
      AndKeeps(steps);
    } else {
      var others, last := steps[..|steps| - 1], steps[|steps| - 1];
      assert steps == others + [last];
      WordKeeps(others, last, word);
    }
  }

  lemma NoWordsJoin()
    ensures CleanSteps([[]]) && Join([[]]) == []
  {
  }

  lemma CollectOneMore(front: seq<string>, word: string)
    ensures Collect(front + [word])
         == if Collect(front).Ok? then AddWord(Collect(front).value, word) else Collect(front)
  {
    assert (front + [word])[..|front|] == front;
  }

  lemma {:induction false} CollectJoins(words: seq<string>)
    requires Collect(words).Ok?
    ensures CleanSteps(Collect(words).value) && Join(Collect(words).value) == words
  {
    if words == [] {
      NoWordsJoin();
    } else {
      var front, word := words[..|words| - 1], words[|words| - 1];
      assert front + [word] == words;
      CollectOneMore(front, word);
      CollectJoins(front);
      AddWordJoins(Collect(front).value, word);
    }
  }

  lemma AddWordGrows(before: Steps, last: seq<string>, word: string)
    requires IsPlain(word) && (last == [] ==> !IsAssignment(word))
    ensures AddWord(before + [last], word) == Ok(before + [last + [word]])
  {
    assert (before + [last])[..|before|] == before;
  }

  lemma {:induction false} CollectStep(done: seq<string>, before: Steps, step: seq<string>, k: nat)
    requires Collect(done) == Ok(before + [[]]) && CleanStep(step) && k <= |step|
    ensures Collect(done + step[..k]) == Ok(before + [step[..k]])
  {
    if k == 0 {
      assert done + step[..0] == done;
    } else {
      CollectStep(done, before, step, k - 1);
      TakeOneMore(done, step, k - 1);
      var words, word := done + step[..k], step[k - 1];
      assert words[..|words| - 1] == done + step[..k - 1] && words[|words| - 1] == word;
      assert IsPlain(word) && step[..k] == step[..k - 1] + [word];
      AddWordGrows(before, step[..k - 1], word);
    }
  }

  lemma {:induction false} JoinCollects(steps: Steps)
    requires CleanSteps(steps)
    ensures Collect(Join(steps)) == Ok(steps)
  {
    var others, last := steps[..|steps| - 1], steps[|steps| - 1];
    assert last in steps && steps == others + [last];
    if |steps| == 1 {
      var none: Steps := [];
      assert none + [[]] == [[]];
      CollectStep([], none, last, |last|);
      TakeAll(last);
      assert [] + last == last;
    } else {
      JoinCollects(others);
      var done := Join(others) + [AND];
      assert done[..|done| - 1] == Join(others);
      CollectStep(done, others, last, |last|);
      TakeAll(last);
    }
  }

  /** Splitting and joining are inverse on what can be run, and nothing else is accepted: no word is
      lost, moved or made up. */
  lemma SplitIffJoin(words: seq<string>, steps: Steps)
    ensures Split(words) == Ok(steps) <==> Runnable(steps) && Join(steps) == words
  {
    if Split(words) == Ok(steps) { CollectJoins(words); }
    if Runnable(steps) && Join(steps) == words { JoinCollects(steps); }
  }

  // What a refusal names.

  predicate IsDigit(c: char) { '0' <= c <= '9' }

  predicate IsWordChar(c: char) { 'a' <= c <= 'z' || 'A' <= c <= 'Z' || c == '_' || IsDigit(c) }

  /** A name of letters, digits and underscores, no digit first, and behind it an equals sign. */
  ghost predicate AssignsAt(word: string, n: nat) {
    0 < n < |word| && word[n] == '=' && !IsDigit(word[0]) && forall i | 0 <= i < n :: IsWordChar(word[i])
  }

  lemma {:induction false} NameThenEqualsIff(s: string)
    ensures IsNameThenEquals(s) <==> exists n: nat :: EqualsAt(s, n)
  {
    if s != "" && s[0] == '=' {
      assert EqualsAt(s, 0);
    } else if s != "" {
      NameThenEqualsIff(s[1..]);
      if n: nat :| EqualsAt(s[1..], n) {
        if IsWordChar(s[0]) { assert EqualsAt(s, n + 1); }
      }
      if n: nat :| EqualsAt(s, n) {
        assert IsWordChar(s[0]) && EqualsAt(s[1..], n - 1);
      }
    }
  }

  ghost predicate EqualsAt(s: string, n: nat) {
    n < |s| && s[n] == '=' && forall i | 0 <= i < n :: IsWordChar(s[i])
  }

  lemma AssignmentIff(word: string)
    ensures IsAssignment(word) <==> exists n: nat :: AssignsAt(word, n)
  {
    if word != "" {
      NameThenEqualsIff(word[1..]);
      if n: nat :| EqualsAt(word[1..], n) {
        if IsLetter(word[0]) {
          forall i | 0 <= i < n + 1 ensures IsWordChar(word[i]) { if i > 0 { assert word[i] == word[1..][i - 1]; } }
          assert AssignsAt(word, n + 1);
        }
      }
      if n: nat :| AssignsAt(word, n) { assert EqualsAt(word[1..], n - 1); }
    }
  }

  predicate StepStarts(words: seq<string>, i: nat)
    requires i <= |words|
  {
    i == 0 || words[i - 1] == AND
  }

  /** What is wrong with the `i`-th word where it stands. */
  function Offence(words: seq<string>, i: nat): Option<SplitError>
    requires i < |words|
  {
    if words[i] == AND then None
    else if words[i] in SHELL_OPERATORS then Some(Operator(words[i]))
    else if StepStarts(words, i) && IsAssignment(words[i]) then Some(LeadingAssignment(words[i]))
    else None
  }

  ghost predicate FirstOffence(words: seq<string>, i: nat) {
    i < |words| && Offence(words, i) != None && Inoffensive(words, i)
  }

  ghost predicate Inoffensive(words: seq<string>, n: nat) {
    forall k: nat | k < n && k < |words| :: Offence(words, k) == None
  }

  /** A step that holds no word. */
  predicate EmptyAt(words: seq<string>, i: nat) {
    i <= |words| && StepStarts(words, i) && (i == |words| || words[i] == AND)
  }

  ghost predicate EmptyBefore(words: seq<string>, n: nat) { exists i: nat :: i < n && EmptyAt(words, i) }

  lemma EmptyStays(words: seq<string>, word: string)
    ensures EmptyBefore(words + [word], |words|) <==> EmptyBefore(words, |words|)
  {
    var longer := words + [word];
    forall i: nat | i < |words| ensures EmptyAt(longer, i) <==> EmptyAt(words, i) {}
    if i: nat :| i < |words| && EmptyAt(words, i) { assert EmptyAt(longer, i); }
    if i: nat :| i < |words| && EmptyAt(longer, i) { assert EmptyAt(words, i); }
  }

  /** The steps collected so far: which of them are empty. */
  ghost predicate EmptiesAre(words: seq<string>, steps: Steps) {
    && steps != [] && ([] in steps[..|steps| - 1] <==> EmptyBefore(words, |words|))
    && (steps[|steps| - 1] == [] <==> StepStarts(words, |words|))
  }

  lemma AndEmpties(words: seq<string>, steps: Steps)
    requires EmptiesAre(words, steps)
    ensures EmptiesAre(words + [AND], steps + [[]])
  {
    var longer, more := words + [AND], steps + [[]];
    assert more[..|more| - 1] == steps && steps == steps[..|steps| - 1] + [steps[|steps| - 1]];
    EmptyStays(words, AND);
    assert EmptyAt(longer, |words|) <==> StepStarts(words, |words|);
    if EmptyBefore(words, |words|) {
      var i: nat :| i < |words| && EmptyAt(longer, i);
      assert EmptyBefore(longer, |longer|);
    }
    if EmptyBefore(longer, |longer|) {
      var i: nat :| i < |longer| && EmptyAt(longer, i);
      if i < |words| { assert EmptyBefore(longer, |words|); }
    }
  }

  lemma WordEmpties(words: seq<string>, steps: Steps, word: string)
    requires EmptiesAre(words, steps) && word != AND
    ensures EmptiesAre(words + [word], steps[..|steps| - 1] + [steps[|steps| - 1] + [word]])
  {
    var longer, more := words + [word], steps[..|steps| - 1] + [steps[|steps| - 1] + [word]];
    assert more[..|more| - 1] == steps[..|steps| - 1];
    EmptyStays(words, word);
    assert !EmptyAt(longer, |words|);
    if EmptyBefore(longer, |longer|) {
      var i: nat :| i < |longer| && EmptyAt(longer, i);
      assert EmptyBefore(longer, |words|);
    }
  }

  lemma {:induction false} InoffensiveCollects(words: seq<string>, n: nat)
    requires n <= |words| && Inoffensive(words, n)
    ensures Collect(words[..n]).Ok? && EmptiesAre(words[..n], Collect(words[..n]).value)
  {
    if n > 0 {
      InoffensiveCollects(words, n - 1);
      TakeOneMore([], words, n - 1);
      var steps, word := Collect(words[..n - 1]).value, words[n - 1];
      assert Offence(words, n - 1) == None;
      if word == AND { AndEmpties(words[..n - 1], steps); } else { WordEmpties(words[..n - 1], steps, word); }
    }
  }

  lemma OffenceIsFinal(words: seq<string>, i: nat)
    requires FirstOffence(words, i)
    ensures Split(words) == Err(Offence(words, i).value)
  {
    InoffensiveCollects(words, i);
    TakeOneMore([], words, i);
    ErrorStays(words, i + 1);
  }

  /** A command line is refused for its first offending word, and without one only for a step that
      holds no word. */
  lemma RefusalIsFirstOffence(words: seq<string>)
    ensures forall i: nat | FirstOffence(words, i) :: Split(words) == Err(Offence(words, i).value)
    ensures Inoffensive(words, |words|) ==>
              if EmptyBefore(words, |words| + 1) then Split(words) == Err(EmptyStep) else Split(words).Ok?
  {
    forall i: nat | FirstOffence(words, i) ensures Split(words) == Err(Offence(words, i).value) {
      OffenceIsFinal(words, i);
    }
    if Inoffensive(words, |words|) {
      InoffensiveCollects(words, |words|);
      TakeAll(words);
      var steps := Collect(words).value;
      assert steps == steps[..|steps| - 1] + [steps[|steps| - 1]];
      assert EmptyBefore(words, |words| + 1) <==> EmptyBefore(words, |words|) || EmptyAt(words, |words|);
    }
  }

  // Running the chain.

  const TAIL_CHARS: nat := 4000

  datatype Outcome = Outcome(passed: bool, returncode: Option<int>, tail: string, stdout: string, seconds: real)

  /** One step as it ran: the limit it was given and what came of it. */
  datatype Run = Run(argv: seq<string>, limit: int, outcome: Outcome)

  datatype CommandResult = CommandResult(passed: bool, returncode: Option<int>, tail: string, stdout: string)

  /** The `i`-th step of the chain, run with a limit in seconds under a title. */
  type Environment = (nat, seq<string>, int, string) -> Outcome

  /** What a chain runs in: the steps' environment, where the project root puts a path, the title of a step, and
      the time that passes outside the steps before the clock is read for the `i`-th of them. */
  datatype World = World(exec: Environment, locate: string -> string, title: seq<string> -> string, wait: nat -> real)

  /** `int(x)` */
  function Truncate(x: real): int {
    if x >= 0.0 then x.Floor else -((-x).Floor)
  }

  function Limit(deadline: real, now: real): int {
    var left := Truncate(deadline - now);
    if left > 1 then left else 1
  }

  /** A relative path to a script, not the bare name of a command. */
  predicate IsRelativePath(word: string) { '/' in word && word[0] != '/' }

  /** A relative script path is taken from the project root. */
  function Located(locate: string -> string, argv: seq<string>): seq<string>
    requires argv != []
  {
    if IsRelativePath(argv[0]) then [locate(argv[0])] + argv[1..] else argv
  }

  /** The clock as read for the `i`-th step, when the one before ended at `now`. */
  function Reading(wait: nat -> real, i: nat, now: real): real { now + wait(i) }

  function RunOne(w: World, i: nat, step: seq<string>, deadline: real, now: real): Run
    requires step != []
  {
    var argv, limit := Located(w.locate, step), Limit(deadline, Reading(w.wait, i, now));
    Run(argv, limit, w.exec(i, argv, limit, w.title(argv)))
  }

  function EndOf(wait: nat -> real, i: nat, run: Run, now: real): real { Reading(wait, i, now) + run.outcome.seconds }

  /** The runs from the `i`-th step on, up to and including the first failure. */
  function Chain(w: World, steps: Steps, i: nat, deadline: real, now: real): seq<Run>
    requires [] !in steps && i <= |steps|
    decreases |steps| - i
  {
    if i == |steps| then []
    else
      assert steps[i] in steps;
      var run := RunOne(w, i, steps[i], deadline, now);
      if run.outcome.passed then [run] + Chain(w, steps, i + 1, deadline, EndOf(w.wait, i, run, now)) else [run]
  }

  function Stdout(runs: seq<Run>): string {
    if runs == [] then "" else Stdout(runs[..|runs| - 1]) + runs[|runs| - 1].outcome.stdout
  }

  /** The tails of the runs, a line break between them. */
  function Tails(runs: seq<Run>): string {
    if runs == [] then ""
    else if |runs| == 1 then runs[0].outcome.tail
    else Tails(runs[..|runs| - 1]) + "\n" + runs[|runs| - 1].outcome.tail
  }

  predicate AllPassed(runs: seq<Run>) {
    forall k | 0 <= k < |runs| :: runs[k].outcome.passed
  }

  /** What the loop has for the runs so far. */
  function Answer(runs: seq<Run>): CommandResult {
    if runs == [] then CommandResult(true, Some(0), "", "")
    else
      var last := runs[|runs| - 1].outcome;
      CommandResult(last.passed, last.returncode, Tails(runs), Stdout(runs))
  }

  function LastChars(s: string): string { if |s| <= TAIL_CHARS then s else s[|s| - TAIL_CHARS..] }

  /** A single step goes by the name of the command. */
  function Labelled(w: World, command: string, steps: Steps): World {
    if |steps| == 1 then w.(title := _ => command) else w
  }

  /** The steps of a chain are shown under the command, their last lines only. */
  function Shown(command: string, steps: Steps, answer: CommandResult): CommandResult {
    if |steps| > 1 then answer.(tail := "$ " + command + "\n" + LastChars(answer.tail)) else answer
  }

  /** A refused command runs nothing, is red without a return code, and its tail says why. */
  predicate Refuses(result: CommandResult, runs: seq<Run>, command: string, why: string) {
    && runs == [] && !result.passed && result.returncode == None && result.stdout == ""
    && result.tail == "$ " + command + "\nunparseable command: " + why
  }

  /** The loop of `run_command`. */
  method RunSteps(w: World, steps: Steps, deadline: real, start: real)
    returns (result: CommandResult, runs: seq<Run>)
    requires [] !in steps
    ensures runs == Chain(w, steps, 0, deadline, start) && result == Answer(runs)
  {
    runs := [];
    result := CommandResult(true, Some(0), "", "");
    var now := start;
    for i := 0 to |steps|
      invariant Chain(w, steps, 0, deadline, start) == runs + Chain(w, steps, i, deadline, now)
      invariant result == Answer(runs)
    {
      assert steps[i] in steps;
      var run := RunOne(w, i, steps[i], deadline, now);
      now := EndOf(w.wait, i, run, now);
      Assoc(runs, [run], Chain(w, steps, i + 1, deadline, now));
      AnswerOneMore(runs, run);
      var tail := if runs == [] then run.outcome.tail else result.tail + "\n" + run.outcome.tail;
      result := CommandResult(run.outcome.passed, run.outcome.returncode, tail, result.stdout + run.outcome.stdout);
      runs := runs + [run];
      if !result.passed {
        return;
      }
    }
  }

  lemma AnswerOneMore(runs: seq<Run>, run: Run)
    ensures Answer(runs + [run]).passed == run.outcome.passed
    ensures Answer(runs + [run]).returncode == run.outcome.returncode
    ensures Answer(runs + [run]).stdout == Answer(runs).stdout + run.outcome.stdout
    ensures Answer(runs + [run]).tail
         == if runs == [] then run.outcome.tail else Answer(runs).tail + "\n" + run.outcome.tail
  {
    assert (runs + [run])[..|runs + [run]| - 1] == runs;
  }

  /** `words` is what `shlex` makes of the command; `start` is when the deadline is set. */
  method RunCommand(w: World, command: string, words: Result<seq<string>, string>, explain: SplitError -> string,
                    timeout: int, start: real)
    returns (result: CommandResult, runs: seq<Run>)
    ensures match words
            case Err(why) => Refuses(result, runs, command, why)
            case Ok(words) =>
              match Split(words)
              case Err(e) => Refuses(result, runs, command, explain(e))
              case Ok(steps) =>
                && runs == Chain(Labelled(w, command, steps), steps, 0, start + timeout as real, start)
                && result == Shown(command, steps, Answer(runs))
  {
    if words.Err? {
      return CommandResult(false, None, "$ " + command + "\nunparseable command: " + words.error, ""), [];
    }
    var split := SplitSteps(words.value);
    if split.Err? {
      return CommandResult(false, None, "$ " + command + "\nunparseable command: " + explain(split.error), ""), [];
    }
    var steps := split.value;
    result, runs := RunSteps(Labelled(w, command, steps), steps, start + timeout as real, start);
    if |steps| > 1 {
      result := result.(tail := "$ " + command + "\n" + LastChars(result.tail));
    }
  }

  lemma {:induction false} ChainLength(w: World, steps: Steps, i: nat, deadline: real, now: real)
    requires [] !in steps && i < |steps|
    ensures var runs := Chain(w, steps, i, deadline, now);
            0 < |runs| <= |steps| - i && (|runs| < |steps| - i ==> !runs[|runs| - 1].outcome.passed)
    decreases |steps| - i
  {
    assert steps[i] in steps;
    var run := RunOne(w, i, steps[i], deadline, now);
    if run.outcome.passed && i + 1 < |steps| {
      ChainLength(w, steps, i + 1, deadline, EndOf(w.wait, i, run, now));
    }
  }

  /** The command of the step, its first word taken from the project root when that is a relative path,
      and all other words as they are. */
  predicate RunsStep(w: World, step: seq<string>, argv: seq<string>) {
    && step != [] && |argv| == |step| && argv[1..] == step[1..]
    && argv[0] == if '/' in step[0] && !("/" <= step[0]) then w.locate(step[0]) else step[0]
  }

  /** The run of a step: its command, given a second at least and otherwise no more than the whole seconds
      left at `now`, and what came of it under that limit and the step's title. */
  predicate IsRunOf(w: World, i: nat, step: seq<string>, deadline: real, now: real, run: Run) {
    && RunsStep(w, step, run.argv)
    && run.limit >= 1 && (run.limit == 1 || run.limit as real <= deadline - now)
    && deadline - now < (run.limit + 1) as real
    && run.outcome == w.exec(i, run.argv, run.limit, w.title(run.argv))
  }

  lemma OneIsRunOf(w: World, i: nat, step: seq<string>, deadline: real, now: real)
    requires step != []
    ensures IsRunOf(w, i, step, deadline, Reading(w.wait, i, now), RunOne(w, i, step, deadline, now))
  {
    var argv := Located(w.locate, step);
    assert '/' in step[0] ==> ("/" <= step[0] <==> step[0][0] == '/');
  }

  /** When the clock is read for the `k`-th of the runs, the first of them being the `i`-th step. */
  function ReadAt(w: World, runs: seq<Run>, i: nat, now: real, k: nat): real
    requires k < |runs|
    decreases k
  {
    if k == 0 then now + w.wait(i)
    else ReadAt(w, runs[1..], i + 1, now + w.wait(i) + runs[0].outcome.seconds, k - 1)
  }

  lemma {:induction false} ChainRunAt(w: World, steps: Steps, i: nat, deadline: real, now: real, k: nat)
    requires [] !in steps && i < |steps| && k < |Chain(w, steps, i, deadline, now)|
    ensures var runs := Chain(w, steps, i, deadline, now);
            && i + k < |steps|
            && IsRunOf(w, i + k, steps[i + k], deadline, ReadAt(w, runs, i, now, k), runs[k])
            && (k + 1 < |runs| ==> runs[k].outcome.passed)
    decreases k
  {
    assert steps[i] in steps;
    OneIsRunOf(w, i, steps[i], deadline, now);
    if k > 0 {
      var run := RunOne(w, i, steps[i], deadline, now);
      var rest := Chain(w, steps, i + 1, deadline, EndOf(w.wait, i, run, now));
      ChainRunAt(w, steps, i + 1, deadline, EndOf(w.wait, i, run, now), k - 1);
      assert ([run] + rest)[1..] == rest;
    }
  }

  predicate RanAt(w: World, steps: Steps, runs: seq<Run>, deadline: real, now: real, k: nat)
    requires k < |runs| <= |steps|
  {
    IsRunOf(w, k, steps[k], deadline, ReadAt(w, runs, 0, now, k), runs[k])
  }

  lemma AllPassedIff(runs: seq<Run>)
    requires runs != [] && forall k | 0 <= k < |runs| - 1 :: runs[k].outcome.passed
    ensures AllPassed(runs) <==> runs[|runs| - 1].outcome.passed
  {
  }

  /** The steps run in order, each as its own command under the seconds then left, and none after a
      failure; the command passes exactly when every step ran and passed. */
  lemma ChainStopsAtFailure(w: World, steps: Steps, deadline: real, now: real)
    requires [] !in steps && steps != []
    ensures var runs := Chain(w, steps, 0, deadline, now);
            && 0 < |runs| <= |steps|
            && (forall k: nat | k < |runs| :: RanAt(w, steps, runs, deadline, now, k))
            && (forall k | 0 <= k < |runs| - 1 :: runs[k].outcome.passed)
            && (Answer(runs).passed <==> AllPassed(runs) && |runs| == |steps|)
  {
    var runs := Chain(w, steps, 0, deadline, now);
    ChainLength(w, steps, 0, deadline, now);
    forall k: nat | k < |runs| ensures RanAt(w, steps, runs, deadline, now, k) {
      ChainRunAt(w, steps, 0, deadline, now, k);
    }
    forall k | 0 <= k < |runs| - 1 ensures runs[k].outcome.passed { ChainRunAt(w, steps, 0, deadline, now, k); }
    AllPassedIff(runs);
  }

  // What is answered.

  /** The texts, one behind the other, `between` each two. */
  function Joined(texts: seq<string>, between: string): string {
    if texts == [] then "" else if |texts| == 1 then texts[0] else texts[0] + between + Joined(texts[1..], between)
  }

  function StdoutsOf(runs: seq<Run>): seq<string> {
    seq(|runs|, k requires 0 <= k < |runs| => runs[k].outcome.stdout)
  }

  function TailsOf(runs: seq<Run>): seq<string> {
    seq(|runs|, k requires 0 <= k < |runs| => runs[k].outcome.tail)
  }

  lemma {:induction false} JoinedOneMore(texts: seq<string>, between: string, text: string)
    ensures Joined(texts + [text], between) == if texts == [] then text else Joined(texts, between) + between + text
  {
    if |texts| == 1 {
      assert texts + [text] == [texts[0], text] && [texts[0], text][1..] == [text];
    } else if texts != [] {
      assert (texts + [text])[1..] == texts[1..] + [text];
      JoinedOneMore(texts[1..], between, text);
    }
  }

  lemma {:induction false} OutputsAreJoined(runs: seq<Run>)
    ensures Stdout(runs) == Joined(StdoutsOf(runs), "") && Tails(runs) == Joined(TailsOf(runs), "\n")
  {
    if runs != [] {
      var front, last := runs[..|runs| - 1], runs[|runs| - 1];
      OutputsAreJoined(front);
      assert StdoutsOf(runs) == StdoutsOf(front) + [last.outcome.stdout];
      assert TailsOf(runs) == TailsOf(front) + [last.outcome.tail];
      JoinedOneMore(StdoutsOf(front), "", last.outcome.stdout);
      JoinedOneMore(TailsOf(front), "\n", last.outcome.tail);
      if |runs| == 1 { assert front == []; }
    }
  }

  /** The result is the last step's, with the outputs of all steps that ran, in order. */
  lemma AnswerIsTheLastStep(runs: seq<Run>)
    requires runs != []
    ensures var last := runs[|runs| - 1].outcome;
            Answer(runs) == CommandResult(last.passed, last.returncode, Joined(TailsOf(runs), "\n"),
                                          Joined(StdoutsOf(runs), ""))
  {
    OutputsAreJoined(runs);
  }

  /** The title is the head of every tail, as `run_argv` writes it. */
  ghost predicate TitlesTails(exec: Environment) {
    forall i: nat, argv, limit, title :: "$ " + title <= exec(i, argv, limit, title).tail
  }

  /** `s` ends in `t`. */
  predicate EndsIn(s: string, t: string) { |t| <= |s| && s[|s| - |t|..] == t }

  lemma LastCharsOfEnd(head: string, s: string, t: string)
    requires EndsIn(s, t)
    ensures EndsIn(head + LastChars(s), LastChars(t))
  {
  }

  lemma OneStepIsTitled(w: World, command: string, steps: Steps, deadline: real, start: real)
    requires [] !in steps && |steps| == 1 && TitlesTails(w.exec)
    ensures var runs := Chain(Labelled(w, command, steps), steps, 0, deadline, start);
            |runs| == 1 && "$ " + command <= runs[0].outcome.tail
  {
    assert steps[0] in steps;
  }

  /** The command, and behind it the last characters of what the steps said, four thousand at most. */
  ghost predicate ShowsEnd(tail: string, command: string, said: string) {
    var shown := if |said| <= 4000 then said else said[|said| - 4000..];
    tail == "$ " + command + "\n" + shown
  }

  lemma EndIsShown(command: string, said: string, last: string)
    requires EndsIn(said, last)
    ensures var tail := "$ " + command + "\n" + LastChars(said);
            ShowsEnd(tail, command, said) && "$ " + command <= tail && EndsIn(tail, LastChars(last))
  {
    LastCharsOfEnd("$ " + command + "\n", said, last);
    assert "$ " + command + "\n" <= "$ " + command + "\n" + LastChars(said);
  }

  lemma ChainIsTitled(command: string, steps: Steps, runs: seq<Run>)
    requires |steps| > 1 && runs != []
    ensures var tail := Shown(command, steps, Answer(runs)).tail;
            && ShowsEnd(tail, command, Joined(TailsOf(runs), "\n"))
            && "$ " + command <= tail && EndsIn(tail, LastChars(runs[|runs| - 1].outcome.tail))
  {
    var said := Tails(runs);
    assert said == Joined(TailsOf(runs), "\n") by { OutputsAreJoined(runs); }
    assert Answer(runs).tail == said;
    EndIsShown(command, said, runs[|runs| - 1].outcome.tail);
  }

  /** A gate "always says what ran and how it failed": the tail begins with the command and ends in the
      last characters of the last step's own tail; in between a chain shows what it can of the others. */
  lemma TailSaysWhatRan(w: World, command: string, steps: Steps, deadline: real, start: real)
    requires [] !in steps && steps != [] && TitlesTails(w.exec)
    ensures var runs := Chain(Labelled(w, command, steps), steps, 0, deadline, start);
            && runs != []
            && var tail := Shown(command, steps, Answer(runs)).tail;
               && "$ " + command <= tail && EndsIn(tail, LastChars(runs[|runs| - 1].outcome.tail))
               && if |steps| == 1 then |runs| == 1 && tail == runs[0].outcome.tail
                  else ShowsEnd(tail, command, Joined(TailsOf(runs), "\n"))
  {
    var runs := Chain(Labelled(w, command, steps), steps, 0, deadline, start);
    ChainLength(Labelled(w, command, steps), steps, 0, deadline, start);
    if |steps| == 1 {
      OneStepIsTitled(w, command, steps, deadline, start);
    } else {
      ChainIsTitled(command, steps, runs);
    }
  }

  // The time bound.

  /** The seconds that the steps run for. */
  function Seconds(runs: seq<Run>): real {
    if runs == [] then 0.0 else runs[0].outcome.seconds + Seconds(runs[1..])
  }

  /** When the last of the runs ends, the first of them being the `i`-th step. */
  function End(wait: nat -> real, runs: seq<Run>, i: nat, now: real): real {
    if runs == [] then now else End(wait, runs[1..], i + 1, EndOf(wait, i, runs[0], now))
  }

  /** The environment kills a step at its limit. */
  ghost predicate RespectsLimits(exec: Environment) {
    forall i: nat, argv, limit, title | limit >= 1 :: 0.0 <= exec(i, argv, limit, title).seconds <= limit as real
  }

  /** The clock never goes back. */
  ghost predicate Monotonic(wait: nat -> real) {
    forall i: nat :: wait(i) >= 0.0
  }

  /** The first run apart from the others. */
  lemma ChainStep(w: World, steps: Steps, i: nat, deadline: real, now: real) returns (run: Run, after: real)
    requires [] !in steps && i < |steps|
    ensures steps[i] != [] && run == RunOne(w, i, steps[i], deadline, now) && after == EndOf(w.wait, i, run, now)
    ensures var runs, rest := Chain(w, steps, i, deadline, now),
                              if run.outcome.passed then Chain(w, steps, i + 1, deadline, after) else [];
            && Seconds(runs) == run.outcome.seconds + Seconds(rest)
            && End(w.wait, runs, i, now) == End(w.wait, rest, i + 1, after)
  {
    assert steps[i] in steps;
    run := RunOne(w, i, steps[i], deadline, now);
    after := EndOf(w.wait, i, run, now);
    assert ([run] + Chain(w, steps, i + 1, deadline, after))[1..] == Chain(w, steps, i + 1, deadline, after);
  }

  /** What a step leaves of its limit goes to the next one, whose limit is a second more at most. */
  lemma LimitAfter(deadline: real, now: real, seconds: real, later: real)
    requires 0.0 <= seconds <= Limit(deadline, now) as real && now + seconds <= later
    ensures seconds + Limit(deadline, later) as real <= (Limit(deadline, now) + 1) as real
  {
  }

  /** From the `i`-th step on: the limit of the first, and a second for each of the others. */
  lemma {:induction false} ChainTime(w: World, steps: Steps, i: nat, deadline: real, now: real)
    requires [] !in steps && i < |steps| && RespectsLimits(w.exec) && Monotonic(w.wait)
    ensures Seconds(Chain(w, steps, i, deadline, now))
            <= (Limit(deadline, Reading(w.wait, i, now)) + |steps| - i - 1) as real
    decreases |steps| - i
  {
    var run, after := ChainStep(w, steps, i, deadline, now);
    if run.outcome.passed && i + 1 < |steps| {
      ChainTime(w, steps, i + 1, deadline, after);
      LimitAfter(deadline, Reading(w.wait, i, now), run.outcome.seconds, Reading(w.wait, i + 1, after));
    }
  }

  /** A chain of n steps takes at most n - 1 seconds more than its budget, and a budget counts as a
      second at least. */
  lemma ChainKeepsBudget(w: World, steps: Steps, timeout: int, start: real)
    requires steps != [] && [] !in steps && RespectsLimits(w.exec) && Monotonic(w.wait)
    ensures Seconds(Chain(w, steps, 0, start + timeout as real, start))
            <= ((if timeout > 1 then timeout else 1) + |steps| - 1) as real
  {
    ChainTime(w, steps, 0, start + timeout as real, start);
  }

  /** Every step passes and uses its whole limit. */
  function Slow(): Environment {
    (i: nat, argv: seq<string>, limit: int, title: string) => Outcome(true, Some(0), "", "", limit as real)
  }

  lemma SlowRespectsLimits()
    ensures RespectsLimits(Slow())
  {
  }

  /** When less than a second is left, every step is still given one, and takes it. */
  lemma {:induction false} SlowTail(w: World, steps: Steps, i: nat, deadline: real, now: real)
    requires [] !in steps && i <= |steps| && w.exec == Slow() && Monotonic(w.wait) && deadline - now < 1.0
    ensures Seconds(Chain(w, steps, i, deadline, now)) == (|steps| - i) as real
    ensures End(w.wait, Chain(w, steps, i, deadline, now), i, now) >= now + (|steps| - i) as real
    decreases |steps| - i
  {
    if i < |steps| {
      var run, after := ChainStep(w, steps, i, deadline, now);
      SlowTail(w, steps, i + 1, deadline, after);
    }
  }

  /** The slow chain: the first step takes its limit, to less than a second before the deadline. */
  lemma SlowChain(w: World, steps: Steps, deadline: real, start: real)
    requires steps != [] && [] !in steps && w.exec == Slow() && Monotonic(w.wait)
    ensures var runs, first := Chain(w, steps, 0, deadline, start), Reading(w.wait, 0, start);
            && Seconds(runs) == (Limit(deadline, first) + |steps| - 1) as real
            && End(w.wait, runs, 0, start) >= first + (Limit(deadline, first) + |steps| - 1) as real
  {
    var run, after := ChainStep(w, steps, 0, deadline, start);
    SlowTail(w, steps, 1, deadline, after);
  }

  /** "One budget for the whole chain", as the seconds that the steps run for: whatever they take within
      their limits, they keep the timeout if and only if there are no more steps than it has seconds, and
      not two more than the seconds that passed before the clock was first read. */
  lemma BudgetHoldsIff(w: World, steps: Steps, timeout: int, start: real)
    requires steps != [] && [] !in steps && Monotonic(w.wait)
    ensures (forall exec | RespectsLimits(exec) ::
               Seconds(Chain(w.(exec := exec), steps, 0, start + timeout as real, start)) <= timeout as real)
            <==> |steps| <= timeout && |steps| as real < w.wait(0) + 2.0
  {
    var deadline, first := start + timeout as real, Reading(w.wait, 0, start);
    assert Limit(deadline, first) + |steps| - 1 <= timeout
           <==> |steps| <= timeout && |steps| as real < w.wait(0) + 2.0;
    if Limit(deadline, first) + |steps| - 1 <= timeout {
      forall exec | RespectsLimits(exec)
        ensures Seconds(Chain(w.(exec := exec), steps, 0, deadline, start)) <= timeout as real
      {
        ChainTime(w.(exec := exec), steps, 0, deadline, start);
      }
    } else {
      SlowRespectsLimits();
      SlowChain(w.(exec := Slow()), steps, deadline, start);
    }
  }

  /** With less than a second before the first reading: one step, or two if any time passes at all. */
  lemma PromptBudgetHoldsIff(w: World, steps: Steps, timeout: int, start: real)
    requires steps != [] && [] !in steps && Monotonic(w.wait) && w.wait(0) < 1.0
    ensures (forall exec | RespectsLimits(exec) ::
               Seconds(Chain(w.(exec := exec), steps, 0, start + timeout as real, start)) <= timeout as real)
            <==> |steps| <= timeout && |steps| <= if w.wait(0) > 0.0 then 2 else 1
  {
    BudgetHoldsIff(w, steps, timeout, start);
  }

  /** As a deadline it holds, whatever the steps take within their limits, if and only if there is a
      single step and a second is left when the clock is read for it. */
  lemma DeadlineHoldsIff(w: World, steps: Steps, deadline: real, start: real)
    requires steps != [] && [] !in steps && Monotonic(w.wait)
    ensures (forall exec | RespectsLimits(exec) ::
               End(w.wait, Chain(w.(exec := exec), steps, 0, deadline, start), 0, start) <= deadline)
            <==> |steps| == 1 && Reading(w.wait, 0, start) + 1.0 <= deadline
  {
    if |steps| == 1 && Reading(w.wait, 0, start) + 1.0 <= deadline {
      forall exec | RespectsLimits(exec)
        ensures End(w.wait, Chain(w.(exec := exec), steps, 0, deadline, start), 0, start) <= deadline
      {
        var run, after := ChainStep(w.(exec := exec), steps, 0, deadline, start);
      }
    } else {
      SlowRespectsLimits();
      SlowChain(w.(exec := Slow()), steps, deadline, start);
    }
  }
}
