# Verified model of Repoach's core algorithms and protocols

Repoach reviews and merges code changes with the help of language models. Its guarantees rest on a
few small algorithms and protocols. This project models those in Dafny and proves what they keep,
for every input, every run and every interleaving. `dafny verify dfyconfig.toml` checks it all.

| module | models |
|---|---|
| `DependencyGraph`, `CycleWalk`, `CycleWalkLaws`, `CycleOrder`, `CycleListing` | the cycle detector over spec dependencies |
| `Ownership` | the longest-prefix owner resolver and the disjointness check |
| `AgentProtocol`, `Failover`, `ToolArgs`, `AgentLoop`, `AgentLoopLaws`, `LeakBlame` | the tool-using agent loop over an arbitrary provider, its one-shot failover and its argument check |
| `SchemaInit` | racing first creation of a SQLite schema |
| `CreditsCache` | the cache that coalesces concurrent fetches |
| `WriteBarrier` | the one-way gate of every forge write, from several threads |
| `LedgerMigration` | the ledger move that may die after any step |
| `Scoring`, `ScoreLaws`, `ScoreCounts` | scoring a recorded run against its corpus |
| `Jsonc`, `JsoncLaws` | the JSON-with-comments stripper |
| `RequiredChecks` | latest-wins classification of required checks |
| `PagedThreads` | reading every open review thread, page by page |
| `CommandChain` | the chained command runner |
| `Ordering`, `Basics` | total orders, options, results and JSON values |

A loop of the program is a method here, with the program's variables and branches, and is proved equal
to a function; what the program promises is proved about that function. An object the program updates
is a class. Concurrency is a sequence of atomic steps of any callers in any order. The provider, the
tools, other processes, the forges' servers and the spawned commands are arbitrary functions of the
world: they answer each numbered request as they like.

## Where the code and its documentation differ

The model follows the code. Each promise that fails comes with a theorem that says exactly when it
holds, and an input for which it does not.

- `Graph.cycles` promises every dependency cycle. It keeps that whatever the ids exactly when no
  dependency lies on two cycles (`EveryCycleListedIff`, `NotEveryCycleIsListed`); in general it lists an
  edge of each (`CyclesDetect`).
- `disjointness_violations` promises cross-spec overlaps. It also reports a spec that lists a resource
  twice (`NothingReportedIff`, `OwnRivalIsReported`).
- `strip_jsonc` says that string literals are respected. The comment scan does; the final comma
  substitution reaches into literals (`LiteralsRespectedIff`, `CommaInLiteralIsDropped`).
- Iteration order is said never to decide a required check. It decides between runs with one start time
  that disagree (`OrderNeverDecidesIff`, `TiedRunsAreDecidedByOrder`).
- Five attempts are said to cover the schema comfortably. They cover five tables and no more
  (`AlwaysConvergesIff`, `RivalWinsEveryTime`).
- A raise of the schema creation is said to mean that a table is still absent. It may also mean that the
  inspection itself failed (`RaiseMeansAbsentIff`, `RaisesWithEveryTable`).
- The copied ledger is called verified. Only integrity and the row counts of each table are compared
  (`VerifiedMovesKeepLedgerIff`, `Miscopy`).
- A command's timeout is called one budget for the whole chain. Every step is given a second at least,
  so that only a single step is sure to end by the deadline (`DeadlineHoldsIff`); how many steps can be
  run within the seconds of the budget depends on when the clock is first read (`BudgetHoldsIff`).
- Closing the barrier is said to refuse every write from now on. Writes admitted before still run
  (`ClosingRefusesEveryWriteIff`, `ClosingRefusesEveryWriterIff`, `InsiderStillWrites`), and two threads
  may be logged in another order than they are recorded in (`LogFollowsRecordIff`, `LogOrderMayDiffer`).
- The loop is said to skip a repeatedly leaking model. It may skip one for a single leak after another
  model's, in the next turn or in the wrap-up (`OnlyRepeatersAreSkippedIff`, `SkippedForOneLeak`).
- A reviewer row's recall is taken for a ratio. It is one for the known reviewers
  (`ReviewerRecallIff`, `StrangerExceedsRecall`).

## Model

| member | source | states |
|---|---|---|
| `CycleWalk.Cycles` | src/repoach/arch/graph.py:21-55 | The walk from every node in order terminates, and its listing is one function of the graph and the order of its ids |
| `CycleWalkLaws.CyclesDetect` | src/repoach/arch/graph.py:21-55 | What that listing is: every entry a simple cycle of real edges from its smallest id on, sorted without repeats; every closed walk over known specs uses an edge of an entry; and every entry descends one spanning forest of graph edges, rooted at the first spec in order, but for its last edge |
| `CycleOrder.WalkIsOrdered` | src/repoach/arch/graph.py:35-55 | The forest the cycles descend is the one of the sorted order: the specs first met from one spec, and the roots, are finished in the order of their ids |
| `Ordering.StringsCompare` | src/repoach/arch/graph.py:41-52 | The order in which ids are sorted: a prefix comes first, and otherwise the first character that differs decides |
| `CycleWalk.Walker.Walk` | src/repoach/arch/graph.py:37-49 | The recursive `walk` changes the four shared collections as the walk function says, and restores the path |
| `CycleWalk.Walker.FollowAll` | src/repoach/arch/graph.py:41-47 | The loop over the sorted targets, one step of the function each |
| `CycleWalk.Walker.Follow` | src/repoach/arch/graph.py:42-47 | Unknown target skipped, back edge closed into a cycle in normal form, unvisited target walked, any other skipped |
| `CycleWalkLaws.CloseKeepsSound` | src/repoach/arch/graph.py:44-45 | The path suffix closed by a back edge is a simple cycle through that edge, and recording it keeps the walk's invariant |
| `CycleWalkLaws.PushKeepsSound` | src/repoach/arch/graph.py:38-40 | A node met goes on the path and into the forest: `active` stays a duplicate-free path with `on_path` as its set |
| `CycleWalkLaws.PopKeepsSound` | src/repoach/arch/graph.py:48-49 | A node whose targets were all followed is finished: each of its edges goes to a node finished earlier or lies on a recorded cycle |
| `CycleWalkLaws.WalkKeepsSound` | src/repoach/arch/graph.py:37-49 | The recursive walk keeps path, colours, finishing order, recorded cycles and spanning forest |
| `DependencyGraph.EveryWalkMeetsACycle` | src/repoach/arch/graph.py:37-49 | Completeness by finishing order: on a closed walk the node finished first has an edge that only a recorded cycle explains |
| `DependencyGraph.NormaliseIsCanonical` | src/repoach/arch/graph.py:58-61 | The normal form is a rotation that starts at the smallest id |
| `DependencyGraph.CanonicalIsUnique` | src/repoach/arch/graph.py:58-61 | Two normal forms that are rotations of each other are equal |
| `DependencyGraph.FinishedWalkDetects` | src/repoach/arch/graph.py:52-55 | When the walk is over, what was recorded is the whole promise of the detector |
| `CycleListing.EmptyIffAcyclic` | src/repoach/arch/graph.py:33-34 | The listing is empty exactly when the graph of known specs has no cycle |
| `CycleListing.NoCycleTwice` | src/repoach/arch/graph.py:26-27 | No two listed cycles are rotations of each other |
| `CycleListing.CoveredCycleIsListed` | src/repoach/arch/graph.py:21-27 | A simple cycle all of whose edges lie on listed cycles is itself listed |
| `CycleListing.CompleteIffCovering` | src/repoach/arch/graph.py:21-27 | The listing is every cycle exactly when it touches every edge that lies on one |
| `CycleListing.SharedEdgeLosesOne` | src/repoach/arch/graph.py:21-27 | Of two cycles that share an edge, one is not listed when the edge's target is the first spec in order |
| `CycleListing.EveryCycleListedIff` | src/repoach/arch/graph.py:21-27 | "Every dependency cycle" is listed, whatever the order of the ids, if and only if no dependency lies on two different cycles |
| `CycleListing.NotEveryCycleIsListed` | src/repoach/arch/graph.py:21-27 | The promise of every cycle fails: in the program's own order of ids the listing of two opposite triangles misses one |
| `Ownership.ContainersAreComparable` | src/repoach/arch/registry.py:207-210 | Two owned paths that contain one artifact contain one another |
| `Ownership.PathContainsIff` | src/repoach/arch/registry.py:207-210 | The two string tests hold exactly when the segments of the owned path, but for trailing slashes, are a prefix of those of the artifact: a directory never owns a sibling whose name merely begins alike |
| `Ownership.IsResourceIff` | src/repoach/arch/registry.py:277-277 | What counts as a resource name rather than a path, by its three prefixes |
| `Ownership.OwnerOf` | src/repoach/arch/registry.py:264-290 | The first owner of a resource; for a path, by whole directories, the owner of the first longest owned prefix; nobody only when nobody owns it |
| `Ownership.ResolvedOwns` | src/repoach/arch/registry.py:264-290 | The answer owns the artifact, and no answer means no spec owns it |
| `Ownership.ResolvedIsDeepest` | src/repoach/arch/registry.py:264-290 | The path that decides is the deepest: it lies under every other owned path that holds the artifact |
| `Ownership.DisjointnessViolations` | src/repoach/arch/registry.py:292-318 | The loops report resources claimed more than once, in order, then the overlapping pairs of paths, in order |
| `Ownership.ReportedIdsAscend` | src/repoach/arch/registry.py:298-317 | Every conflict names its specs as a sorted tuple |
| `Ownership.SharedPathIsReported` | src/repoach/arch/registry.py:304-317 | Two specs that own a common path are reported together, with such a path |
| `Ownership.ReportedPathIsShared` | src/repoach/arch/registry.py:304-317 | Every path in the report lies under paths of two different specs |
| `Ownership.PairsAreReportedInOrder` | src/repoach/arch/registry.py:304-317 | The path conflicts are the pairs of owned paths of different specs of which one lies under the other, once each and in the order of the paths, each naming both specs and the deeper path |
| `Ownership.RivalryIsReportedIff` | src/repoach/arch/registry.py:295-303 | A resource conflict is reported if and only if the resource is listed more than once, and it names all its listings |
| `Ownership.ResourcesAreReportedInOrder` | src/repoach/arch/registry.py:295-303 | Each such resource is reported once, in the order of the names |
| `Ownership.NothingReportedIff` | src/repoach/arch/registry.py:292-318 | Nothing is reported if and only if no path lies under two specs and every resource is listed at most once over all specs |
| `Ownership.OwnRivalIsReported` | src/repoach/arch/registry.py:295-303 | Not only cross-spec overlaps: one spec that lists a resource twice is reported as its own rival |
| `Ownership.AtMostOneOwner` | src/repoach/arch/registry.py:264-318 | With nothing reported, at most one spec owns any artifact |
| `Ownership.OwnerIgnoresOrder` | src/repoach/arch/registry.py:264-290 | With nothing reported, the resolver answers that spec whatever the iteration order |
| `Failover.RunOneshot` | src/repoach/agent_engine/agent_loop.py:546-624 | The failover loop is the session function: one unchanged message, a growing skip set, a defensive stop on an empty or repeated model |
| `Failover.SkipSetGrowsByOne` | src/repoach/agent_engine/agent_loop.py:595-613 | For any provider, each continued iteration skips exactly one model more, the one just rejected and not skipped before |
| `Failover.CallsAreBounded` | src/repoach/agent_engine/agent_loop.py:547-551 | For any provider at most twenty calls, the k-th with k models skipped |
| `Failover.EveryCallAsksThePrompt` | src/repoach/agent_engine/agent_loop.py:553-594 | Every call of a session sends the one prompt, offers no tools and skips what was rejected before; it is the provider call of its number, and the session goes on only past an answer of a new named model that was not accepted |
| `Failover.SessionEnds` | src/repoach/agent_engine/agent_loop.py:595-624 | How a session ends, for any provider: with the accepted last answer, with the error of the failed last call, empty-handed at a nameless or repeated model, or after twenty calls |
| `Failover.FirstAcceptedWins` | src/repoach/agent_engine/agent_loop.py:487-624 | For a provider that serves its chain, repetitions and answers that name no model included, the failover returns the first accepted of the different candidates up to the first nameless one and twenty at most, and ends without one exactly when there is none; giving up has skipped all the named ones |
| `AgentLoop.CallTurnWithRetry` | src/repoach/agent_engine/agent_loop.py:626-697 | The bounded retry loop is the recursive call of one turn |
| `AgentLoop.Dispatch` | src/repoach/agent_engine/agent_loop.py:837-923 | The loop over the tool calls is the function whose meaning `EveryToolCallIsAnswered` states over whole runs: every name logged, whichever branch handled it |
| `AgentLoop.TakeTurn` | src/repoach/agent_engine/agent_loop.py:751-937 | One turn of the loop with its leak, answer and tool branches is one step of the run |
| `AgentLoop.FinishWithoutTools` | src/repoach/agent_engine/agent_loop.py:945-1014 | The wrap-up and its one retry past leaked markup |
| `AgentLoop.RunLoop` | src/repoach/agent_engine/agent_loop.py:728-1014 | The whole run, the one-shot case without tools included |
| `AgentLoopLaws.CallTurnAttempts` | src/repoach/agent_engine/agent_loop.py:664-697 | One to three calls of one request: only transport errors and exhausted chains are tried again, and only such an error after three attempts, or any other at once, is raised |
| `AgentLoopLaws.FeedbackAnswers` | src/repoach/agent_engine/agent_loop.py:837-937 | The feedback message answers every tool call of the reply exactly once, in order, with the budget notice or without |
| `AgentLoopLaws.EveryToolCallIsAnswered` | src/repoach/agent_engine/agent_loop.py:837-937 | In every run, and for every reply heard while tools were offered, the next message answers its j-th tool call with the error for an unknown tool, with the fault of arguments that do not conform, or with what that tool returned, cut at 8000 characters, or raised, when it was run with those arguments as the n-th tool call of the run; stated over the requests and replies alone |
| `AgentLoopLaws.EveryCallConverses` | src/repoach/agent_engine/agent_loop.py:733-1003 | At every call of every run with tools offered the conversation starts and ends with the user, alternates, holds what was heard in order and answers every tool call in the next message; the wrap-up stays paired but never alternates, and its retry is paired exactly when the leaking wrap-up made no tool call; exactly the models blamed for a leak are skipped, and by the retry the one that leaked the wrap-up |
| `AgentLoopLaws.EveryRunOnlyGrows` | src/repoach/agent_engine/agent_loop.py:733-1003 | From each call of a run to the next the conversation is extended and the skip set grows |
| `AgentLoopLaws.EveryRunAsksThePrompt` | src/repoach/agent_engine/agent_loop.py:733-760 | The first call asks the prompt, as the only message, with tools offered and nothing skipped |
| `AgentLoopLaws.ToollessRunIsOneCall` | src/repoach/agent_engine/agent_loop.py:733-760 | Without tools the run is one call with the prompt, and its reply or failure is the outcome |
| `AgentLoopLaws.EveryCallIsRecorded` | src/repoach/agent_engine/agent_loop.py:465-485 | Each entry of the usage ledger is the provider call of its own number, failures included; at most three for each turn and two more |
| `AgentLoopLaws.EveryAnswerIsAccountedFor` | src/repoach/agent_engine/agent_loop.py:733-1014 | The answer's text, tool names in turn order, tokens of all replies, last named model and turn count are those of the ledger, every tool call heard is named once, and an answer inside the loop carries no tool call, real or leaked |
| `AgentLoopLaws.EveryReplyDecides` | src/repoach/agent_engine/agent_loop.py:766-1003 | Over the whole ledger: a run goes on after a reply exactly when that carries a tool call, real or leaked, while tools are offered, and past a leaking wrap-up once; any other reply is its answer |
| `AgentLoopLaws.EveryFailureIsTheLastCalls` | src/repoach/agent_engine/agent_loop.py:664-697 | A run that raises raises its last call's error, a retried one only after three such failures of the same request |
| `AgentLoopLaws.EveryFailureIsRetriedOrLast` | src/repoach/agent_engine/agent_loop.py:664-697 | Over the whole ledger: a failed call is the last one, or it failed transiently and the next call repeats its request |
| `AgentLoopLaws.LeakKeepsSkips` | src/repoach/agent_engine/agent_loop.py:766-804 | The counter that is reset and counted up keeps the skip set exact: a model is in it if and only if it is named by a leak that follows a leak not blamed itself |
| `AgentLoopLaws.SkippedForTwoLeaks` | src/repoach/agent_engine/agent_loop.py:766-804 | A skipped model made the second of two leaks in a row, and a named model that made both is skipped |
| `LeakBlame.SkippedForOneLeak` | src/repoach/agent_engine/agent_loop.py:766-968 | A run in which two models leak once each and the next request, of a turn or of the wrap-up, skips the second |
| `LeakBlame.OnlyRepeatersAreSkippedIff` | src/repoach/agent_engine/agent_loop.py:766-968 | Only models that leaked twice running are skipped, at every request of every run of a provider but the retry past a leaking wrap-up, if and only if the provider has a single model or the run at most one turn |
| `AgentLoopLaws.OnlyConformingArgumentsReachTools` | src/repoach/agent_engine/agent_loop.py:863-898 | A result that is ok came from a known tool on conforming arguments, its text cut at 8000 characters |
| `AgentLoopLaws.ToolIsRunIff` | src/repoach/agent_engine/agent_loop.py:837-923 | What a tool does, returning or raising, shows in the result if and only if the tool is known and the arguments conform to its schema |
| `ToolArgs.ValidateToolArgs` | src/repoach/agent_engine/agent_loop.py:281-343 | The checks in their order, with the first failure as the reason |
| `ToolArgs.AcceptsIffMeans` | src/repoach/agent_engine/agent_loop.py:321-341 | Python's instance tests with the boolean case apart decide exactly the declared JSON type |
| `ToolArgs.NothingRejectedIffConforms` | src/repoach/agent_engine/agent_loop.py:281-343 | Arguments pass exactly when they are a serialisable object within the size cap with all required keys, no unknown key under a closed schema, and every typed argument of a declared type; and they are rejected for a reason exactly when it is their first fault |
| `ToolArgs.RejectionIsFirstFault` | src/repoach/agent_engine/agent_loop.py:281-343 | The reason given is the first fault in the order shape, size, missing keys, unknown keys, types, and within each in the order of the schema or of the arguments |
| `ToolArgs.FaultIsUnique` | src/repoach/agent_engine/agent_loop.py:281-343 | There is one first fault, and none in arguments that conform |
| `AgentProtocol.ContentIsRead` | src/repoach/agent_engine/agent_loop.py:205-262 | The text of a reply is that of its text blocks, end to end, and its tool calls are its blocks of that kind, in order |
| `SchemaInit.Engine.EnsureSchemaCreated` | src/repoach/core/sqlite_schema_init.py:61-123 | The bounded retry loop against a database that others change before every statement is the specified sequence of attempts |
| `SchemaInit.Engine.CreateAllTables` | src/repoach/core/sqlite_schema_init.py:109-112 | One `create_all` with `checkfirst`: check, create what is missing in order, fail on a table that appeared meanwhile |
| `SchemaInit.Engine.AllPresent` | src/repoach/core/sqlite_schema_init.py:118-121 | The final inspection, table by table, which may fail itself |
| `SchemaInit.CallOutcome` | src/repoach/core/sqlite_schema_init.py:84-123 | Under any interleaving a normal return means every table exists, a raise means one was absent when inspected or a statement of the inspection failed, and every lost race hit a different table |
| `SchemaInit.OnlyDeclaredTablesAreCreated` | src/repoach/core/sqlite_schema_init.py:84-123 | A table that is there afterwards was there before, was declared, or was created by another process |
| `SchemaInit.FaultsUsed` | src/repoach/core/sqlite_schema_init.py:84-123 | Each attempt that failed without losing a race, and a failed inspection, is a failure of a statement of its own |
| `SchemaInit.RaisesWithEveryTable` | src/repoach/core/sqlite_schema_init.py:93-105 | A raise with every table there: as many lost races as there can be, then one failing statement for each attempt left and for the inspection |
| `SchemaInit.RaiseMeansAbsentIff` | src/repoach/core/sqlite_schema_init.py:93-105 | A raise means that a table is absent, whatever the races and with at most k statements failing of their own, if and only if k is zero or k and the tables are at most five together |
| `SchemaInit.FiveTablesConverge` | src/repoach/core/sqlite_schema_init.py:84-123 | When all errors are lost races and there are at most five tables, the call returns |
| `SchemaInit.RivalWinsEveryTime` | src/repoach/core/sqlite_schema_init.py:48-58 | With six or more tables a rival one step ahead makes the call raise |
| `SchemaInit.AlwaysConvergesIff` | src/repoach/core/sqlite_schema_init.py:48-58 | The call returns under every interleaving of lost races if and only if there are at most five tables |
| `CreditsCache.HitIffYoung` | src/repoach/health/credits.py:67-79 | In every run the cache answers with the last fetch's answer exactly while that is younger than the caller's limit, sixty seconds at most for a failure |
| `CreditsCache.CreditsProbe.TakeLock` | src/repoach/health/credits.py:95-99 | The second lookup under the lock keeps the lock only for a fetch |
| `CreditsCache.CreditsProbe.Complete` | src/repoach/health/credits.py:101-108 | A fetch's answer replaces the three globals together |
| `CreditsCache.CreditsProbe.Reset` | src/repoach/health/credits.py:111-116 | Reset empties the three globals |
| `CreditsCache.EntersAndIsServedOrWaits` | src/repoach/health/credits.py:82-95 | In a reachable state a caller that enters is answered at once while the last answer is young enough for it, and queues otherwise |
| `CreditsCache.TakesLockAndIsServedOrFetches` | src/repoach/health/credits.py:95-106 | A waiting caller that gets the free lock takes the last answer while that is young, and otherwise starts exactly one fetch with its own limit and keeps the lock |
| `CreditsCache.CompletesAndIsServed` | src/repoach/health/credits.py:101-108 | The fetch answers its own caller with its result, whatever that is, becomes the last answer and frees the lock |
| `CreditsCache.RunSparesFetch` | src/repoach/health/credits.py:82-108 | While a fetch is in flight nothing that others do touches it or starts another |
| `CreditsCache.MissIsFetchedAndAnswered` | src/repoach/health/credits.py:82-108 | End to end, in every run: a caller that takes the lock with no young answer there starts exactly one fetch, and when that completes, whatever others did meanwhile, the caller is answered with its result and the lock is free |
| `CreditsCache.AnswersAge` | src/repoach/health/credits.py:67-79 | After some quiet time a caller is answered on entry exactly while the last answer is younger than its limit even then |
| `CreditsCache.StepKeepsGood` | src/repoach/health/credits.py:82-108 | Each segment between two awaits, of any caller, keeps the run invariant |
| `CreditsCache.EveryRunIsGood` | src/repoach/health/credits.py:67-108 | Over all interleavings: at most one fetch in flight, fetches spaced by the later caller's limit (sixty seconds at most after a failure), every answer an own fetch or one younger than its limit, the globals coherent |
| `CreditsCache.WaitersShareTheFetch` | src/repoach/health/credits.py:82-108 | A caller queued behind a fetch takes its answer and starts none, as long as that answer is younger than its limit |
| `WriteBarrier.ForgeWriteBarrier.Close` | src/repoach/forge/protocol.py:359-363 | Closing is one-way: the first reason stays |
| `WriteBarrier.ForgeWriteBarrier.RefuseIfClosed` | src/repoach/forge/protocol.py:365-373 | Open lets pass and changes nothing; closed records and logs one refusal |
| `WriteBarrier.ForgeWriteBarrier.RequireAdmitted` | src/repoach/forge/protocol.py:386-396 | A writing argv needs an admission, a reading one does not |
| `WriteBarrier.ForgeWriteBarrier.Write` | src/repoach/forge/github.py:629-658 | Undisturbed, a write is refused or spawned by the barrier's state alone, and every thread's depth is restored even when the spawn raises |
| `WriteBarrier.UndisturbedWrite` | src/repoach/forge/gitlab.py:514-535 | The atomic steps of one write, run without interference, do what the method does |
| `WriteBarrier.UndisturbedCheckOutcome` | src/repoach/forge/protocol.py:365-373 | An undisturbed check changes nothing but the clock while the barrier is open, and records and logs one refusal once it is closed |
| `WriteBarrier.RunSpawnsUnlessBypass` | src/repoach/forge/protocol.py:386-396 | In every run an argv is spawned at once, with the admissions it ran in, except a writing one outside any admission, which is reported as a bypass and not spawned |
| `WriteBarrier.ClosingTakesEffect` | src/repoach/forge/protocol.py:359-363 | In every run the first closing sets the reason and the time, a later one nothing |
| `WriteBarrier.EveryRunIsGood` | src/repoach/forge/protocol.py:337-396 | Over all interleavings of threads: depth counts the open admissions and each restores the one below, each admission found the barrier open, one reason only is ever logged |
| `WriteBarrier.ClosingIsForGood` | src/repoach/forge/protocol.py:359-363 | Once closed, the reason never changes again, whatever follows |
| `WriteBarrier.WritesRunAdmitted` | src/repoach/forge/protocol.py:375-396 | Every writing argv that reached the spawn ran inside an admission of its own thread whose check came before the closing |
| `WriteBarrier.RefusalsAccounted` | src/repoach/forge/protocol.py:365-373 | Each thread's attempts that saw the barrier closed are recorded once and logged once, in its order |
| `WriteBarrier.LogOrderMayDiffer` | src/repoach/forge/protocol.py:365-373 | A run of two threads whose log does not follow the record |
| `WriteBarrier.LogFollowsRecordIff` | src/repoach/forge/protocol.py:365-373 | The log follows the record over all runs of some attempting threads if and only if there are no two of them |
| `WriteBarrier.ClosingRefusesEveryWriteIff` | src/repoach/forge/protocol.py:359-396 | "Refuse every write from now on": no write is spawned after the closing, whatever follows, if and only if no thread is then past an open check or inside an admission |
| `WriteBarrier.ClosingRefusesEveryWriterIff` | src/repoach/forge/github.py:651-658 | Of writers that make one run in each admission, as both forges do, none spawns a write after the closing if and only if no thread is then past an open check or inside an admission without its run made |
| `LedgerMigration.FileSystem.CopyVerified` | src/repoach/cli/migrate_cmds.py:186-216 | Fill the staging file and compare integrity and row counts table by table, dying after any step |
| `LedgerMigration.FileSystem.MigrateLedger` | src/repoach/cli/migrate_cmds.py:219-274 | The refusals in their order, then the file-system steps of the move, dying after any of them |
| `LedgerMigration.MovesIff` | src/repoach/cli/migrate_cmds.py:219-274 | A run moves if and only if there is a legacy file, no destination, no holder, no dry run and a free lock; otherwise the disk stays as it is and the outcome is the first of these that fails. A moving run dies, refuses a damaged copy or one of another shape, or is through, by the step it dies after and the copy alone |
| `LedgerMigration.MoveLeaves` | src/repoach/cli/migrate_cmds.py:252-270 | What a moving run leaves on the disk, after each step it may die after, on a refused copy and at its end |
| `LedgerMigration.ReadersSwitchOnce` | src/repoach/core/paths.py:363-410 | After any prefix of the steps the resolved path holds the old ledger, or, from the unlink on, the verified copy |
| `LedgerMigration.MigrationKeepsCounts` | src/repoach/core/paths.py:363-410 | Whatever copy SQLite makes, after any prefix of the steps every table is there with its number of rows |
| `LedgerMigration.MigrationKeepsLedger` | src/repoach/core/paths.py:363-410 | When the backup copies, after any prefix of the steps the resolved path holds the complete ledger |
| `LedgerMigration.CopyIsRefusedIff` | src/repoach/cli/migrate_cmds.py:186-216 | An undisturbed run accepts exactly the copies with the same tables and the same number of rows in each |
| `LedgerMigration.VerifiedMovesKeepLedgerIff` | src/repoach/cli/migrate_cmds.py:186-216 | The comparison vouches for the move, whatever copy passes it, if and only if the ledger holds no row |
| `LedgerMigration.Miscopy` | src/repoach/cli/migrate_cmds.py:186-216 | For any ledger with a row, another one that the comparison cannot tell from it |
| `LedgerMigration.NoRowCountIsEverLost` | src/repoach/cli/migrate_cmds.py:219-274 | Over any sequence of migrations, deaths, refusals, copies of any kind and writes in between, the resolved ledger has the tables and row numbers of the old one and every row written since |
| `LedgerMigration.NoRowIsEverLost` | src/repoach/cli/migrate_cmds.py:219-274 | With backups that copy, it is the old ledger and every row written since |
| `LedgerMigration.WhatARunLeaves` | src/repoach/cli/migrate_cmds.py:235-270 | What the next run meets: up to the filled staging file it completes the move; after a death between rename and unlink every run refuses and changes nothing; after a later one, or a completed move, none finds anything to do |
| `Scoring.AddFindings` | src/repoach/bench/score.py:240-258 | The counting loop over the findings updates total, reviewer row and severity row alike |
| `Scoring.PostedOn` | src/repoach/bench/score.py:201-208 | The findings that overlap the defect, in order |
| `Scoring.ScoreDefect` | src/repoach/bench/score.py:259-290 | A defect is pending, missed or found, and the counters follow |
| `Scoring.ScoreResult` | src/repoach/bench/score.py:223-309 | The nested loops compute the scorecard function |
| `ScoreCounts.FindingCountersAreExact` | src/repoach/bench/score.py:90-106 | In the total, in each reviewer row and in each severity row, each of the six counters is the number of findings there, of runs not skipped, with that label and that final status |
| `ScoreCounts.DefectCountersAreExact` | src/repoach/bench/score.py:259-290 | Planted, located and pending defects in all, and planted and found ones in total and by severity, are the numbers of defects that fare so in some run that was not skipped |
| `ScoreCounts.OverlapsIff` | src/repoach/bench/score.py:201-208 | A finding overlaps a defect exactly when they have a line of one file in common |
| `ScoreCounts.KnownRowsAreThere` | src/repoach/bench/score.py:215-220 | Every known reviewer and severity has a row, counted or not |
| `ScoreCounts.LinesAreRuns` | src/repoach/bench/score.py:239-291 | One line for each run, in order, with what it planted and found, skipped runs marked |
| `ScoreCounts.UnlabelledAreListed` | src/repoach/bench/score.py:240-258 | Listed as waiting for a label are exactly the unlabelled findings of runs not skipped, in the order of the runs and of their findings |
| `ScoreCounts.AllMatchedIff` | src/repoach/bench/score.py:248-251 | The labelled fingerprints found again are at most those expected, and all of them exactly when every run not skipped met all of its case |
| `ScoreLaws.ScoreIsConserved` | src/repoach/bench/score.py:223-309 | The severity table sums to the total and the reviewer table to its finding counters; planted and pending make up the planted total; found is at most located and at most planted, in total and by severity; known reviewers' rows carry the planted defects |
| `ScoreLaws.EveryFindingCountedOnce` | src/repoach/bench/score.py:240-258 | The six finding counters add up to the findings of the runs that were not skipped |
| `ScoreLaws.ReviewerIsCredited` | src/repoach/bench/score.py:259-290 | A reviewer's row counts exactly the planted defects its own true, unrefuted findings overlap |
| `ScoreLaws.ReviewerRecallIff` | src/repoach/bench/score.py:124-126 | A reviewer row's recall is a proper ratio if and only if the reviewer is a known one, or no such finding of theirs exists |
| `ScoreLaws.StrangerExceedsRecall` | src/repoach/bench/score.py:124-126 | One true finding of an unknown reviewer: one found of none planted |
| `ScoreLaws.LabellingIsMonotone` | src/repoach/bench/score.py:240-290 | Labelling more of a run never loses a found defect, never leaves more pending and never counts fewer labelled findings |
| `Jsonc.RemoveComments` | src/repoach/gates/typescript.py:79-98 | The index-driven loop computes the scan |
| `Jsonc.ScanKeepsTokens` | src/repoach/gates/typescript.py:79-98 | The output's tokens are the input's without comments: literals verbatim and in order, no comment left, none made by a deletion |
| `JsoncLaws.ScanOnlyTakesOut` | src/repoach/gates/typescript.py:79-98 | The output is a subsequence of the input's characters |
| `Jsonc.ScanIsIdempotent` | src/repoach/gates/typescript.py:79-98 | Scanning twice is scanning once |
| `JsoncLaws.ScanIsLexer` | src/repoach/gates/typescript.py:79-98 | The index-hopping loop removes what a one-character-at-a-time lexer calls a comment |
| `JsoncLaws.OnlyTrailingCommasDrop` | src/repoach/gates/typescript.py:67-99 | The final substitution takes out the commas before blanks and a closing bracket or brace, and nothing else |
| `JsoncLaws.ClosesIff` | src/repoach/gates/typescript.py:67-99 | What counts as such an end: any number of blanks, then one of the two closing characters |
| `JsoncLaws.LiteralsRespectedIff` | src/repoach/gates/typescript.py:67-99 | "String literals are respected" if and only if no literal contains a comma before a closing bracket |
| `JsoncLaws.CommaInLiteralIsDropped` | src/repoach/gates/typescript.py:67-99 | A literal that is not respected |
| `RequiredChecks.LatestByName` | src/repoach/forge/github.py:238-247 | The first loop keeps each name's latest run |
| `RequiredChecks.ClassifyRequiredChecks` | src/repoach/forge/github.py:221-265 | The second loop classifies each required name by that run |
| `RequiredChecks.BucketsReturned` | src/repoach/forge/github.py:248-265 | The three lists are the failed, pending and missing names, in required order, failures labelled |
| `RequiredChecks.EachNameInOneBucket` | src/repoach/forge/github.py:248-265 | The four buckets are a partition of the required names, repetitions included |
| `RequiredChecks.SuccessIff` | src/repoach/forge/github.py:268-281 | The state is success exactly when every required latest run succeeded |
| `RequiredChecks.VerdictIsClosed` | src/repoach/forge/github.py:248-265 | A run fails closed: only the three good conclusions succeed, it is waited for only without a known conclusion and under way or with none at all, and all else has failed |
| `RequiredChecks.StateIs` | src/repoach/forge/github.py:268-281 | One failed check fails the whole; a missing one shows only when nothing failed and none is pending |
| `RequiredChecks.LatestIsTop` | src/repoach/forge/github.py:238-247 | The run that counts is one no other run of its name started after |
| `RequiredChecks.OrderNeverDecidesIff` | src/repoach/forge/github.py:221-247 | No permutation of the rollup changes a verdict if and only if the runs sharing the latest start time agree |
| `RequiredChecks.OlderRunsNeverCount` | src/repoach/forge/github.py:221-247 | Runs that started earlier change nothing, wherever they are slipped in |
| `RequiredChecks.TiedRunsAreDecidedByOrder` | src/repoach/forge/github.py:221-247 | Two runs with one start time: the listing order decides |
| `PagedThreads.UnresolvedThreadsFromDiscussions` | src/repoach/forge/gitlab.py:351-400 | The fold over discussions keeps the open ones and raises on a malformed one |
| `PagedThreads.UnresolvedThreads` | src/repoach/forge/gitlab.py:674-701 | The paging loop reads page by page up to the cap |
| `PagedThreads.ReadAllIsExact` | src/repoach/forge/gitlab.py:351-400 | A listing is read whole or not at all: exactly its open entries, or an error |
| `PagedThreads.SuccessIsExact` | src/repoach/forge/gitlab.py:674-701 | Whatever the server: a read that succeeds has read non-empty pages to an empty one, every discussion well formed, and answers the open ones of that whole listing |
| `PagedThreads.ListingIsReadIff` | src/repoach/forge/gitlab.py:674-701 | On pages of any sizes the read succeeds exactly when there are at most 49 of them and every discussion is well formed |
| `PagedThreads.FailureIsTheFirstFault` | src/repoach/forge/gitlab.py:674-701 | A read that raises names the first thing wrong: the page that was not answered, that is no list, whose first malformed discussion it names, or the cap, every page before having been read whole |
| `PagedThreads.ThreadIsReadBack` | src/repoach/forge/gitlab.py:351-400 | A thread written as the forge writes it, on either side and with any replies, is read back whole while it is resolvable and open, and else skipped |
| `PagedThreads.PagedReadIsExact` | src/repoach/forge/gitlab.py:674-701 | On full pages of a hundred that bound is 4900 discussions |
| `PagedThreads.UnresolvedThreadsFromGitHub` | src/repoach/forge/github.py:359-423 | The fold over slurped pages raises on a bad page and on a last page that announces another |
| `PagedThreads.SlurpedReadIsExact` | src/repoach/forge/github.py:382-423 | The fold succeeds exactly on well-formed complete pages, and answers the unresolved nodes of all of them |
| `PagedThreads.NodeIsReadBack` | src/repoach/forge/github.py:359-423 | The same for a review thread node, outdated ones included |
| `PagedThreads.PageCountsIff` | src/repoach/forge/github.py:382-423 | A page counts exactly when it carries nodes and a word on what follows and no errors beside, and those are what is read of it |
| `PagedThreads.PageFaultIs` | src/repoach/forge/github.py:382-423 | What is wrong with a page that does not count, the first of four faults |
| `CommandChain.SplitSteps` | src/repoach/gates/commands.py:175-209 | The loop over the words computes the steps or the first error |
| `CommandChain.SplitIffJoin` | src/repoach/gates/commands.py:175-209 | Splitting and joining with `&&` are inverse on runnable steps, and nothing else is accepted |
| `CommandChain.RefusalIsFirstOffence` | src/repoach/gates/commands.py:175-209 | A command line is refused for its first offending word, and without one only for an empty step |
| `CommandChain.AssignmentIff` | src/repoach/gates/commands.py:35-35 | A leading word is taken for an assignment exactly when it is a name of letters, digits and underscores, no digit first, with an equals sign behind it |
| `CommandChain.RunCommand` | src/repoach/gates/commands.py:212-248 | The refusals, which run nothing and say why, the run of the chain against its deadline with the clock read before every step, and the titles and tails of one step and of several |
| `CommandChain.ChainStopsAtFailure` | src/repoach/gates/commands.py:234-247 | Steps run in order, each as its own words, a relative script path taken from the root, under the seconds then left, and none after a failure; the command passes exactly when every step ran and passed |
| `CommandChain.AnswerIsTheLastStep` | src/repoach/gates/commands.py:240-248 | The result is the last step that ran: its status and return code, with the tails and outputs of all steps in order |
| `CommandChain.TailSaysWhatRan` | src/repoach/gates/commands.py:230-248 | The tail of a single step is its own; a chain's is the command and the last 4000 characters of all tails in order, so that it ends in the last characters of the last step's |
| `CommandChain.ChainTime` | src/repoach/gates/commands.py:230-239 | When every step respects its limit, the steps from any one on take at most its limit and a second for each after it, whatever time passes between them |
| `CommandChain.ChainKeepsBudget` | src/repoach/gates/commands.py:230-239 | So n steps take at most the budget and n - 1 seconds |
| `CommandChain.SlowChain` | src/repoach/gates/commands.py:230-239 | The bound of the first limit and a second for each other step is reached, whatever time passes between them |
| `CommandChain.BudgetHoldsIff` | src/repoach/gates/commands.py:212-239 | "One budget for the whole chain", as the seconds its steps run for: it holds, whatever they take within their limits, if and only if the n steps are no more than its seconds and n - 2 is less than the seconds between setting the deadline and the first reading of the clock |
| `CommandChain.PromptBudgetHoldsIff` | src/repoach/gates/commands.py:212-239 | When less than a second passes there: one step, or two if any time passes at all, and no more steps than seconds |
| `CommandChain.DeadlineHoldsIff` | src/repoach/gates/commands.py:212-239 | As the time by which the chain has ended it holds if and only if there is a single step and a second is left when the clock is read for it |

## Left out

Of the modelled code:

- Scoring.ScoreResult: a row of counters is a value; that the program updates the same row object in place is not modelled.
- CommandChain.RunCommand: words, or an error, are what `shlex` hands over; how long a step takes to start counts as time after it.
- SchemaInit.Engine.EnsureSchemaCreated: the in-process lock means one caller at a time.
- CreditsCache.EveryRunIsGood: no run contains a cancellation or a reset.
- LedgerMigration.FileSystem.MigrateLedger: no process opens the legacy file between the holder check and the unlink, and every table of the ledger is a user table.
- LedgerMigration.MigrationKeepsLedger: SQLite's backup is taken to copy the locked ledger; `MigrationKeepsCounts` and `ReadersSwitchOnce` say what holds without that.
- LedgerMigration.NoRowIsEverLost: the same; `NoRowCountIsEverLost` holds without it.
- AgentLoopLaws.EveryCallIsRecorded: the ledger is the list of calls itself, so that a call is recorded once is how the model is built.
- WriteBarrier.ForgeWriteBarrier.RequireAdmitted: whether an argv writes is a property it carries; `is_write_argv` and its reading of GraphQL documents are not modelled.
- ToolArgs.ValidateToolArgs: a schema whose own shape is wrong is not modelled; a rejection names the fault, not its wording.
- AgentLoop.RunLoop: elapsed times, back-off waits, the proxy's trace, logging and the wording of the loop's own messages are left out; the leak pattern is an arbitrary predicate.
- AgentLoop.TakeTurn: the loop's variables are gathered in one value between turns.
- Failover.RunOneshot: the instruction prefixed for JSON responses is part of the prompt.
- Strings are compared character by character; no Unicode normalisation takes place.

Of the repository:

- The calls to subprocesses, HTTP, SQL and the file system themselves: they are the environment of the model.
- The parsers and libraries behind them (SQLAlchemy, pydantic, structlog, typer, `shlex`, JSON, YAML, TOML): their code is not part of this model.
- Command-line rendering, reports and CI snippets: long but shallow.
- Decision tables such as the exit codes and merge refusals: reading a branch settles them.
- The review ledger, refuter and merge gate.
- Secret scrubbing, redaction and trust rules.
