# Verification of the task-chain engine and of the append-only ledgers

This project models two parts of the repository in Dafny and proves what they promise.

**The DAG task-chain engine** (`core/chain-engine`). A `ChainDagRoot` holds an array of task entries that the
scheduler and the tracker change in place. `Scheduler` is one tick: expired backoffs, eligibility, the selection under
a global and a per-group cap, the moves to Running. `Tracker` is the timeout pass and the failure pass. `CycleDetection`
is the validation of a chain with its explicit-stack search. Each method is proved against a specification
(`IsTick`, `IsSelection`, `IsTimeoutPass`, `AfterFailures`, `IsValidChain`), and the other modules prove facts about
those specifications: the laws of the selection (`SelectionLaws`) and of the tracker (`TrackerLaws`, `Timestamps`), and
what every run keeps (`ChainRuns`, `ChainSafety`), reaches (`Progress`), never finishes (`StuckTasks`) and settles to
(`Quiescence`).

**The ledgers** (`core/core-state`, `core/core-state-utils`). `Json` is a printer and a reference parser (sections 2 to 7
of RFC 8259); `JsonScanner` is the scanner that looks for one key without parsing; `ScannerLaws` and `SpacingLaws` relate the two.
`Jsonl` is tail repair and compaction of a JSON-lines file. `TaskLedger` is the append with deduplication, numbering,
hash chain, checkpoints and compaction, on the text of the file; `LedgerRows`, `LedgerAppend`, `LedgerRuns` and
`LedgerHistory` lift it to rows and to whole histories, and `AppendLaws` says field by field what an append writes.
`Replay` is hydration and `HydrationLaws` what it yields, field by field. `StepLedger` is the
step ledger, `StepHistory` its histories and `StepRecording` its coupling to the task ledger. `LedgerLock` interleaves the
single reads and writes of any number of appending processes, `LedgerCrashes` lets them crash at any step, and
`AtomicWrite` does both for any number of file writers.

How the form of the source is kept:

* Task entries are values held inline in the array of the root object, as a Rust `Vec` holds them; every loop that
  updates entries is a loop over that array.
* Hash maps are enumerated in an arbitrary order, so every result about a tick holds for every order of the groups.
* A file is an object with optional content. Time, file-system faults and the outcome of a lock attempt are parameters.
* The 64-bit hash is an arbitrary function; nothing is assumed about it.
* Attempts and rounds are 32-bit and the attempt counter saturates.

## What turned out not to hold

The code is modelled as it is. Where an expected property fails, the exact condition is proved, or a concrete input is given.

* A task waiting for a retry may start before its backoff has expired: `Quiescence.TickStartsWaitingTask` is a tick that
  does it, and `Quiescence.BackoffDelaysNothingWhen` says when the clock makes any difference.
* A chain that passes validation can deadlock: `Progress.ChainGetsFinishedWhen` says exactly which ones do,
  `Progress.LaterRoundDependencyDeadlocks` is one of them, `StuckTasks.StaysUnfinishedWhen` says for any chain which
  tasks never finish, and `Progress.IdleExactlyWhen` when a single tick is idle.
* With retries a started round can see a lower round reopened: `ChainSafety.RoundsStaySafeWhen` says by which pass,
  `ChainSafety.RunsKeepRoundsWhen` lifts that to runs, and `ChainSafety.RetryReopensRound` is such a run.
* A status condition can start a task in the second of two adjacent ticks: `Quiescence.SecondTickStartsWhen` says when,
  and `Quiescence.StatusGateStartsAgain` is a chain where it does.
* A second failure pass overwrites `caused_skips`: `TrackerLaws.SecondPass` says when.
* The scanner decodes `\n` as `n`: `ScannerLaws.ScanIsExactWhen` says for which stored keys it is exact, and
  `StepLedgerLaws.SecondAppendIsNoOpWhen` what that means for idempotence. Of a repeated key it reads the first, where a
  parser keeps the last: `ScannerLaws.ScanAgreesWhen` is the exact condition, `ScannerLaws.RepeatedKeyDisagrees` an input. An entry with one
  key can be taken for an entry with another: `ScannerLaws.NewlineIsReadAsN`.
* The substring filter loses every key with a control character: `LedgerRuns.ControlKeyIsNeverFound`; such a key gets into
  one row after the other: `LedgerRuns.ControlKeyIsAppendedAgain`.
* Compaction can forget a key or a verification: `LedgerRuns.AppendForgetsKeyWhen`, `Replay.AppendReplaysWhen`, with the inputs
  `LedgerRuns.CompactionCanForgetKey` and `Replay.CompactionCanLoseVerification`.
* Replaying from a checkpoint can differ from the full replay: `Replay.ShortcutIsExactWhen`, with the input
  `Replay.CheckpointCanLoseVerification`: the evidence row is appended before the evidence file is written
  (`core/framework-extra/src/evidence.rs:240-251`), so a checkpoint that falls on it captures the state without it.
* A tear exactly before a newline in the step ledger costs two entries: `StepLedgerLaws.TearBeforeNewlineLosesTwoEntries`;
  `StepLedgerLaws.EntryOverAnyText` says what becomes of an entry over any file at all. The task ledger survives the same
  tear: `AppendLaws.TearBeforeNewlineIsHarmless`.
* The task ledger keeps only the first step without a key: `StepRecording.KeylessStepIsTakenWhen`.
* A crash between compaction and rehashing leaves compacted rows with their old hashes: `LedgerCrashes.CrashLeavesOldHashes`;
  it is the only crash that harms the hash chain (`LedgerCrashes.CrashesKeepChain`), and the next finished compaction chains
  the rows again (`LedgerCrashes.CompactionChainsAgain`).
* Without the lock an append can be lost: `LedgerLockLaws.WithoutTheLockAnAppendIsLost`.

Where code and comments differ the code is followed. The comments at `core/core-state/src/task_ledger.rs:213-217` call the
filter a pure optimisation; it is one only for keys that JSON does not escape. The comment at
`core/core-state-utils/src/jsonl_maintenance.rs:328-330` says later numbers always exceed the compacted ones; a checkpoint
row repeats the number of the row before it (`core/core-state/src/task_ledger.rs:264`), so numbers rise strictly only over
the other rows. The comment at `core/core-state-utils/src/jsonl_maintenance.rs:16-18` says only the last row of each
snapshot type matters for replay; for `evidence` rows every successful one matters. Compaction starts from the text before the checkpoint was written (`core/core-state/src/task_ledger.rs:263-278`),
so a compaction drops the checkpoint of the same append; `LedgerAppend.AppendRows` follows that.

## Model

| member | source | states |
|---|---|---|
| CycleDetection.HasCycleIterative | core/chain-engine/src/scheduler.rs:369-428 | on a graph without dangling dependencies the explicit-stack search answers whether a cycle is reachable from its start, and a negative answer comes with a topological order of what it visited |
| CycleDetection.RankedHasNoLasso | core/chain-engine/src/scheduler.rs:354-363 | a rank that falls along every dependency excludes every path into a cycle |
| CycleDetection.TopologicalGivesRank | core/chain-engine/src/scheduler.rs:354-363 | a closed topological order yields such a rank |
| CycleDetection.CheckDistinct | core/chain-engine/src/scheduler.rs:318-331 | accepts exactly distinct ids, and names an id that occurs twice |
| CycleDetection.CheckReferences | core/chain-engine/src/scheduler.rs:333-352 | accepts exactly when every dependency and condition source resolves, and names a dangling one |
| CycleDetection.CheckAcyclic | core/chain-engine/src/scheduler.rs:354-363 | accepts exactly when some rank falls along every dependency, and names a task from which a cycle is reachable |
| CycleDetection.ValidateDag | core/chain-engine/src/scheduler.rs:317-366 | Ok if and only if ids are distinct, references resolve and a rank exists; each error comes with its evidence, in the order of the checks |
| CycleDetection.ValidWhen | core/chain-engine/src/scheduler.rs:317-366 | a valid chain in terms of its entries alone: distinct ids, every dependency and condition source names a task, and some rank falls from every task to what it depends on |
| Scheduler.BuildStatusMap | core/chain-engine/src/scheduler.rs:43-47 | the statuses by id |
| Scheduler.MinNonTerminalRound | core/chain-engine/src/scheduler.rs:56-59 | a round that bounds every unfinished task from below and is attained |
| Scheduler.CollectEligible | core/chain-engine/src/scheduler.rs:49-88 | the queue of each group holds its eligible tasks in entry order |
| Scheduler.CountRunning | core/chain-engine/src/scheduler.rs:236-249 | the running tasks, in all and for each named group |
| Scheduler.EnumerateKeys | core/chain-engine/src/scheduler.rs:95 | every group once, in an order nothing is known about |
| Scheduler.SelectReady | core/chain-engine/src/scheduler.rs:94-131 | the round-robin loop always picks a least-served group that is neither exhausted nor capped, first in the order, and stops only when the cap is full or no such group is left |
| Scheduler.HandleExpiredBackoffs | core/chain-engine/src/scheduler.rs:271-285 | exactly the tasks whose readable deadline has passed go back to Pending |
| Scheduler.StartReady | core/chain-engine/src/scheduler.rs:133-140 | the selected tasks become Running with one attempt more and a start time |
| Scheduler.AdvanceDag | core/chain-engine/src/scheduler.rs:25-143 | the array and the result are those of a tick: nothing when paused, in linear mode or with a zero cap, and else expiry, a selection, and the starts |
| SelectionLaws.RespectsGlobalCap | core/chain-engine/src/scheduler.rs:104-106 | running tasks never exceed the cap or what was running before |
| SelectionLaws.RespectsGroupCap | core/chain-engine/src/scheduler.rs:111-120 | nor does a named group exceed half the cap, rounded up, or what it had before |
| SelectionLaws.TakesAPrefix | core/chain-engine/src/scheduler.rs:121-126 | what a group yields is a prefix of its eligible tasks |
| SelectionLaws.QueueKeepsOrder | core/chain-engine/src/scheduler.rs:86-88 | of two eligible tasks of one group the earlier entry stands earlier in the queue |
| SelectionLaws.IsFair | core/chain-engine/src/scheduler.rs:101-131 | no group gets two more than a group that could still be served |
| SelectionLaws.GoesOn | core/chain-engine/src/scheduler.rs:101-131 | before every pick the cap had room and some group could be served |
| SelectionLaws.OrderDeterminesSelection | core/chain-engine/src/scheduler.rs:94-131 | for one order of the groups there is one selection |
| SelectionLaws.ReadyHasNoRepeats | core/chain-engine/src/scheduler.rs:100-131 | no task is selected twice |
| SelectionLaws.StartAllAt | core/chain-engine/src/scheduler.rs:133-140 | starting a list without repeats starts each listed task once and touches no other |
| SelectionLaws.CountsAfterStart | core/chain-engine/src/scheduler.rs:133-140 | the starts raise the running counts by exactly the picks, in all and in each group |
| Tracker.CollectGroups | core/chain-engine/src/tracker.rs:55-88 | for each timeout group its first limit, its least start text and its running tasks |
| Tracker.CollectExpired | core/chain-engine/src/tracker.rs:93-108 | exactly the groups whose earliest start is too old, each once, in any order |
| Tracker.FailRunning | core/chain-engine/src/tracker.rs:112-123 | the listed tasks that still run fail with the message, and are returned in order |
| Tracker.ProcessTimeouts | core/chain-engine/src/tracker.rs:38-130 | the array and both results are those of a timeout pass |
| Tracker.ScheduleRetries | core/chain-engine/src/tracker.rs:184-208 | exactly the failed tasks with attempts left get a retry, listed in entry order |
| Tracker.AbortRemaining | core/chain-engine/src/tracker.rs:217-258 | unfinished tasks are skipped, waiting retries last, and each failed task records the whole list |
| Tracker.PauseRemaining | core/chain-engine/src/tracker.rs:262-279 | waiting tasks are blocked and each failed task records the list |
| Tracker.ProcessFailures | core/chain-engine/src/tracker.rs:167-287 | the chain and the report are those of a failure pass under each strategy |
| Tracker.ProcessPostTick | core/chain-engine/src/tracker.rs:291-295 | a timeout pass followed by a failure pass |
| TrackerLaws.EarliestIsLeast | core/chain-engine/src/tracker.rs:74-82 | the kept start text is a member's and none in the group is less |
| TrackerLaws.LimitIsFirstListed | core/chain-engine/src/tracker.rs:60-72 | a group's limit is that of its first entry |
| TrackerLaws.ExpiredWhen | core/chain-engine/src/tracker.rs:93-143 | a group has expired if and only if its least start and the clock can be read and the first listed limit has passed between them |
| TrackerLaws.TimeoutsAreExact | core/chain-engine/src/tracker.rs:55-124 | precisely the running tasks of expired groups fail, each reported once, and nothing else changes |
| TrackerLaws.TimeoutsTouchLittle | core/chain-engine/src/tracker.rs:39-124 | a timeout pass changes nothing in linear mode, and else only status and error of running tasks, with the error naming the group and its first listed limit; starts are kept |
| TrackerLaws.TimeoutsAreInOrder | core/chain-engine/src/tracker.rs:84-121 | the failed tasks of one group are reported in entry order |
| TrackerLaws.AbortStrategy | core/chain-engine/src/tracker.rs:217-258 | when a failure has no attempts left under abort, finished tasks are untouched, such failures record the list, and every other task is skipped with the message, nothing else of it or of the chain changing; the list holds exactly the newly skipped tasks, once |
| TrackerLaws.PauseStrategy | core/chain-engine/src/tracker.rs:259-280 | the same under pause, where running tasks go on, waiting ones are blocked with their message, and the chain is paused |
| TrackerLaws.RetriesAreExact | core/chain-engine/src/tracker.rs:184-208 | a failure pass retries exactly the failed tasks with attempts left under their own policy or, only without one, the default |
| TrackerLaws.ContinueStrategy | core/chain-engine/src/tracker.rs:211-214 | under continue, and when every failure is retried, nothing is stopped, paused or aborted, and no task changes but the retried ones, in status and backoff |
| TrackerLaws.ReportsAreInOrder | core/chain-engine/src/tracker.rs:204-279 | retried, skipped and blocked tasks are reported in entry order, under abort those with a retry scheduled behind the others |
| TrackerLaws.SecondPass | core/chain-engine/src/tracker.rs:184-287 | a second failure pass keeps every status and the pause flag, and changes nothing at all if and only if the first one stopped nothing |
| TrackerLaws.SecondPassForgetsSkips | core/chain-engine/src/tracker.rs:252-257 | the recorded skips can be lost by a second pass |
| Timestamps.TextOrderIsTimeOrder | core/chain-engine/src/tracker.rs:76-78 | comparing fixed-width UTC stamps as text compares their instants (section 5.1 of RFC 3339) |
| Timestamps.StampRoundTrip | core/chain-engine/src/tracker.rs:149-161 | reading a printed stamp gives its instant back |
| Timestamps.SecondsAre | core/chain-engine/src/tracker.rs:149-161 | the instant of a valid stamp in closed form, leap years by the Gregorian rule, in seconds since 1970 |
| Timestamps.EarliestStartIsKept | core/chain-engine/src/tracker.rs:74-82 | the start kept for a group is chronologically the earliest |
| Timestamps.TimesOutWhen | core/chain-engine/src/tracker.rs:55-143 | a running task fails in a timeout pass if and only if some started member of its group is at least as old as the limit of the first listed member |
| ChainRuns.CompleteAndAdvance | core/host-projection/src/hosts/mcp_stdio_harness/tools.rs:735-753 | a reported completion is recorded before the tick |
| ChainRuns.ReportsTouchOne | core/host-projection/src/hosts/mcp_stdio_harness/tools.rs:738-744 | a completion changes status and time of the one task that is not completed yet, a failure status and error of one that runs |
| ChainRuns.StepIsLocal | core/chain-engine/src/tracker.rs:184-284 | every event moves every task only along the allowed status changes |
| ChainRuns.EngineKeepsFinished | core/chain-engine/src/scheduler.rs:60-63 | ticks, timeouts and failure passes never touch a completed, skipped or blocked task |
| ChainRuns.RunsTerminate | core/chain-engine/src/scheduler.rs:133-140 | in every interleaving of ticks, timeouts, failure passes and outside reports no task is started more often than its policy allows, and the number of status changes is bounded in advance |
| ChainSafety.TickRespectsCaps | core/chain-engine/src/scheduler.rs:94-140 | a tick keeps the running tasks within the caps |
| ChainSafety.TickSharesTheCap | core/chain-engine/src/scheduler.rs:99-120 | in numbers: twice the running tasks of a named group stay within the cap plus one, or what they were |
| ChainSafety.TickFillsGroups | core/chain-engine/src/scheduler.rs:94-131 | with the global cap free, a tick leaves an eligible task alone only when its group is named and runs at least half the cap |
| ChainSafety.TickKeepsOrder | core/chain-engine/src/scheduler.rs:86-126 | no task starts before an earlier eligible one of its group |
| ChainSafety.EligibleWhen | core/chain-engine/src/scheduler.rs:49-199 | eligibility in terms of the entries alone: pending or with a retry scheduled, every dependency completed or skipped, the condition met, and every task of a lower round ended, a missing round counting as 1 |
| ChainSafety.TickChanges | core/chain-engine/src/scheduler.rs:25-143 | everything a tick changes: nothing when linear, paused or without a cap; else the backoffs that are over, and status, attempt and start of the reported tasks |
| ChainSafety.StepKeepsDependenciesSafe | core/chain-engine/src/scheduler.rs:146-160 | a started task keeps every dependency completed or skipped |
| ChainSafety.RoundsStaySafeWhen | core/chain-engine/src/scheduler.rs:74-83 | an event keeps the round barrier if and only if it is not a failure pass that goes on with a retry in a round some started task had waited for |
| ChainSafety.StepKeepsRoundsSafe | core/chain-engine/src/scheduler.rs:74-83 | without retry policies every event keeps the round barrier |
| ChainSafety.RunsAreSafe | core/chain-engine/src/scheduler.rs:55-88 | in every reachable state the caps hold and every started task had its dependencies met, and without retries its lower rounds terminal |
| ChainSafety.PauseLasts | core/chain-engine/src/scheduler.rs:29-31 | a pause holds for the rest of every run: from then on no event starts a task, ticks change nothing at all, and only tasks that already ran still run |
| ChainSafety.RunsKeepRoundsWhen | core/chain-engine/src/tracker.rs:184-284 | over a whole run, with any retry policies, the round barrier holds in every state if and only if no failure pass reopens a round |
| ChainSafety.RetryReopensRound | core/host-projection/src/hosts/mcp_stdio_harness/chain_tools.rs:187-188 | a run that does: a tick, a failure, a tick, a failure pass |
| Progress.IdleExactlyWhen | core/chain-engine/src/scheduler.rs:49-131 | a tick starts nothing if and only if the cap is full or every group with an eligible task is at its own cap |
| Progress.SomeTaskIsEligible | core/chain-engine/src/scheduler.rs:49-88 | in a validated chain in which no two unfinished tasks wait for each other, an unfinished task leads to an eligible one |
| Progress.TickMakesProgress | core/chain-engine/src/scheduler.rs:49-131 | then a tick starts at least one task |
| Progress.RoundTripShrinks | core/chain-engine/src/scheduler.rs:25-143 | a tick followed by the completion of all running tasks leaves fewer unfinished |
| Progress.ChainGetsFinished | core/chain-engine/src/scheduler.rs:309-311 | as many such rounds as there are tasks finish a chain in which no two unfinished tasks wait for each other |
| Progress.MutualWaitStays | core/chain-engine/src/scheduler.rs:74-83 | no tick ever starts either of two tasks of which one depends on the other and the other must wait for the round of the first, whatever the conditions and caps |
| Progress.ChainGetsFinishedWhen | core/chain-engine/src/scheduler.rs:49-131 | alternating ticks with completions finishes a validated chain without conditions if and only if no two of its unfinished tasks wait for each other |
| Progress.LaterRoundDependencyDeadlocks | core/chain-engine/src/scheduler.rs:317-366 | a chain that validation accepts has two tasks that wait for each other |
| StuckTasks.StaysUnfinishedWhen | core/chain-engine/src/scheduler.rs:49-131 | in any chain without conditions, validated or not, failed and blocked tasks included: after as many ticks, each followed by the completion of what runs, as there are tasks, and ever after, a task is unfinished if and only if at the start it was in a stuck set, whose members could start but each depend on a failed, blocked or missing task or on a member, or have a member in a lower round |
| Quiescence.SecondTickStartsNothing | core/chain-engine/src/scheduler.rs:25-143 | without status conditions a second tick right after the first starts nothing, whatever the order of the groups and the clock |
| Quiescence.SecondTickStartsWhen | core/chain-engine/src/scheduler.rs:25-143 | a second tick right after the first, with the same outputs, starts something if and only if there is room and a status condition that refused a task in the first tick has opened for it |
| Quiescence.StatusGateStartsAgain | core/chain-engine/src/scheduler.rs:167-199 | it does happen: a task that waits for another one to be running |
| Quiescence.BackoffDelaysNothingWhen | core/chain-engine/src/scheduler.rs:61-83 | the queues at two readings of the clock are equal if and only if no status condition that alone holds back a task tells whether another task's backoff has expired; without status conditions they always are |
| Quiescence.TickStartsWaitingTask | core/chain-engine/src/scheduler.rs:61-64 | it does happen: every tick before the deadline starts a task that waits for its retry |
| Json.EscapeChar | core/core-state/src/step_ledger.rs:257 | a character is written as itself only when it is no quote, backslash or control character, and otherwise as a text that starts with a backslash (section 7 of RFC 8259) |
| JsonRoundTrip.PrintedList | core/core-state/src/step_ledger.rs:257 | the compact text of a list, by example |
| JsonRoundTrip.PrintedObject | core/core-state/src/step_ledger.rs:257 | and of an object |
| JsonRoundTrip.ParseOfPrinted | core/core-state/src/step_ledger.rs:257 | whatever is printed, with keys in any order, repeated or not, at any depth, is read back as its normal form: keys sorted, the last value of a repeated key |
| JsonRoundTrip.ParseInvertsPrint | core/core-state/src/step_ledger.rs:257 | parsing the compact print of a value whose keys are sorted gives it back |
| JsonRoundTrip.ParseOfPrintedMembers | core/core-state/src/task_ledger.rs:246 | an object printed with its members in any order is read as a sorted map |
| JsonScanner.ReadKeyOf | core/core-state/src/step_ledger.rs:332-346 | a key is read up to its closing quote with its escapes kept |
| JsonScanner.ReadValueOf | core/core-state/src/step_ledger.rs:363-376 | a text value is read up to its closing quote, each escape replaced by its letter |
| JsonScanner.SkipContainerValue | core/core-state/src/step_ledger.rs:459-484 | the cursor ends behind the container, nested or not, as the specification says |
| JsonScanner.CharsEq | core/core-state/src/step_ledger.rs:487-494 | true exactly when the rest starts with the literal, which is then consumed |
| JsonScanner.SkipValueOf | core/core-state/src/step_ledger.rs:411-452 | one value is skipped, or the scan fails |
| JsonScanner.ScanJsonlForIdempotencyKey | core/core-state/src/step_ledger.rs:302-454 | the loop over the cursor answers as the recursive scan does |
| ScannerLaws.ValueSkipped | core/core-state/src/step_ledger.rs:459-484 | inside a container any printed value, strings with brackets and objects with keys in any order included, leaves the depth as it was |
| ScannerLaws.ContainerIsConsumed | core/core-state/src/step_ledger.rs:459-484 | skipping consumes exactly one printed container, at any nesting, with keys in any order |
| ScannerLaws.MisreadIsHarmless | core/core-state/src/step_ledger.rs:369-373 | the scanner's decoding is the identity exactly on texts without control characters |
| ScannerLaws.ScanReadsTopLevelKey | core/core-state/src/step_ledger.rs:302-454 | on every printed object, its members in any order, the scan answers for the first top-level value of the key, never for a nested one |
| ScannerLaws.ParserReadsLast | core/core-state/src/step_ledger.rs:302-454 | where the map that a parser builds keeps the last value of a repeated key |
| ScannerLaws.ScanAgreesWhen | core/core-state/src/step_ledger.rs:302-454 | over every printed object, scan and parser agree on every target if and only if the scanner reads the first value under the key as the parser reads the last |
| ScannerLaws.ScanAgreesWithParser | core/core-state/src/step_ledger.rs:302-454 | on every object that has the key once, in any place, for a stored key without control characters the scan is true if and only if the parser finds a string equal to the target |
| ScannerLaws.ScanIsExactWhen | core/core-state/src/step_ledger.rs:369-373 | on such an object the scan is exact for every target if and only if the stored key has no control character |
| ScannerLaws.RepeatedKeyDisagrees | core/core-state/src/step_ledger.rs:332-376 | an object with the key twice, on which scan and parser differ |
| ScannerLaws.NewlineIsReadAsN | core/core-state/src/step_ledger.rs:363-376 | a control character in a stored key is read as the letters of its escape, so the scan finds another key there |
| SpacingLaws.ScanIgnoresSpacing | core/core-state/src/step_ledger.rs:307-350 | any white space between the tokens of an object, of any JSON kind, leaves every answer as it is |
| SpacingLaws.ParseIgnoresSpacing | core/core-state/src/step_ledger.rs:302-305 | and what a parser reads |
| Jsonl.CollectLineRanges | core/core-state-utils/src/jsonl_maintenance.rs:106-118 | the ranges are consecutive whole lines that cover the text |
| Jsonl.FindLastValidLineEnd | core/core-state-utils/src/jsonl_maintenance.rs:105-131 | the end of the last valid line |
| Jsonl.TruncateCorruptTail | core/core-state-utils/src/jsonl_maintenance.rs:138-190 | the file is repaired, and the answer says whether it changed |
| Jsonl.LastSnapshots | core/core-state-utils/src/jsonl_maintenance.rs:299-305 | the map holds the last place of each snapshot type and no other type |
| Jsonl.CompactJsonlCore | core/core-state-utils/src/jsonl_maintenance.rs:257-358 | the compacted text, or nothing when short, without snapshots, or without a superseded one |
| Jsonl.CompactJsonlWithContent | core/core-state-utils/src/jsonl_maintenance.rs:55-97 | the compaction of the given text replaces whatever the file holds |
| Jsonl.CompactJsonlIfNeeded | core/core-state-utils/src/jsonl_maintenance.rs:42-50 | the file is compacted when there is something to do |
| Jsonl.TruncateAndCompact | core/core-state-utils/src/jsonl_maintenance.rs:198-247 | one read and one write leave what the two passes leave, with the same answer |
| Jsonl.MaintainInTwoPasses | core/core-state-utils/src/jsonl_maintenance.rs:192-197 | the two passes, for comparison |
| JsonlLaws.RepairKeepsValidLines | core/core-state-utils/src/jsonl_maintenance.rs:105-131 | repair cuts only invalid lines, keeps every valid one, and is idempotent |
| CompactionLaws.ReadBack | core/core-state-utils/src/jsonl_maintenance.rs:317-355 | a text written from objects and other lines reads back as those |
| CompactionLaws.SurvivorsDiffer | core/core-state-utils/src/jsonl_maintenance.rs:321-326 | no snapshot type survives twice |
| CompactionLaws.LatestSurvives | core/core-state-utils/src/jsonl_maintenance.rs:321-326 | every object that no later snapshot supersedes survives |
| CompactionLaws.CompactionKeepsLatest | core/core-state-utils/src/jsonl_maintenance.rs:257-358 | the result is not empty, holds exactly the surviving objects in order with numbers 0, 1, 2, ... and the other lines, and compacting it again does nothing |
| CompactionLaws.CompactsWhen | core/core-state-utils/src/jsonl_maintenance.rs:257-316 | there is something to compact if and only if there are more values than the limit and some object has a later one of its type, for the four types by name |
| CompactionLaws.CompactedObjectsAre | core/core-state-utils/src/jsonl_maintenance.rs:19-25 | the compacted text holds, in their order, exactly the objects without such a later one, with only `seq` changed |
| CompactionLaws.OneOfEachTypeIsLeft | core/core-state-utils/src/jsonl_maintenance.rs:19-25 | at most one goal, loop, gate and evidence object is left |
| CompactionLaws.RenumberingSetsSeq | core/core-state-utils/src/jsonl_maintenance.rs:328-331 | renumbering sets `seq` and nothing else |
| TaskLedger.LastChainHashFromContent | core/core-state/src/task_ledger.rs:91-106 | the hash of the last row that carries one, else "genesis" |
| TaskLedger.RecomputeChainHashes | core/core-state/src/task_ledger.rs:366-407 | the rehashed text, or an error that leaves the text as it is |
| TaskLedger.PatchLedgerChainHashes | core/core-state/src/task_ledger.rs:352-362 | the file holds the rehashed text |
| TaskLedger.FindKey | core/core-state/src/task_ledger.rs:207-226 | true exactly when some line passes the filter and is a row with the key |
| TaskLedger.CountLedgerLines | core/core-state/src/task_ledger.rs:228-234 | the number of lines that look like rows |
| TaskLedger.WriteStateCheckpoint | core/core-state/src/task_ledger.rs:110-158 | the file gains a chained checkpoint row |
| TaskLedger.AppendTransactionAssumingL1Held | core/core-state/src/task_ledger.rs:179-332 | the whole file after an append as a function of the file before: repaired and left alone for a duplicate, else with the new row, then compacted and rehashed, or with a checkpoint |
| TaskLedger.ReadTaskLedgerTransactions | core/core-state/src/task_state.rs:462-505 | the file is repaired and its readable rows are returned in order |
| LedgerRows.RowText | core/core-state/src/task_ledger.rs:246 | a printed row is one valid line and reads back as the row |
| LedgerRows.TxMapFields | core/core-state/src/task_ledger.rs:25-40 | the stored names of the fields of a row, each with its value, absent ones as null |
| LedgerRows.RowsAreValid | core/core-state-utils/src/jsonl_maintenance.rs:105-131 | repairing whole rows and junk leaves the rows |
| LedgerAppend.ScanFindsRowKey | core/core-state/src/task_ledger.rs:207-226 | the filtered scan finds a key exactly when a row has it and its text contains it unescaped |
| LedgerAppend.CompactedRender | core/core-state-utils/src/jsonl_maintenance.rs:257-358 | compacting the text of rows compacts the rows |
| LedgerAppend.PatchedCompaction | core/core-state/src/task_ledger.rs:278-283 | rehashing a compacted text gives the text of the renumbered and rehashed rows |
| LedgerAppend.AppendActsOnRows | core/core-state/src/task_ledger.rs:179-316 | on any well-kept file, corrupt tail or not, the text after an append is the text of the row-level append |
| LedgerAppend.FirstAppendActsOnRows | core/core-state/src/task_ledger.rs:300-315 | the same for the first append, which makes the file |
| AppendLaws.CompactionIsDueWhen | core/core-state/src/task_ledger.rs:274-277 | a compaction is due if and only if there are more than three hundred rows and one of them has a later row of the same of the four types |
| AppendLaws.AppendAddsRows | core/core-state/src/task_ledger.rs:110-143 | without compaction an accepted append keeps every row, adds its own with the next number and, behind every hundredth row, a checkpoint with the same number, no key, version 1, the time and the captured state |
| AppendLaws.CompactedRowsAre | core/core-state-utils/src/jsonl_maintenance.rs:317-331 | a compaction keeps in order exactly the rows that no later one replaces, with new numbers and hashes and nothing else changed |
| AppendLaws.AppendCompacts | core/core-state/src/task_ledger.rs:228-298 | an accepted append that compacts leaves exactly those of the rows and its own, and no checkpoint of its own |
| AppendLaws.LastingRowIsThere | core/core-state/src/task_ledger.rs:228-298 | compacted or not, a new row that is no snapshot is there with everything it was given |
| AppendLaws.CountIs | core/core-state/src/task_ledger.rs:228-234 | the next number counts all lines that start with a brace, rows or not |
| AppendLaws.TearBeforeNewlineIsHarmless | core/core-state/src/task_ledger.rs:240-257 | a tear exactly before the last newline changes nothing: an append acts as on the whole rows |
| LedgerRuns.RechainedIsWellChained | core/core-state/src/task_ledger.rs:366-407 | recomputed rows are well chained |
| LedgerRuns.RechainingIsIdentityWhen | core/core-state/src/task_ledger.rs:366-407 | recomputing changes no row if and only if the rows were well chained |
| LedgerRuns.HashIsStoredWhole | core/core-state/src/task_ledger.rs:79-86 | a hash is stored as sixteen hexadecimal digits that read back as all of its 64 bits |
| LedgerRuns.PlainKeyIsFound | core/core-state/src/task_ledger.rs:213-226 | for keys that JSON does not escape the scan finds a key if and only if some row has it |
| LedgerRuns.ControlKeyIsNeverFound | core/core-state/src/task_ledger.rs:213-220 | a key with a control character is never found, even when a row has it |
| LedgerRuns.ControlKeyIsAppendedAgain | core/core-state/src/task_ledger.rs:207-226 | so every append with such a key is accepted, and the key gets into a second row unless a compaction is due |
| LedgerRuns.AppendKeeps | core/core-state/src/task_ledger.rs:228-298 | an append, with any key or none, keeps the hash chain and the numbering |
| LedgerRuns.AppendSharesNoKey | core/core-state/src/task_ledger.rs:207-226 | a key that JSON does not escape never gets into a second row, whatever the other keys are |
| LedgerRuns.LastingKeyStays | core/core-state/src/task_ledger.rs:207-298 | a key in a row that is not a snapshot survives every append, compaction included, and when JSON does not escape it an append with it changes no row |
| LedgerRuns.CompactionForgetsKeyWhen | core/core-state-utils/src/jsonl_maintenance.rs:321-326 | a compaction forgets a key if and only if only superseded snapshots have it |
| LedgerRuns.AppendForgetsKeyWhen | core/core-state/src/task_ledger.rs:207-298 | an append forgets a key if and only if it is accepted, a compaction is due, and every row with the key, the new one included, is superseded |
| LedgerRuns.CompactionCanForgetKey | core/core-state-utils/src/jsonl_maintenance.rs:19-25 | it does happen behind any three hundred rows: a snapshot without a key forgets the key of the snapshots it supersedes |
| LedgerHistory.StepKeeps | core/core-state/src/task_ledger.rs:179-316 | each append, tear or repair keeps a well-kept file, and changes its rows as the row-level append does or not at all |
| LedgerHistory.HistoriesAreKept | core/core-state/src/task_ledger.rs:179-316 | in every state of every crash-free history, whatever the keys, rows are chained from "genesis" and numbers never fall and rise at every row but a checkpoint |
| LedgerHistory.NoKeyIsShared | core/core-state/src/task_ledger.rs:207-226 | in every such state a key that JSON does not escape is in one row at most |
| LedgerHistory.AppendsAreIdempotent | core/core-state/src/task_ledger.rs:207-226 | once a key that JSON does not escape is in a row that is not a snapshot, every later append with it leaves the rows alone, whatever happened between, appends with other keys included |
| LedgerHistory.PatchIsIdentityWhen | core/core-state/src/task_ledger.rs:352-362 | rehashing a ledger text is the identity if and only if it is well chained |
| LedgerHistory.UnreadableLineStopsRehashing | core/core-state/src/task_ledger.rs:366-407 | a text with a line that is neither blank nor a row is not rehashed |
| Replay.FindReplayStart | core/core-state/src/task_state.rs:562-587 | the place behind the last checkpoint |
| Replay.ReplayRows | core/core-state/src/task_state.rs:589-604 | the loop over the rows is the fold |
| Replay.HydrateTaskStateHybrid | core/core-state/src/task_state.rs:538-613 | the state is the fold from the last checkpoint, or from the physical files |
| Replay.FoldIs | core/core-state/src/task_state.rs:589-604 | a fold is the last goal, whether there is evidence, and whether any evidence succeeded |
| HydrationLaws.CheckpointOverridesFiles | core/core-state/src/task_state.rs:562-587 | any last checkpoint, whatever its payload, overrides the physical files by each field it holds: a goal that is not null, and each flag that is a truth value |
| HydrationLaws.LastGoalIsHydrated | core/core-state/src/task_state.rs:592-594 | the payload of the last goal row behind the last checkpoint is the goal, and null clears it |
| HydrationLaws.GoalIsKept | core/core-state/src/task_state.rs:589-604 | without such a row the goal is the one the replay started with |
| HydrationLaws.EvidenceIsHydratedWhen | core/core-state/src/task_state.rs:596-597 | there is evidence if and only if the replay started with some or any evidence row follows |
| HydrationLaws.VerificationIsHydratedWhen | core/core-state/src/state_manager/mod.rs:346-354 | there is a verification if and only if the replay started with one or an evidence row follows that says success or has exit code zero |
| Replay.ShortcutIsExactWhen | core/core-state/src/task_state.rs:560-604 | replaying from the last checkpoint, whatever it captured, is the full replay if and only if goal, evidence and verification were each captured as the rows before it have them or are settled by the rows after it |
| Replay.FaithfulCheckpointIsExactWhen | core/core-state/src/task_state.rs:560-587 | a checkpoint of exactly the state before it is exact if and only if that state had a goal, the files have none, or a later row sets one |
| Replay.CompactionReplaysAs | core/core-state-utils/src/jsonl_maintenance.rs:321-326 | compaction keeps the goal and the presence of evidence, never invents a verification, and loses one exactly when the only recent successes are superseded |
| Replay.RechainingReplaysSame | core/core-state/src/task_ledger.rs:366-407 | renumbering and rehashing change nothing a replay sees |
| Replay.CompactedTextReplaysAs | core/core-state/src/task_ledger.rs:275-289 | the same for the bytes: the compacted and rehashed file hydrates to the same goal and evidence, and to a verification only if the old one did |
| Replay.CompactionCanLoseVerification | core/core-state-utils/src/jsonl_maintenance.rs:19-25 | behind any three hundred rows an unsuccessful evidence row forgets the successes since the last checkpoint, and the ledger no longer replays as verified |
| Replay.AppendReplaysWhen | core/core-state/src/task_ledger.rs:263-298 | a duplicate changes nothing that is replayed; an accepted row is replayed as one step if and only if a checkpoint that is due captures the state with it, and a compaction that is due supersedes no success that counts |
| Replay.CheckpointCanLoseVerification | core/framework-extra/src/evidence.rs:240-251 | a checkpoint that falls on a successful evidence row, before the evidence file is written, hides the verification from every later reader |
| Replay.HistoryReplaysWhen | core/core-state/src/task_state.rs:538-613 | over a whole history hydration is one step for each accepted append, at every moment, if and only if every append was exact in that sense |
| LedgerLock.AcquireTaskLedgerRepoLock | core/core-state-utils/src/task_write_lock.rs:86-109 | the lock is taken at the first try that does not block; the caller gives up only at a blocked try after the timeout; the loop ends because every pause takes time |
| LedgerLock.AppendTriesAtMostSevenTimes | core/core-state/src/task_ledger.rs:339-340 | with half a second and the doubling pauses there are at most seven tries |
| LedgerLock.SevenTriesAreMade | core/core-state-utils/src/task_write_lock.rs:86-109 | and exactly seven when the lock stays taken and no pause is longer than asked, at 0, 10, 30, 70, 150, 310 and 510 milliseconds |
| LedgerLock.AdvanceKeeps | core/core-state/src/task_ledger.rs:191-298 | each single read or write inside the critical section keeps what the process knows about the file |
| LedgerLock.StepIsSafe | core/core-state-utils/src/task_write_lock.rs:58-121 | one step of any process keeps the invariant of the interleaving |
| LedgerLock.MutualExclusion | core/core-state-utils/src/task_write_lock.rs:58-112 | in every state of every interleaving at most one process is inside |
| LedgerLock.NoUpdateIsLost | core/core-state/src/task_ledger.rs:334-342 | whenever nobody is inside, the file is exactly what the finished appends leave one after the other, each once, in lock order |
| LedgerLockLaws.AppendRecords | core/core-state/src/task_ledger.rs:179-316 | an append of a row that is not a snapshot leaves its key recorded |
| LedgerLockLaws.FinishedAppendsAreRecorded | core/core-state/src/task_ledger.rs:334-342 | then every finished append has its key in a hash-chained and numbered file |
| LedgerLockLaws.NoKeyIsSharedByProcesses | core/core-state/src/task_ledger.rs:207-226 | and a key that JSON does not escape is in one row at most, however many processes append it at the same time |
| LedgerLockLaws.RunsAreFinite | core/core-state/src/task_ledger.rs:179-342 | no interleaving has more than twelve steps for each process |
| LedgerLockLaws.NoDeadlock | core/core-state-utils/src/task_write_lock.rs:58-112 | some process can step until all have finished or given up |
| LedgerLockLaws.WithoutTheLockAnAppendIsLost | core/core-state-utils/src/task_write_lock.rs:62-64 | with the lock switched off two first appends can both finish and leave no trace of one |
| LedgerCrashes.CompactedTexts | core/core-state/src/task_ledger.rs:274-277 | a compacted text, its members in another order than the ledger writes them, is read as the kept rows with their new numbers |
| LedgerCrashes.PlainKeyIsFoundIn | core/core-state/src/task_ledger.rs:213-226 | in such texts too a key that JSON does not escape is found if and only if a row has it |
| LedgerCrashes.PhaseIsGood | core/core-state/src/task_ledger.rs:191-298 | at every step of an append, over a file that any earlier crashes have left, the file is read as numbered rows that do not share the key, and chained ones except between compaction and rehashing |
| LedgerCrashes.CrashesKeepRows | core/core-state/src/task_ledger.rs:179-316 | with any number of processes crashing at any steps, in every state the lock lets in one process, the rows are numbered, and a key that JSON does not escape is in one row at most |
| LedgerCrashes.CrashesKeepChain | core/core-state/src/task_ledger.rs:274-289 | as long as no process crashes between compaction and rehashing, the rows are hash-chained in every state in which no process is there |
| LedgerCrashes.CrashLeavesOldHashes | core/core-state/src/task_ledger.rs:277-284 | a crash there leaves exactly the kept rows with new numbers and old hashes |
| LedgerCrashes.CompactionChainsAgain | core/core-state/src/task_ledger.rs:366-407 | the next finished compaction chains the rows again |
| StepLedger.StepLedgerContainsIdempotencyKey | core/core-state/src/step_ledger.rs:269-296 | repairs the file and answers whether some line matches; a blank key matches nothing and repairs nothing |
| StepLedger.AppendJsonlEntry | core/core-state/src/step_ledger.rs:243-267 | the answer and the whole file afterwards |
| StepLedgerLaws.SeenIsRecorded | core/core-state/src/step_ledger.rs:269-296 | on whole entries and junk the line scan finds a key exactly when the scanner sees it in a parsed entry |
| StepLedgerLaws.EntryIsAddedOnce | core/core-state/src/step_ledger.rs:243-267 | an append with a key adds its entry exactly when the key is not seen, cuts the corrupt tail, and changes no entry |
| StepLedgerLaws.SecondAppendIsNoOpWhen | core/core-state/src/step_ledger.rs:251-255 | a second append with the key does nothing if and only if the key has no control character |
| StepLedgerLaws.TearBeforeNewlineLosesTwoEntries | core/core-state/src/step_ledger.rs:256-264 | after a tear just before a newline the append reports success and both the torn and the new entry are gone |
| StepLedgerLaws.OpenEnd | core/core-state/src/step_ledger.rs:256-258 | every file text is whole lines and an open end, to which a raw append is glued |
| StepLedgerLaws.EntryOverAnyText | core/core-state/src/step_ledger.rs:243-267 | over any file, with a key or without, an append that is not a duplicate reports success; the entry is glued to the open end of the file, and the glued line stays exactly when it is valid |
| StepHistory.StepKeeps | core/core-state/src/step_ledger.rs:243-296 | each append, lookup or tear keeps a file of whole entries and junk, and changes the entries only by the new one, exactly when its key is not seen |
| StepHistory.EntriesOnlyGrow | core/core-state/src/step_ledger.rs:256-264 | over a whole history no entry is lost, moved or changed |
| StepHistory.NoKeyIsRepeated | core/core-state/src/step_ledger.rs:251-255 | in every state of every history a key without control characters is in one entry at most, whatever other keys are appended |
| StepHistory.AppendsAreIdempotent | core/core-state/src/step_ledger.rs:251-255 | from the first append with such a key on, every later append with it leaves the entries alone, whatever happened between |
| StepRecording.RecordStep | core/core-state/src/step_ledger.rs:139-155 | both files after the critical section of a step |
| StepRecording.StepIsHeld | core/core-state/src/step_ledger.rs:142-144 | an accepted step has a row in the task ledger that holds its whole entry, its key or the empty one, its time and version 1, compaction or not |
| StepRecording.StepIsInBothLedgers | core/core-state/src/step_ledger.rs:139-155 | a step whose key has no control character ends up in both ledgers, whether each file is missing, whole or has a corrupt tail: it is added to both, the task ledger's row holding all of it, or its key was there already; the ledgers stay consistent, and a key that JSON does not escape gets into no second row |
| StepRecording.KeylessStepIsTakenWhen | core/core-state/src/step_ledger.rs:144 | a step without a key is always reported as added to the step ledger, whatever that file holds, and the task ledger takes it, whole, if and only if no row that lasts has the empty key yet |
| AtomicWrite.WriteAtomicBytesToTemp | core/core-state-utils/src/atomic_write.rs:83-144 | the target is replaced or untouched, and no temporary file stays unless its removal fails |
| AtomicWrite.WriteWithRetry | core/core-state-utils/src/atomic_write.rs:176-199 | the first free name among sixteen decides; the write fails on collisions only when all sixteen exist |
| AtomicWrite.ActionInPlace | core/core-state-utils/src/atomic_write.rs:95-129 | one action of a writer keeps its own temporary file as written so far and leaves every other alone |
| AtomicWrite.CleanKeepsWriters | core/core-state-utils/src/atomic_write.rs:61-77 | clearing leftovers by process number takes no file from a live writer |
| AtomicWrite.SweepTakesLeftovers | core/core-state-utils/src/atomic_write.rs:61-77 | and when it happens it takes every leftover of its number and nothing else |
| AtomicWrite.StepIsSafe | core/core-state-utils/src/atomic_write.rs:83-144 | every event, crashes included, keeps the invariant |
| AtomicWrite.TargetIsAlwaysWhole | core/core-state-utils/src/atomic_write.rs:83-144 | in every interleaving of writers, with processes killed and power lost at any step, the target holds its initial content or the whole content of one write |
| AtomicWrite.NoTempHasTwoOwners | core/core-state-utils/src/atomic_write.rs:94-110 | no temporary file has two live owners, and each finds in it exactly what it wrote |
| AtomicWrite.PowerLossIsHarmlessWhen | core/core-state-utils/src/atomic_write.rs:128-137 | in every reachable state a power loss can change the target if and only if its directory is not synced and it held something else before |
| AtomicWrite.TargetIsDurable | core/core-state-utils/src/atomic_write.rs:109-137 | a durable target survives every kill and power loss until the next write takes its name |
| AtomicWrite.WriteIsActions | core/core-state-utils/src/atomic_write.rs:83-144 | every call of the write is a sequence of the interleaved actions and ends as the call does |
| AtomicWrite.RetryIsActions | core/core-state-utils/src/atomic_write.rs:176-199 | so is the retry loop, from any attempt on |

## Left out

- HasCycleIterative: exact only on graphs without dangling dependencies, which validation has excluded before the search; termination holds for every graph.
- AdvanceDag: one reading of the clock serves a whole tick, and tracing output is not modelled.
- ConditionMet: what an output condition compares is an abstract test on the source's output, since only its truth matters; an expression condition is always false, as in the code. Floating-point comparison is not part of this model.
- ScheduleRetries: the end of a backoff is a parameter, since its floating-point formula (`core/chain-engine/src/types.rs:190-198`) matters only for when it expires.
- ProcessTimeouts: reading a timestamp is a parameter; only the fixed-width UTC form that the engine writes is read in `Timestamps`.
- RunsTerminate: the manual retry, skip and resume tools are not events of a run; a resume ends a pause, puts blocked tasks back and would break the bound.
- ParseInvertsPrint: the parser accepts any nesting depth and any size of number, where serde_json refuses more than 128 levels and turns large integers into fractions; numbers are kept as text.
- ReadTx: repeated fields are read like a map, the last one wins, where serde refuses them for a typed row; rows written by the ledger have none.
- SkipContainerValue: the depth counter is unbounded where the source counts in 32 bits.
- TruncateCorruptTail: offsets count characters where the source counts bytes, and shortening a file is one step.
- SplitLines: a carriage return before a newline stays on the line; every user trims the line.
- AppendTransactionAssumingL1Held: errors of reading and writing files are not modelled, a failed checkpoint, compaction or rehash is only logged in the source, and the compaction behind the first append has nothing to do.
- HistoriesAreKept: for crash-free histories; `LedgerCrashes` says what crashes keep. A failed rehash, which the source only logs, leaves what a crash there leaves.
- CrashesKeepRows: a crash falls between the writes of an append, never inside one, because each write replaces the file atomically; power loss is modelled in `AtomicWrite` alone.
- FinishedAppendsAreRecorded: for keys used only by rows that are not snapshots, which is how every caller in the repository uses keys; the keys themselves may be anything.
- StepIsInBothLedgers: for keys without control characters, which are the keys the scanner reads as they are.
- LedgerHistory.AppendsAreIdempotent: for keys that JSON does not escape; the filter finds an escaped key only where its text happens to occur in the row.
- StepHistory.StepKeeps: an append without a key comes only after a repair or on a whole file, and a tear takes no newline; `StepLedgerLaws.EntryOverAnyText` and `StepLedgerLaws.TearBeforeNewlineLosesTwoEntries` cover those files.
- StaysUnfinishedWhen: for chains without conditions, since the outputs that conditions read come from outside.
- AppendReplaysWhen: the appended rows are not themselves checkpoints, which only the ledger writes.
- NoUpdateIsLost: readers that repair the tail without the lock (`core/core-state/src/task_state.rs:474`) are not among the processes, and no process crashes inside; `LedgerCrashes` lets them crash.
- AtomicWrite.CleanKeepsWriters: no other running process has the same number; writers that are handed a temporary name by their caller are not modelled.
- Not modelled because they follow from reading one branch or only log: `compute_ready_tasks`, `load_condition_task_outputs`, `status_counts`, `verify_task_ledger_chain_integrity`, the step summary, the gates and scores of `task_state.rs`.
- Directory creation, permissions, environment flags and command handling.
