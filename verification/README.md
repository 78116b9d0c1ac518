# A model of daggle, with proofs

daggle runs DAGs of R and shell steps: it expands and sorts the steps, runs them tier by tier in
parallel, and starts runs on schedules, file changes and webhooks. This project models the parts of
it whose correctness is hard to see from one function, in Dafny 4.11, and proves what they promise.
`dafny verify dfyconfig.toml` checks all of it.

| file | what it models |
|---|---|
| `Diff.dfy` | the LCS diff: table, traceback, reversal, printed hunk |
| `TopoSort.dfy` | Kahn's algorithm over maps and a queue, tier by tier |
| `Matrix.dfy`, `Expansion.dfy`, `InstanceIds.dfy` | matrix combinations; what expansion does to the graph; when instance IDs are distinct |
| `Retry.dfy`, `Engine.dfy`, `EngineSafety.dfy`, `EngineCancel.dfy`, `EngineProgress.dfy` | one step's goroutine; the tier loop and its interleavings; what holds in all of them; what a cancel request does; why every run ends |
| `Events.dfy`, `Summary.dfy`, `RunReport.dfy` | the event log; the summaries read from it; what they show of a run |
| `Pipeline.dfy` | expansion, sorting and engine put together |
| `Scheduler.dfy` | admission of runs by concurrent triggers |
| `Ticks.dfy` | cron polls and the catch-up of missed ticks |
| `Sync.dfy` | incremental registration of DAG files |
| `Plan.dfy`, `CacheKey.dfy` | the two plan passes, and the text a cache key is the hash of |
| `Redact.dfy`, `Drain.dfy`, `Stream.dfy`, `Scan.dfy`, `Manifest.dfy` | secrets in output, reading a step's output, following a log, line scanning, the archive manifest |
| `Text.dfy`, `Sorting.dfy`, `SortedKeys.dfy`, `Dag.dfy` | newline-terminated text, decimal numbers, joins, sorted order, map iteration, steps and graphs |

How the system is represented:

- Concurrency is a state machine. A critical section, or the stretch of a goroutine between two
  events other goroutines can see, is one atomic action; which action comes next is left open, so a
  theorem about reachable states speaks of every interleaving. The engine's answers from outside
  (executor results, guards, validations, artifacts, the cancel file) are choices of an action. The
  scheduler's critical sections are also written as methods of a class that refine the actions.
- Code that loops and updates is a method with the same loop, proved against a specification that
  does not mention the loop; objects the source updates in place are classes.
- Iteration over a Go map is a loop that picks any remaining key.
- Text is a sequence of characters, one per byte. Integers are unbounded, except that the retry
  delay is computed in 64 bits.
- `cron.Schedule.Next` is any function with `Next(t) > t`, SHA-256 any function (injective where a
  key must determine its inputs, and with 64 hexadecimal digits where a manifest is written), YAML
  parsing any function of path and content. `bufio.Scanner` is its rule for lines that fit, and a
  `bufio.Reader` may fill its buffer at any point before the next newline. Which writes to a client
  succeed is any function of their number.
- A cron fire carries the tick it was due for, which the source does not keep; the source's two maps
  of cron entries are one map here, so entries may be visited in more orders than the source's.

Where the code does not do what one would expect, the project says exactly when it does:

- Redaction with a single secret hides it in every text exactly when the secret does not start or end
  with `*` and does not contain `***` (`Redact.CompleteIffMaskable`). Such a secret is hidden among any
  others (`Redact.MaskableGone`), and so is one that contains it (`Redact.CoveredGone`).
- The exponential retry delay is the configured one exactly up to attempt 34, and later only where a
  maximum is reached by the overflowed product (`Retry.ExponentialDelayExactIff`,
  `Retry.PositiveMaximumExactIff`).
- `Verify` accepts the output of `Create` exactly when no path has a newline in it, ends in a
  carriage return, or is too long for a manifest line (`Manifest.CreatedArchivePasses`).
- Matrix instance IDs of a step in whose parts no other part seems to begin are distinct exactly when no
  list repeats a value or there are no instances (`InstanceIds.NamesDistinctIff`). Those of a DAG are
  distinct exactly when, besides, no step's ID is taken by the instances of another one
  (`InstanceIds.FreshNamesIff`), which cannot be if no ID goes on after that of a matrix step with a `-`
  (`InstanceIds.FreshWithoutExtension`) and happens in `InstanceIds.TakenIdCollides`.
- Cache keys determine their inputs exactly when no output key is another one followed by `=` and more,
  as long as nothing contains a NUL (`CacheKey.CanonicalIffUnambiguous`), and, for `=`-free output keys,
  exactly over alphabets without NUL (`CacheKey.CanonicalIffNoNul`).
- For files with unique names an incremental sync agrees with a rescan exactly when the registrations
  kept for skipped files are those of their triggers (`Sync.SyncAgreesIff`); with unique names before
  and now, and mtimes that change with the content, that is so at every sync (`Sync.EverySyncAgrees`).
- A step that returned an error is shown as completed exactly after an artifact error
  (`Summary.FailedEntry`), and such a run exists (`RunReport.FailedRunShownCompleted`); "succeeded"
  therefore always means that `runStep` returned nil.
- A poll of a log reports the end exactly when it has met a terminal event, no line that is too long
  and no failed write (`Stream.PollReportsEnd`); a terminal event before a long line is not reported.
- A line of exactly the limit is handed over whole by `drainLines` with a note that one byte was
  dropped, the newline (`Drain.LineOfLimitLength`).
- `drainLines` accounts for every byte of a line exactly when the line is not cut right after a CR
  (`Drain.AccountedIff`); that CR is then neither handed over nor counted (`Drain.CrLost`), which
  can happen to progress output that prints `\r` without a newline.

The comment on `splitLines` in `state/diff_util.go` speaks of one trailing newline, the code drops all
of them; the diff is therefore stated on lines, not on bytes. `streamNewLines` assumes that the log
is newline-terminated; the model states what one poll does with any file, and what follows over many
polls for files of whole lines.

## Model

| member | source | states |
|---|---|---|
| Diff.LcsIsUpperBound | state/diff_util.go:73-90 | No common subsequence of the two texts is longer than Lcs. |
| Diff.LcsIsAttained | state/diff_util.go:73-90 | Some common subsequence has length Lcs, so Lcs is the length of a longest one. |
| Diff.FillTable | state/diff_util.go:74-90 | Every cell of the filled table is the Lcs of the two prefixes. |
| Diff.LcsCell | state/diff_util.go:79-89 | A cell follows from its three neighbours by the code's case distinction, ties going to the upper one. |
| Diff.Traceback | state/diff_util.go:92-115 | The collected operations, read backwards, are an edit script that keeps Lcs lines. |
| Diff.TraceSame | state/diff_util.go:96-99 | Stepping diagonally over equal lines keeps the partial script completable to Lcs kept lines. |
| Diff.TraceRemoved | state/diff_util.go:100-102 | Stepping up keeps the partial script completable when the table does not lose a line. |
| Diff.TraceAdded | state/diff_util.go:103-106 | Stepping left keeps the partial script completable when the table does not lose a line. |
| Diff.TraceRest | state/diff_util.go:108-115 | When one text is used up, the rest of the other completes the script. |
| Diff.ReverseInPlace | state/diff_util.go:117-119 | The swapping loop reverses the list. |
| Diff.HasChange | state/diff_util.go:121-126 | The final scan finds a change exactly if some operation is not a kept line. |
| Diff.DiffOps | state/diff_util.go:73-127 | Nil (the empty list) exactly when the texts are equal; otherwise a script that turns a into b, keeps Lcs lines, has the fewest insertions plus deletions of all scripts, and is the one of these that Script names, with what is added listed before what is removed. |
| Diff.ScriptAddsFirst | state/diff_util.go:92-107 | The tie rule of the traceback: in the script an added line never comes right after a removed one. |
| Diff.FollowsToEnd | state/diff_util.go:92-119 | The reversed traceback is that script. |
| Diff.ScriptKeepsCommonLines | state/diff_util.go:67-73 | The kept lines of any script are a common subsequence, and its number of changes is fixed by how many there are. |
| Diff.KeepingLcsIsMinimal | state/diff_util.go:72-73 | A script that keeps Lcs lines has no more changes than any other script. |
| Diff.UnchangedIffEqual | state/diff_util.go:121-126 | A minimal script consists of kept lines only exactly when the texts are equal. |
| Diff.CountHunk | state/diff_util.go:30-45 | The printed body lines, with the number of lines each text has. |
| Diff.UnifiedDiff | state/diff_util.go:24-65 | Empty for equal texts; otherwise the printed form of a minimal script, which a patch reader reads back: the old label after "--- ", the new one after "+++ ", 1 as the first line of each text that is not empty, and the two lengths and texts. |
| Diff.ReadFormattedHeader | state/diff_util.go:59 | The four numbers of a printed hunk header read back as they were. |
| Diff.ReadHunkBody | state/diff_util.go:32-45 | Keeping ' ' and '-' lines of the printed body gives the one text, keeping ' ' and '+' lines the other. |
| Diff.ReadPrintedDiff | state/diff_util.go:56-64 | Reading a printed diff of newline-free lines back, with its file markers, header and line markers checked, gives the labels, both texts, their lengths, and 1 or 0 as the first lines. |
| TopoSort.BuildGraph | dag/toposort.go:9-19 | The maps index the steps and list a step under a dependency once per entry, repeated entries included. |
| TopoSort.AddEntries | dag/toposort.go:16-18 | A step is appended under each of its dependency entries, once per entry. |
| TopoSort.Seed | dag/toposort.go:21-27 | The first queue holds exactly the steps without dependencies, each once. |
| TopoSort.Release | dag/toposort.go:43-48 | One finished step lowers each dependent's count by its number of entries, and queues those that reach zero, once. |
| TopoSort.ProcessQueue | dag/toposort.go:40-50 | After a round the counts are again the unfinished entries, and the next queue is exactly what became ready. |
| TopoSort.RunRounds | dag/toposort.go:29-51 | The loop places steps tier by tier until none is ready, and counts the placed ones. |
| TopoSort.TopoSort | dag/toposort.go:8-58 | Accepts any steps. For unique IDs it succeeds exactly when all dependencies are known and there is no cycle; then every step is in exactly one tier, the earliest its dependencies allow; otherwise the reported number is that of the steps left over. |
| TopoSort.TierIsDepth | dag/toposort.go:32-51 | The tier of a placed step is the length of the longest dependency path that starts at it. |
| TopoSort.FindCycle | dag/toposort.go:53-55 | Following successors inside a finite set closes a cycle. |
| TopoSort.UnplacedHaveReason | dag/toposort.go:53-55 | If steps are left over, one waits for an unknown dependency or they contain a cycle. |
| TopoSort.PlacedIffAcyclic | dag/validate.go:529-538 | Everything can be placed exactly when all dependencies are known and there is no cycle. |
| SortedKeys.KeysInAnyOrder | dag/matrix.go:103-106 | A map is iterated over each key once, in an order nothing is assumed about. |
| SortedKeys.KeyOrderUnique | dag/matrix.go:102-107 | Sorting makes the key order independent of the iteration order. |
| Sorting.SortCanonical | cache/cache.go:104 | Two lists sort to the same list exactly when they are permutations of each other. |
| Sorting.FirstDifferenceDecides | dag/matrix.go:107 | Strings are ordered by the first character in which they differ, and a string comes before its continuations. |
| Matrix.MatrixCombinations | dag/matrix.go:101-132 | The loop builds the combinations of the sorted keys, whatever order the map is iterated in. |
| Matrix.ExtendAll | dag/matrix.go:118-129 | One more key: every combination with every value, values varying fastest. |
| Matrix.CombosSize | dag/matrix.go:109-114 | As many combinations as the product of the list lengths, empty lists included. |
| Matrix.ComboKeys | dag/matrix.go:116-130 | Every combination has a value for every key and no other key. |
| Matrix.MixedRadix | dag/matrix.go:99-132 | Entry i holds for each key the value its mixed-radix digit of i selects, the last key varying fastest. |
| Matrix.EveryChoiceAppears | dag/matrix.go:99-132 | Every choice of one value per key is one of the combinations. |
| Matrix.CombosDistinct | dag/matrix.go:116-130 | Lists without repeated values give pairwise different combinations. |
| Expansion.InstanceName | dag/matrix.go:31-35 | An instance ID is the original ID and the key_value parts joined in some order of the keys. |
| Expansion.ExpandStep | dag/matrix.go:23-60 | A matrix step becomes one instance per combination, without its matrix and with the instance's ID. |
| Expansion.NewDepends | dag/matrix.go:71-78 | Dependencies on a matrix step are replaced by all its instance IDs, others stay. |
| Expansion.ExpandSteps | dag/matrix.go:13-63 | The first pass: all instances in order, and the map from original to instance IDs. |
| Expansion.RewireSteps | dag/matrix.go:65-80 | The second pass replaces the dependencies of every expanded step and changes nothing else. |
| Expansion.ExpandMatrix | dag/matrix.go:12-83 | The expanded steps are those of the two passes for some naming of the instances. |
| Expansion.ExpandedAreInstances | dag/matrix.go:12-83 | Every expanded step is an instance of an original, has its retry block, artifacts, caching and code and no matrix, and depends on exactly all instances of each of its dependencies. |
| Expansion.InstancesAreExpanded | dag/matrix.go:12-83 | Every instance is among the expanded steps. |
| Expansion.NameOnce | dag/matrix.go:35-36 | If the expanded IDs are distinct, no name is used for two instances. |
| Expansion.EdgeComesFrom | dag/matrix.go:65-80 | A dependency between instances comes from a dependency between their originals. |
| Expansion.CycleComesFrom | dag/validate.go:529-538 | A cycle among the expanded steps projects to a cycle among the originals. |
| Expansion.ExpansionKeepsGraph | dag/matrix.go:12-83 | If validation accepted the steps and the new IDs are distinct, the expanded steps have known dependencies and no cycle. |
| Expansion.InstanceCount | dag/matrix.go:109-114 | A matrix step has as many instances as the product of its list lengths; a plain step stays one step. |
| Expansion.InstancesKeepTier | dag/matrix.go:12-83 | With non-empty value lists, every instance runs in the tier of its original. |
| InstanceIds.JoinDecodes | dag/matrix.go:31-35 | Parts in which no other part seems to begin can be told from their join, also with '-' and '_' in keys and values. |
| InstanceIds.JoinSplits | dag/matrix.go:31-35 | Where such a part begins inside a join, one of the joined parts ends. |
| InstanceIds.NameDecodes | dag/matrix.go:31-35 | In a legible matrix the choice of values can be told from the instance ID, whatever the map orders. |
| InstanceIds.NamesDistinctIff | dag/matrix.go:31-36 | The instance IDs of a legible step are distinct in every map order exactly when no list repeats a value or some list is empty. Legible: no key is another one followed by '_' and more, and in no key_value part another one seems to begin. |
| InstanceIds.DashFreeIsLegible | dag/matrix.go:31-36 | Keys and values without '-' are legible if no key is another one followed by '_' and more. |
| InstanceIds.KeysSafeIff | dag/matrix.go:31-36 | '-'-free keys give distinct IDs for all '-'-free lists without repetitions if and only if none of them is another one followed by '_' and more. |
| InstanceIds.ExtendedKeyCollides | dag/matrix.go:31-36 | A matrix without repeated values whose IDs collide because one key goes on after another with '_'. |
| InstanceIds.IllegibleValueCollides | dag/matrix.go:31-36 | A matrix without repeated values whose IDs collide because a part seems to begin inside a value. |
| InstanceIds.SingleKeyAlwaysCollides | dag/matrix.go:31-36 | With one key and a repeated value, two instances get the same ID in every map order. |
| InstanceIds.FreshNamesIff | dag/matrix.go:12-83 | For unique step IDs and legible matrices, the expanded IDs of a whole DAG are distinct in every map order exactly when no matrix with instances repeats a value and no step is shadowed: no step's ID is an instance ID of another step for some of its keys, the remaining keys being the step's own with a value in common for each. |
| InstanceIds.FreshWithoutExtension | dag/matrix.go:12-83 | If no step's ID is that of a matrix step followed by '-' and more, each matrix need only be legible by itself, and the IDs are distinct exactly when no matrix with instances repeats a value. |
| InstanceIds.TakenIdCollides | dag/matrix.go:31-36 | A plain step called like an instance of a step with one key is shadowed by it, and then every map order gives two expanded steps one ID. |
| InstanceIds.RepeatedValueCollides | dag/matrix.go:31-36 | Any step with a repeated value and instances has a map order in which two instances get the same ID. |
| Retry.ExecuteWithRetries | internal/engine/retry.go:16-60 | Whatever the executor answers, the events written and the result are those of a path of the step's goroutine, the first successful attempt deciding. With a retry limit L > 0, an executor that fails L times and then succeeds is started L+1 times with L retries and completes, one that always fails is started L+1 times, and without a positive limit there is one attempt. |
| Retry.AttemptsWithinLimit | dag/dag.go:441-446 | In every phase of a goroutine its executor has been started at most L+1 times with a limit L > 0, and at most once otherwise. |
| Retry.GivesUpAtLimit | dag/dag.go:441-446 | A goroutine gives up after a failed attempt only when it has made exactly so many. |
| Retry.LogsAreExactly | internal/engine/retry.go:16-130 | The logs a step can leave behind, with nil and with an error, are exactly those of the stated shapes: each of them is written by some path. |
| Retry.OnStepSuccess | internal/engine/retry.go:66-130 | The completed event may be followed by artifact events, or by a failed event after a validation, or by an error without one; again a path of the goroutine. |
| Retry.VerifyArtifacts | internal/engine/artifacts.go:15-65 | Artifacts are recorded up to the first that is missing or cannot be hashed, which is the error. |
| Retry.PathConsistent | internal/engine/retry.go:16-60 | What any path of the goroutine has written has the shape of the phase it ends in. |
| Retry.AdvanceConsistent | internal/engine/retry.go:33-59 | Each step of a goroutine extends the step's log to the shape its new phase allows. |
| Retry.AdvanceWorks | internal/engine/retry.go:33-59 | Each step of a goroutine uses up work, which bounds the attempts. |
| Engine.MoverLogged | internal/engine/retry.go:33-110 | When a goroutine moves, the events of its step in the shared log keep the shape its phase allows. |
| Engine.OthersUntouched | internal/engine/engine.go:199-222 | No other transition changes the events of a step in the shared log. |
| Retry.CanAdvance | internal/engine/engine.go:224-249 | A goroutine inside runStep can always move. |
| Retry.ExponentialDelayExactIff | internal/engine/retry.go:158-170 | For every attempt and maximum, the returned delay is 2^(attempt-1) seconds cut to the maximum exactly if the attempt is at most 34 or there is a maximum that does not exceed the overflowed product. |
| Retry.PositiveMaximumExactIff | internal/engine/retry.go:158-170 | With a positive maximum and a later attempt, it is so exactly at attempts 38, 42, 43, 46, 48, 51, 52 and 54, and there only up to the overflowed product. |
| Retry.OverflowedIsProduct | internal/engine/retry.go:161 | The 64-bit product for every attempt from 35 on: the listed values up to attempt 55, and 0 from 56 on. |
| Retry.DelayTurnsNegative | internal/engine/retry.go:161 | From attempt 35 on the 64-bit product wraps: at attempt 35 the delay is negative. |
| Retry.LinearDelay | internal/engine/retry.go:158-170 | Without a retry block or with linear backoff the delay before the next attempt is n seconds after attempt n, cut to the maximum. |
| Engine.InvKept | internal/engine/engine.go:106-222 | Every transition keeps the invariant on phases, tiers, semaphore, errors and log. |
| EngineSafety.DependenciesFirst | internal/engine/engine.go:152-222 | In every interleaving a step enters runStep only after runStep of each of its dependencies has returned nil. |
| EngineSafety.ErrorStopsLaterTiers | internal/engine/engine.go:164-174 | Once a step has returned an error, no step of a later tier has been started. |
| EngineSafety.ErrorStopsLaterTiersForever | internal/engine/engine.go:164-174 | And no continuation of the run ever starts one. |
| EngineSafety.CancelStopsTiers | internal/engine/engine.go:151-162 | Once a tier start has seen the cancel request, that tier and all later ones are never started and the run is failed. |
| EngineSafety.OutcomesStay | internal/engine/engine.go:199-222 | What a step returned is never taken back, the log only grows, and a finished run stays as it is. |
| EngineSafety.RunOutcome | internal/engine/engine.go:106-197 | A finished run's log opens with run_started and ends with its only verdict, which is run_completed exactly when the DAG could be scheduled, every step returned nil and no tier start saw a cancel. |
| EngineSafety.UnrunnableStartsNothing | internal/engine/engine.go:126-143 | With an unknown notification channel, or steps that cannot be sorted, no step is ever started and the log is run_started and run_failed. |
| EngineCancel.RequestAtAnyTime | internal/engine/engine.go:267-271 | A request can come in any reachable state that has none yet; it is noted and changes nothing else until the next tier start. |
| EngineCancel.RequestStopsLaterTiers | internal/engine/engine.go:150-158 | From any reachable state with a cancel request and a tier still to be started, no continuation starts a step of that tier or a later one, and every finished one has failed. |
| EngineCancel.LateRequestIsHarmless | internal/engine/engine.go:150-177 | Once the last tier has been started, a request changes nothing: the run completes exactly when all steps return nil. |
| EngineCancel.NoRequestNoCancel | internal/engine/engine.go:150-158 | Without a request no run is taken for cancelled. |
| EngineSafety.StepEventsInShape | internal/engine/retry.go:33-110 | At every moment the events of a step have the shape of its phase; at the end: none, skipped, cached, or at most MaxAttempts attempts and their verdict. |
| EngineProgress.ParallelismBounded | internal/engine/engine.go:97-99 | With a positive limit, at most that many steps are inside runStep. |
| EngineProgress.FreeSlotIsGiven | internal/engine/engine.go:204-212 | A waiting step can enter runStep whenever fewer than maxParallel steps hold a slot, and always without a positive limit. |
| EngineProgress.NeverStuck | internal/engine/engine.go:149-222 | In every reachable state that is not final, some transition of the engine is enabled. |
| EngineProgress.MeasureShrinks | internal/engine/engine.go:149-222 | Every transition lowers a measure of tiers, steps and attempts left. |
| EngineProgress.RunsAreBounded | internal/engine/engine.go:149-222 | No run is longer than the measure of its first state, which never falls below 0. |
| EngineProgress.MaximalRunsAreOver | internal/engine/engine.go:106-222 | No run from the start is longer than a bound fixed by the DAG, and a run the engine cannot go on with is exactly one that has its verdict. |
| RunReport.EveryStepOnPath | internal/engine/engine.go:199-249 | At every moment of every interleaving, a step stands where a path of its goroutine leads, and its events in the shared log are those of that path. |
| RunReport.ReportedByLastChoice | state/summary.go:37-75 | In every interleaving, what the summaries of the log show for a step that has returned is determined by the last thing that happened to it, and so is whether it returned nil. |
| RunReport.AttemptsInRun | internal/engine/retry.go:30-59 | In every interleaving no step is started more often than its retry limit and once more, and one that is given up after a failed attempt has been started exactly so often. |
| RunReport.EveryPathIsRun | internal/engine/engine.go:106-222 | Conversely every path of a goroutine to its end is run by an interleaving of a one-step DAG, with the path's log and verdict. |
| RunReport.FailedRunShownCompleted | internal/engine/retry.go:106-110 | So there is a reachable finished run that failed and whose only step is shown as completed, for every step that declares an artifact. |
| Pipeline.SortedIsValid | internal/engine/engine.go:138-143 | What TopoSort returns for steps with unique IDs is all the engine's theorems assume. |
| Pipeline.Prepare | internal/engine/engine.go:135-143 | A DAG that validation accepts is expanded and sorted without error if the expanded IDs are distinct, which they are for legible matrices without repeated values and without a step shadowed by another. |
| Pipeline.InstancesWaitForInstances | internal/engine/engine.go:135-174 | In every interleaving, no instance of a step is entered before every instance of each step it depends on has returned nil. |
| Events.ProjectAppend | state/summary.go:27-36 | An event changes the projection of its own step only. |
| Summary.BuildStepSummaries | state/summary.go:23-83 | Each step's entry is a function of its own events alone, and entries come in first-seen order. |
| Summary.NamesFirstSeen | state/summary.go:31-36 | There is one entry for each step with events and none for others. |
| Summary.FirstSeenOrder | state/summary.go:78-82 | Of two entries, the first is the one whose step was seen first. |
| Summary.StatusOfLast | state/summary.go:37-75 | For any events of a step, approvals included, the status is that of the last one other than artifacts. |
| Summary.AttemptsOfLast | state/summary.go:38-58 | The number of attempts is that of the last started, completed or failed event. |
| Summary.MessageOfLast | state/summary.go:61-63 | The message is that of the last wait for an approval. |
| Summary.CacheKeyOfLast | state/summary.go:70-75 | The cache key is that of the last cache hit that carries one. |
| Summary.UntoldStaysEmpty | state/summary.go:31-36 | The step is cached exactly if some event says so, and what no event tells stays empty. |
| Summary.SucceededEntry | state/summary.go:37-75 | A step that returned nil is shown as skipped, cached or completed, with at most MaxAttempts attempts. |
| Summary.ReturnedEntry | state/summary.go:37-75 | A step that returned is shown with the status that belongs to the last choice on its goroutine's path. |
| Summary.FailedEntry | state/summary.go:37-75 | A step that returned an error is shown as failed exactly if its last attempt failed or its validation did, as completed exactly if an artifact failed, and not at all exactly if a guard did. |
| Summary.ShownStatus | state/summary.go:37-75 | What is shown at any moment of a run matches the step's phase; a step that returned nil is never shown as failed, one that returned an error never as skipped or cached. |
| Scheduler.AdmissionSafe | scheduler/scheduler.go:371-430 | In every reachable state the counter is the size of the map and within the limit, a DAG has at most one registered run and it is the one in the map, a run with a closed channel is not in the map, and every run was admitted by exactly one trigger. |
| Scheduler.EnterDecides | scheduler/scheduler.go:371-419 | First critical section, on the fields: a DAG that is not running is started, with a new active run in the map and the count one higher, exactly if fewer than the limit are running, else refused as full; one that is running is left alone, or exactly its run is cancelled and waited for. |
| Scheduler.ResumeDecides | scheduler/scheduler.go:381-419 | After the wait, which ends with the closed channel or the timer: skipped if a run of the DAG is registered again, else started or refused by the same rule. |
| Scheduler.EndDecides | scheduler/scheduler.go:420-430 | A run that ends removes exactly its own entry and its count, and then closes its channel. |
| Scheduler.ArriveDecides | scheduler/scheduler.go:357-371 | A trigger can always arrive and changes nothing but the list of triggers. |
| Scheduler.EntriesLastUntilUnregistered | scheduler/scheduler.go:371-430 | No map entry is overwritten or dropped except by its own run. |
| Scheduler.AllEndedMeansEmpty | scheduler/scheduler.go:420-430 | Once every run goroutine has unregistered, the map is empty and the count is 0. |
| Scheduler.SomebodyMoves | scheduler/scheduler.go:374-405 | While a trigger is undecided or a channel is open, some goroutine can move. |
| Scheduler.WorkShrinks | scheduler/scheduler.go:371-430 | Every action other than a new arrival uses up work. |
| Scheduler.RunsAreBounded | scheduler/scheduler.go:371-430 | A run of the system takes at most five actions per trigger on top of the work in progress. |
| Scheduler.InvKept | scheduler/scheduler.go:371-430 | Every critical section keeps the invariant. |
| Scheduler.SchedulerState.constructor | scheduler/scheduler.go:113-160 | A new scheduler has nothing registered. |
| Scheduler.SchedulerState.NewTrigger | scheduler/scheduler.go:357-369 | A trigger arrives with its DAG's name and overlap policy and changes nothing else. |
| Scheduler.SchedulerState.EnterTrigger | scheduler/scheduler.go:371-419 | The first critical section: skip, cancel the old run and wait, refuse when full, or register. |
| Scheduler.SchedulerState.ResumeTrigger | scheduler/scheduler.go:390-419 | The second critical section, after the wait: skip if someone else registered, refuse when full, or register. |
| Scheduler.SchedulerState.AdmitOrRefuse | scheduler/scheduler.go:404-419 | Refuse at the limit, else register a new run and count it. |
| Scheduler.SchedulerState.UnregisterRun | scheduler/scheduler.go:424-429 | A finished run removes its entry and its count. |
| Scheduler.SchedulerState.CloseRun | scheduler/scheduler.go:422-424 | Only then is its channel closed. |
| Ticks.DueIsOrbit | scheduler/cron_executor.go:61-64 | The ticks due are the points of the schedule's orbit up to now, each once, in order. |
| Ticks.UpcomingIsFirstAfter | scheduler/cron_executor.go:61-64 | The entry is left at the first orbit point after now. |
| Ticks.PollsCompose | scheduler/cron_executor.go:61-64 | Polling twice does what polling once at the later time does, also when the clock went back. |
| Ticks.DueIsFiredOrbit | scheduler/cron_executor.go:61-64 | The due ticks are the orbit up to now, each once and in order, and the entry is left at the least orbit point after it. |
| Ticks.CaughtUpMeans | scheduler/cron_executor.go:56-79 | What a poll has done for each owner: the entry of a DAG or of an enabled runtime schedule has fired its orbit up to now, a disabled one has fired nothing and keeps its time. |
| Ticks.CronEntry.constructor | scheduler/cron_executor.go:26-38 | A new entry waits for the first tick after its registration. |
| Ticks.FireEntry | scheduler/cron_executor.go:61-64 | One entry fires its due ticks in order and moves on to the next. |
| Ticks.FireSlots | scheduler/cron_executor.go:56-75 | In whatever order entries are visited, each active one fires its own due ticks, and all others keep their time. |
| Ticks.CronScheduler.FireDueCronEntries | scheduler/cron_executor.go:46-85 | One poll fires exactly the ticks due for each active entry. |
| Ticks.CronScheduler.Poll | scheduler/cron_executor.go:40-46 | Any sequence of polls fires, for each entry, exactly what one poll at the latest time would. |
| Ticks.CronScheduler.CatchupOnce | scheduler/catchup.go:16-24 | True for the first call with a name only. |
| Ticks.CollectTicks | scheduler/catchup.go:43-53 | All ticks up to now, cut to the limit in mode "all" with a positive limit, and whether there were more. |
| Ticks.MissedTicks | scheduler/catchup.go:35-61 | No ticks without schedule, anchor or known mode; the last missed one for "once"; for "all" the missed ones, cut to the limit, with the flag set exactly when there were more. |
| Ticks.MissedIsOrbit | scheduler/catchup.go:26-34 | The missed ticks are the orbit points in (lastEnd, now], ascending. |
| Sync.SyncAgreesWithRescan | scheduler/sync.go:16-59 | One sync from a state in step with the last snapshot ends in step with the new one, if names are unique and mtimes change with contents, in whatever order files are listed. |
| Sync.EverySyncAgrees | scheduler/sync.go:94-250 | After any sequence of edits, additions and deletions, every sync leaves registered exactly the names and hashes a full rescan would register. |
| Sync.SyncResult | scheduler/sync.go:16-59 | For any state and any files: the last file read with a trigger of a name decides on its registration, and a name no file read has lives on only through a skipped file known by it. |
| Sync.SyncedCache | scheduler/sync.go:52-59 | After a sync the cache has exactly the listed files, each as it was read: its mtime and its DAG name, empty if it cannot be parsed. |
| Sync.SyncAgreesIff | scheduler/sync.go:16-59 | From any state, and for files with unique names, a sync registers what a rescan would if and only if the registrations that live on are those of the triggers in the files it skips. |
| Sync.StaleStaysStale | scheduler/sync.go:117-128 | A skipped file whose trigger is registered with another hash, or not at all, stays wrong while no file with a trigger of its name is read. |
| Sync.DuplicateNameGoesStale | scheduler/sync.go:117-128 | Of files with one name the last one read takes the registration; once it is gone, another one with other content is not registered while it is skipped. |
| Sync.DuplicateNameExample | scheduler/sync.go:117-128 | A pair of files and a listing order for which this happens. |
| Sync.KeptMtimeGoesStale | scheduler/sync.go:117-128 | Any registered file whose content changes without its mtime keeps its old registration. |
| Sync.Registry.VisitFile | scheduler/sync.go:117-246 | One file: skipped if its mtime is known, else parsed, cached, and registered if it has a trigger. |
| Sync.Registry.PruneUnregistered | scheduler/sync.go:42-59 | Registrations not seen and cache entries of missing files are dropped. |
| Sync.Registry.SyncDAGs | scheduler/sync.go:16-36 | A sync visits every listed file once and then prunes. |
| Sync.Registry.constructor | scheduler/scheduler.go:113-160 | Nothing is registered or cached at first. |
| Plan.FlattenTiers | internal/cli/plan.go:54-58 | The tiers laid end to end. |
| Plan.TiersAreOrdered | internal/cli/plan.go:48-58 | The flattened tiers of a sort hold all steps, dependencies before their dependents. |
| Plan.StaleStep | api/dags.go:310-349 | A step is stale exactly if it is cached and its own lookup misses or one of its dependencies is stale. |
| Plan.UpstreamOutdated | api/dags.go:310-316 | The first stale dependency, if there is one. |
| Plan.BuildPlanEntries | api/dags.go:296-364 | The API pass gives every step the status of the reachability definition, and a reason that names the first stale dependency or the step's own. |
| Plan.ComputePlan | internal/cli/plan.go:98-161 | The CLI pass gives every step the same, with its own wording of a step's own reason. |
| Plan.PassesAgree | internal/cli/plan.go:97-161 | Both passes give identical statuses: outdated exactly when a path through cached steps leads to a step whose own lookup misses. |
| Plan.ReasonsInWords | internal/cli/plan.go:97-175 | The reasons: the first outdated dependency, or what the step itself runs, which the two passes word differently for steps that are not scripts. |
| CacheKey.ComputeStepKey | cache/cache.go:100-123 | The text that is hashed is the encoding of the inputs, and the caller's variables are left sorted. |
| CacheKey.EncodingIgnoresOrder | cache/cache.go:104-115 | Permuting the variables or iterating the outputs in another order does not change the text. |
| CacheKey.TextInFull | cache/cache.go:100-123 | The hashed text in full for one variable, one output and a lock file, with its tags and separators. |
| CacheKey.InputsFromText | cache/cache.go:90-123 | Plain inputs with the same text agree on step type, variables up to order, outputs and renv hash. |
| CacheKey.KeysAreCanonical | cache/cache.go:90-123 | With a collision-free hash, and output keys none of which is another one followed by '=' and more, two NUL-free inputs share a key exactly when they are the same up to order. |
| CacheKey.CanonicalIffUnambiguous | cache/cache.go:90-123 | For a set of NUL-free output keys, no two NUL-free inputs with keys from it collide if and only if none of the keys is another one followed by '=' and more. |
| CacheKey.CanonicalIffNoNul | cache/cache.go:90-123 | For an alphabet that can write "env:", no two inputs over it with '='-free output keys collide if and only if NUL is not in it. |
| CacheKey.EqualsSignCollides | cache/cache.go:114-116 | An '=' in an output key makes two different inputs share their text. |
| CacheKey.NulCollides | cache/cache.go:90-94 | A variable with a NUL and "env:" in it shares its text with the two variables it looks like. |
| CacheKey.BareStepTypeCollides | cache/cache.go:90-94 | Every input that has anything besides its step type shares its text with one that has nothing else. |
| Text.JoinInjective | cache/cache.go:90-94 | Separator-free parts can be told from their join. |
| Text.DecimalDigits | internal/executor/drain.go:68 | Numbers are printed in decimal, most significant digit first. |
| Text.NoLeadingZero | internal/executor/drain.go:68 | A positive number is printed without a leading zero. |
| Redact.NothingToRedact | dag/redact.go:24-32 | A text in which no secret occurs is left as it is. |
| Redact.ReplaceKeepsPieces | dag/redact.go:28-30 | Replacing a secret cuts the text at its leftmost occurrences, again and again, and joins the unchanged pieces with "***". |
| Redact.PiecesMakeText | dag/redact.go:28-30 | The pieces joined with the secret are the text, and the secret is in none of them. |
| Redact.SplitUnique | dag/redact.go:28-30 | There is only one such cut. |
| Redact.ReplaceStep | dag/redact.go:28-30 | Text before the first occurrence stays, the occurrence becomes "***", and the rest is replaced in the same way. |
| Redact.StagesAreRedact | dag/redact.go:28-31 | Masking one secret after the other in this sense gives the redacted text and nothing else. |
| Redact.StarFreeIsMaskable | dag/redact.go:23-32 | A secret without '*' is one that masking can hide. |
| Redact.NothingNew | dag/redact.go:28-30 | Replacing one secret never creates an occurrence of another maskable one. |
| Redact.SecretGone | dag/redact.go:28-30 | After replacing a maskable secret it no longer occurs. |
| Redact.RedactionComplete | dag/redact.go:24-32 | For maskable secrets in any order, overlapping or nested, none occurs in the output. |
| Redact.MaskableGone | dag/redact.go:24-32 | A maskable secret is hidden in every text, whatever the other secrets and their order. |
| Redact.CoveredGone | dag/redact.go:24-32 | A secret that is not maskable is hidden too if it contains one of the list that is. |
| Redact.RedactionIdempotent | dag/redact.go:24-32 | Redacting twice is redacting once. |
| Redact.CompleteIffMaskable | dag/redact.go:24-32 | For one secret, redaction hides it in every text exactly when it neither starts nor ends with '*' nor contains "***". |
| Redact.AllCompleteIffAllMaskable | dag/redact.go:24-32 | All lists drawn from a set of secrets, shorter ones included, are complete exactly when every secret in the set is maskable. |
| Redact.NewRedactor | dag/redact.go:11-21 | Exactly the non-empty secret values are collected. |
| Redact.Redact | dag/redact.go:24-32 | The output is what masking the secrets one after the other leaves, each by that cut; a nil redactor passes the text through. |
| Drain.DrainLines | internal/executor/drain.go:31-60 | One handler call per line and one for a non-empty rest, whatever the sizes of the reads, each with what fits into the limit without its line ending, or without a CR at the end of it, and the number of bytes beyond the limit; the line buffer never holds more than the limit. |
| Drain.AssembledIsHandled | internal/executor/drain.go:62-69 | What is assembled from the buffer and the count is that text and notice, told from the segment alone. |
| Drain.LostIff | internal/executor/drain.go:38-69 | A byte is neither handed over nor counted nor part of the line ending if and only if it is a CR, the last byte that fits, and not followed by just the newline. |
| Drain.AccountedIff | internal/executor/drain.go:38-69 | Every byte of a segment is accounted for if and only if it is not cut right after a CR. |
| Drain.CrLost | internal/executor/drain.go:62-69 | The failing input: a CR as the last byte that fits is neither handed over nor counted, before further bytes as well as at the end of the stream. |
| Drain.LineBuffer.constructor | internal/executor/drain.go:33-34 | An empty line. |
| Drain.LineBuffer.Retain | internal/executor/drain.go:38-46 | A chunk is kept as far as there is room and counted as dropped beyond it; the buffer stays within its limit. |
| Drain.EveryByte | internal/executor/drain.go:31-69 | Every byte of the stream is handed over, counted or part of a line ending, except one CR for each segment cut right after it. |
| Drain.ShortLineWhole | internal/executor/drain.go:62-67 | A line that fits with its newline is handed over whole, without LF and a CR before it. |
| Drain.LineOfLimitLength | internal/executor/drain.go:39-46 | A line of exactly the limit is kept whole but its newline is reported as one dropped byte. |
| Drain.NoticeIsExact | internal/executor/drain.go:65-68 | The number in the notice of a cut line reads back as the number of bytes beyond the limit; these are all that were not handed over exactly unless the last byte that fits is a CR. |
| Drain.Reader.ReadSlice | internal/executor/drain.go:32-36 | A read ends at a newline, with a full buffer at any point before it, or at the end of the stream. |
| Scan.Scanner.Scan | api/stream.go:140-149 | The scanner returns the lines up to the first that does not fit with its newline. |
| Scan.LimitIsExact | api/stream.go:140-149 | A line is taken exactly if it is shorter than the limit, with a newline or as the last part without one; one newline and one carriage return before it are dropped. |
| Stream.SkipToNextLine | api/stream.go:187-208 | The offset just after the next newline, or the end of the file. |
| Stream.NextLineIs | api/stream.go:187-208 | There is no newline between the start and that offset but the one just before it; without any newline left it is the end of the file. |
| Stream.SendLines | api/stream.go:146-167 | The accepted lines are tried in order, all of them or up to and including the first whose write fails; the offset is behind the last one tried. |
| Stream.StreamNewLines | api/stream.go:126-182 | Which writes a poll makes, and what it returns, for any file and any pattern of failing writes: all lines and the terminal flag, or the lines up to a long one with a note and the offset behind it, or the lines up to a failed write. |
| Stream.NothingBehindEnd | api/stream.go:126-182 | A poll at the end of the log, or behind it, writes nothing, keeps the offset and does not report the end. |
| Stream.PollKeepsSync | api/stream.go:126-182 | A poll at a line boundary of a log of whole lines tries the next lines, each once and in order, a long one as a note of its length, up to the first failed write or long line, and stops at a line boundary. |
| Stream.PollReportsEnd | api/stream.go:126-182 | It reports the end exactly if no line left was too long, one was terminal and no write failed. |
| Stream.EndIsReported | api/stream.go:149-153 | A terminal event that ends the log and fits is seen by the poll that gets past it, if its write succeeds. |
| Stream.Follow | api/stream.go:126-182 | Over any interleaving of appends of whole lines and polls, and whichever writes fail: no line is tried twice or out of order, the offset is a line boundary, and exactly as many lines are passed as the polls and the answers to the writes make it. |
| Stream.FurtherPolls | api/stream.go:126-182 | Without further appends every poll passes a line at least, so after as many polls as lines are left all are passed, even if writes fail. |
| Stream.EverythingArrives | api/stream.go:126-182 | If no write fails, one poll more than there are unread long lines passes everything. |
| Stream.ExactlyOnce | api/stream.go:126-182 | A client whose writes all succeed has then received every line of the log exactly once, in order. |
| Manifest.BuildManifest | internal/archive/archive.go:147-153 | One line per file: sum, two spaces, path. |
| Manifest.ParseManifest | internal/archive/verify.go:109-134 | The map of all lines, or the error of the first bad line. |
| Manifest.LineDecides | internal/archive/verify.go:114-129 | A line is an entry exactly if it is a sum of 64 hexadecimal digits, two spaces and a path; a blank one is ignored; of the others those of that shape have a bad hash, and the rest are malformed. |
| Manifest.StripsLineEnd | internal/archive/archive.go:196-200 | Only carriage returns and newlines at the end of a line are taken off. |
| Manifest.ParsedIff | internal/archive/verify.go:109-134 | A manifest is read exactly if all its lines are good. |
| Manifest.FirstBadIsReported | internal/archive/verify.go:114-129 | Else the error is that of the first bad line. |
| Manifest.ManifestRoundTrip | internal/archive/verify.go:109-134 | A manifest of plain paths and 64-digit sums reads back as exactly its sums if every line fits, and is not read at all otherwise. |
| Manifest.SumsOfDistinct | internal/archive/archive.go:147-153 | With distinct paths those sums hold every file with its own sum and nothing else. |
| Manifest.OnlyPlainPaths | internal/archive/verify.go:114-129 | No path that comes out of a manifest has a newline in it or a carriage return at its end. |
| Manifest.CountEntries | internal/archive/verify.go:65-94 | The loop over the entries counts listed files and collects unlisted and mismatched names, repetitions included. |
| Manifest.MissingNames | internal/archive/verify.go:96-100 | The listed names that were not seen, each once. |
| Manifest.Verify | internal/archive/verify.go:33-106 | The report accounts for every regular entry, its lists are sorted, and it is OK exactly when the entries match the manifest. |
| Manifest.OkMeansMatch | internal/archive/verify.go:26-28 | A report is OK exactly when the names of the entries are those of the manifest and every hash is right, however entries repeat. |
| Manifest.Create | internal/archive/archive.go:42-89 | The manifest comes first, then the files, both in sorted order of the paths. |
| Manifest.ArchiveInFull | internal/archive/archive.go:42-89 | The archive is the manifest under its name, with one line of sum, two spaces and path per file, and then every file with its content, in sorted order. |
| Manifest.CreatedArchivePasses | internal/archive/verify.go:33-106 | Verify accepts what Create wrote exactly when every path is free of newlines, does not end in a carriage return, and is short enough for its manifest line. |

## Left out

- Pipeline.Prepare: promises tiers only if the expanded IDs are distinct, because the code joins keys and values without checking that; `InstanceIds.FreshNamesIff` says when they are.
- Expansion.ExpandStep: does not model the environment, arguments and output names of an instance.
- Expansion.ExpandSteps: does not model the environment, arguments and output names of the instances.
- Expansion.ExpandMatrix: does not model the environment, arguments and output names of instances; with an `env` of its own all instances of a step share one map in the source, so no claim per instance would hold.
- InstanceIds.NamesDistinctIff: is stated for legible matrices; `InstanceIds.ExtendedKeyCollides` and `InstanceIds.IllegibleValueCollides` show that others can collide without repeated values, but not every other one does.
- InstanceIds.FreshNamesIff: is stated for legible matrices, for the same reason.
- Redact.AllCompleteIffAllMaskable: says nothing about one given list with unmaskable secrets; there an exact condition depends on how its secrets overlap.
- TopoSort.TopoSort: promises something only for unique IDs, which validation guarantees for the steps of a file; for repeated ones it terminates. The order of the steps inside a tier is not stated.
- Retry.ExecuteWithRetries: does not model timeouts, sleeping, hooks, outputs and the cache entry that is saved; an executor is assumed to return.
- EngineSafety.RunOutcome: speaks of the engine's own events; executors, approvals and annotations also append to the log file.
- Summary.BuildStepSummaries: does not model durations, error texts and resource figures.
- Scheduler.AdmissionSafe: starts behind the parsing of the DAG file and ends with the release of the run's entry; shutdown and what a run does are not modelled.
- Ticks.CronScheduler.Poll: is stated for a fixed set of entries; between polls with changes, each poll's own contract applies.
- Ticks.MissedTicks: the serialised firing of the missed ticks and the run history they start from are not modelled.
- Sync.SyncAgreesIff: leaves out files that share a name; for those `Sync.SyncResult` says what is registered.
- Sync.EverySyncAgrees: assumes that files do not change during one sync, that no file is listed twice, that there are no I/O errors, and that the source list is fixed.
- Sync.Registry.VisitFile: does not model the stored path, watchers, `on_dag` listeners and webhooks; a file skipped by its mtime does not add its listeners again, so those do not agree with a rescan.
- Plan.BuildPlanEntries: takes the steps in topological order, which is how both callers pass them (`Plan.TiersAreOrdered`); a lookup is any function of the step, as environment and store do not change during a plan.
- CacheKey.ComputeStepKey: does not claim that a repeated run hits the cache; the key a run saves under is computed after its own outputs are collected, the key of the lookup before.
- Drain.DrainLines: the 64 KB buffer size is not modelled, reads may end earlier.
- Stream.StreamNewLines: a poll sees the file as it is at one moment; opening errors other than a missing file are not modelled.
- Stream.Follow: is stated for lines without a trailing carriage return, since the offset counts such a line one byte short, and goes on polling after a terminal event, where the source's handler stops.
- Manifest.Create: reads a file once for its hash and its entry, the source reads it twice; tar and gzip formats are not modelled.
- The byte variant of redaction and the collection of a DAG's environment maps: expressions over the modelled functions.
- File system, subprocesses, signals, HTTP, mail, vault, file and git watching, and the user interfaces: I/O without state of their own here.
- Template expansion, regular expressions and generated R code: string formatting by libraries.
- Run status after late annotations and parallel approvals: the single flag kept for the waiting state gives no clean invariant.
- Field-by-field validation, filters, formatting and path helpers: they would only add easy members.
