# A verified model of StepUp's core algorithms

StepUp is a dynamic build tool. Its difficult parts keep derived data equal to a simple definition
while the graph of steps and files changes, or must not lose anything when several coroutines race.
This project models these parts in Dafny, one or a few modules for each source file, and proves what
they are for. SQL tables are finite maps and sets and each SQL statement is one relational operation;
objects whose methods update fields are classes; an asyncio coroutine is cut at its awaits into atomic
events, and the theorems hold for every interleaving of these events.

| Modules | Source | Subject |
|---|---|---|
| `AfterUpdate`, `AfterMeaning`, `AfterTriggers` | `scheduler.py`, `step.py` | the worklist for implied need and tail time, and whether the triggers flag enough for it |
| `SafeUpdate`, `SafeRuns` | `scheduler.py`, `step.py` | safety along the creator forest, one update and whole runs |
| `Dispatch`, `DispatchSafety`, `DispatchHistory` | `scheduler.py`, `step.py`, `job.py`, `executor.py`, `workflow.py` | choice of the next step, resource capacity, the state machine of steps and jobs, and what its columns tell about a run |
| `Timings` | `scheduler.py` | the pruned history of starts and stops |
| `PendingForest`, `PendingRelations`, `PendingCauses`, `PendingClosure`, `PendingChains`, `PendingRanking`, `PendingCycle` | `pending.py` | why steps stayed pending: attribution, exact counts, ranking |
| `NGlobLexer`, `NGlobSymbols`, `NGlobRegex`, `NGlobMeaning`, `NGlobGlob`, `NGlobShape`, `NGlobInclusion`, `NGlobCollapse`, `NGlobNames`, `NGlobInside`, `NGlobNamesExact`, `NGlobClasses`, `NGlobReading`, `NGlobFinding`, `NGlobExamples`, `NamedGlob` | `nglob.py` | two translations of one pattern, what they accept, and the results that follow file changes |
| `StepHash`, `StepHashDecoding`, `Bytewise` | `hash.py` | the byte stream of a step hash determines its ingredients |
| `HashQueue`, `JobLoop` | `hash_queue.py`, `builder.py`, `executor.py` | one hash job for each path with racing runners, and the loop that shares the slots |
| `RpcFraming`, `RpcCalls`, `BigEndian` | `rpc.py` | framing over any fragmentation, pairing of calls and responses |
| `PruneDirs` | `finalize.py`, `clean.py` | removal of empty directories by two different loops |
| `ConcurrencySweep` | `tools/analyze_perf.py` | the sweep over job events |
| `Basics`, `Enums`, `Histories` | `enums.py`, `step.py` | shared vocabulary: finite collections, states and needs, the SQL predicate of an unavailable input, flags that events set and clear |
| `PathPrefix` | `path.py`, `sqlite3.py`, `clean.py`, `scheduler.py` | prefix search by range and by LIKE |

`dafny verify dfyconfig.toml` verifies the whole project.

## Where the code does less than its comments say

The model follows the code. Each of these comes with a lemma that shows the difference, and where there
is one, with the exact condition under which the comment is right.

- `stepup/core/scheduler.py:96-103` says that `MIN` always recovers the right safety value. A flagged
  step below another flagged step reads the stored value of its creator, and a stale zero there survives.
  The update is exact if and only if there is no such zero (`SafeUpdate.ExactIffNoStaleZero`); releasing a
  hold produces one (`SafeRuns.StaleZeroSurvivesMin`). A step is never marked too safe.
- `stepup/core/step.py:244-248` flags the two ends of a deleted dependency. When the deleted edge leads
  from a file to its consumer, the steps that may have to change are the producers of the file. From columns
  at rest, the update after the trigger ends with the defined values if and only if each producer that the
  trigger leaves out still attains its need and its tail time through another sink or on its own
  (`AfterTriggers.DeleteOutcomeIff`); `AfterTriggers.DroppedInputLeavesProducerStale` is a chain on which
  one does not, and keeps a tail time of 2 instead of 1.
- `stepup/core/trellis.py:848-907` creates a detached step again when it cannot be recycled, and
  `step.py:690-760` inserts its row as PENDING without looking at its state. While the first job is open the
  step is handed out a second time (`Dispatch.RedefinedStepIsHandedOutTwice`). Over a run, open jobs and
  busy states agree if and only if no busy step was redefined (`Dispatch.JobsOverRuns`).
- `stepup/core/step.py:845-882` lets a recycled step replace its resources whatever its state. Over a run,
  the capacity is respected if and only if each running step that was recycled still fitted
  (`Dispatch.CapacityOverRuns`, `Dispatch.RecycledStepOvercommits`).
- `stepup/core/scheduler.py:845-867` counts a tie of stop and start as concurrent. Pruning forgets such a
  stop if and only if, at that time, some stop left no step running (`Timings.ForgottenIff`).
- `stepup/core/pending.py:164-165` says that no root reaches a cyclic step. This is true along primary
  blockers; along all blockers it is true if and only if no step outside the cyclic bucket blocks one inside
  it (`PendingCycle.CyclicReachedIff`). `pending.py:184-193` names the steps that
  dispatch could have picked up; `PendingRelations.RunnableVersusDispatch` says what separates the two.
- `stepup/core/hash.py:60-65` says that the hashed words cannot collide. They can if and only if an
  environment dependency is named like the separator `__env_overrides__`
  (`StepHashDecoding.UniquelyDecodableIff`).
- `stepup/core/hash_queue.py:96-98` says that an entry of `in_flight` cannot leak. It can still leave if and
  only if the coroutine that runs the job was not cancelled before it settled the future
  (`HashQueue.LeaksIffAbandoned`); submit, claim, cancel is a run that leaks
  (`HashQueue.RunnerIsCancelled`). The guard at `executor.py:662` never meets a settled future in these runs.
- `stepup/core/nglob.py:254-266` relies on the plain glob finding every path that the expression accepts.
  `data/*${*n}`, `x/**/*` and `x${*a}/${*a}` accept a directory whose last component is empty. The
  condition `NGlobInclusion.Collapsible` on the pattern is exact. A negated class is translated at line
  475 to one that also accepts a separator. The scan finds what is accepted without that, under the same
  exact condition (`NGlobClasses.InclusionForAnyClasses`), and for a pattern without `**` no other file
  (`NGlobClasses.FileFoundIff`).
- `stepup/core/nglob.py:22-30` says that a name matches what a star would. It does if and only if the code
  guards the last component of both patterns or of neither, or separators of the pattern collide, so that
  no path matches either (`NGlobNamesExact.NamesAreStarsIff`). It fails for a last component made of a name
  and a star, or of two names (`NGlobExamples.NeighboursDiffer`).

## Model

| member | source | states |
|---|---|---|
| AfterUpdate.MetaTable.UpdateMetaAfter | stepup/core/scheduler.py:728-761 | On an acyclic step graph the worklist ends within as many rounds as there are attached steps, clears the flags, leaves the columns that the rounds define and writes no row outside the steps upstream of a flagged one; if every disagreement was flagged, every attached step then holds the defined need and tail time |
| AfterUpdate.MetaTable.Round | stepup/core/scheduler.py:243-303 | One pass rewrites exactly the rows whose formula changed (all of them in the first pass) and makes their attached sources the next worklist |
| AfterUpdate.LiftMeaning | stepup/core/scheduler.py:251-270 | A step is lifted to TARGET exactly when an attached output of it that is not volatile is a target path, or, at default need, lies under a target directory; PLAN is never lowered |
| AfterUpdate.OtherFilesDoNotMatter | stepup/core/file.py:30 | Volatile and detached files have no part in the update: without their rows the rounds leave the same columns |
| AfterMeaning.UpdateMeansRows | stepup/core/scheduler.py:243-303 | Read off the rows alone: whatever the columns held before, if the disagreeing rows were flagged, the update leaves each attached step with the largest documented need at the end of any route of makers and users of files, and with the duration of the longest route |
| AfterUpdate.AgreementIsDefinition | stepup/core/scheduler.py:243-303 | If every attached step satisfies its own one-step formula on an acyclic graph, the stored need is the maximum over all steps reachable downstream and the stored tail time is the heaviest downstream path |
| AfterUpdate.DefinedIffAgree | stepup/core/scheduler.py:243-303 | On an acyclic graph the columns are the defined ones if and only if every attached step satisfies its one-step formula |
| AfterUpdate.LeavesOnce | stepup/core/scheduler.py:728-761 | The rounds leave one set of columns, however long they are continued |
| AfterUpdate.AgreementNeedsAcyclic | stepup/core/scheduler.py:728-761 | With positive durations the columns can only be at rest on an acyclic graph, so acyclicity is necessary as well |
| AfterUpdate.RoundKeepsAgreement | stepup/core/scheduler.py:333-344 | After a round every step outside the next worklist satisfies its formula |
| AfterUpdate.RoundInvariantKept | stepup/core/scheduler.py:728-761 | The invariant of the worklist (agreement, frame, and ever longer chains of changes behind each entry) survives each round |
| AfterUpdate.WorklistBound | stepup/core/scheduler.py:728-761 | A round later than the number of attached steps has an empty worklist |
| AfterTriggers.InsertKeepsFlagsComplete | stepup/core/step.py:239-243 | The insert trigger flags enough for the worklist theorem, for any new dependency |
| AfterTriggers.DurationKeepsFlagsComplete | stepup/core/step.py:281-284 | So does the trigger on a changed duration |
| AfterTriggers.DeleteOutcomeIff | stepup/core/step.py:244-248 | Columns at rest, any deleted dependency, the trigger, then the update: every attached step holds the defined values if and only if every producer of the deleted source that neither is flagged nor feeds the sink otherwise still attains its need and its tail time; where one does not, the update leaves all columns as they were |
| AfterTriggers.DeleteIsCoveredIff | stepup/core/step.py:244-248 | Also while other changes are flagged: the trigger flags every disagreement if and only if each producer that is left out keeps its values |
| AfterTriggers.DroppedInputLeavesProducerStale | stepup/core/step.py:244-248 | On a chain of three steps with defined columns, dropping the last input: the update ends with the producer at tail time 2, where 1 is defined |
| AfterTriggers.NarrowSeedsMissAStep | stepup/core/scheduler.py:728-761 | Seeding only the changed rows, the narrower choice that the docstring rejects, leaves a step with a need that is too low |
| SafeUpdate.StepTable.UpdateMetaSafe | stepup/core/scheduler.py:717-726 | The method replaces the safety columns of every step reached from a flag by the minimum over all rows that reach it, and clears the flags |
| SafeUpdate.ChainBound | stepup/core/scheduler.py:121-185 | No creator chain is longer than the step table |
| SafeUpdate.UpdateReaches | stepup/core/scheduler.py:121-185 | The recursion reaches exactly the flagged steps and everything they created |
| SafeUpdate.MinSafeStep | stepup/core/scheduler.py:121-191 | The minimum over overlapping walks satisfies a one-step recurrence over the creator forest |
| SafeUpdate.NeverTooSafe | stepup/core/scheduler.py:717-726 | When stored values imply their local formula wherever no flag is near, no step is marked safer after the update than the conjunction over all its creators |
| SafeUpdate.ExactIffNoStaleZero | stepup/core/scheduler.py:96-103 | From a consistent table the update is exact for a column if and only if no flagged step below another flagged step reads a stored zero of a creator whose own chain is unbroken |
| SafeUpdate.ExactRestoresConsistency | stepup/core/scheduler.py:717-726 | An exact update leaves a consistent table without flags |
| SafeUpdate.UpdateKeepsCheck | stepup/core/scheduler.py:121-191 | The schema constraint that relates the two safety columns survives the update |
| SafeRuns.EventKeepsNeverTooHigh | stepup/core/step.py:286-309 | State changes, hold, release, definition, detaching, recycling and updates keep the premise of NeverTooSafe |
| SafeRuns.RunIsNeverTooSafe | stepup/core/step.py:996-1026 | Over every run of these writes, a step that an update marks safe has only running or succeeded creators, none of them holding |
| SafeRuns.SafeMeansCreatorsRun | stepup/core/scheduler.py:121-185 | Over every run from an empty table, right after an update: the columns say safe only if every step on every path of creators is RUNNING or SUCCEEDED, and for the first column none of them holds |
| SafeRuns.CreatorsRunMeansSafe | stepup/core/scheduler.py:717-726 | Over every run whose updates met no stale zero, the columns say safe if and only if that is so |
| SafeRuns.RowsFollowEvents | stepup/core/step.py:286-309 | Over every run from an empty table, creator, state and open holds of a step are what the events on that step alone add up to |
| SafeRuns.FlagsItsProducts | stepup/core/step.py:1556-1565 | The first and the last of nested holds, detaching and recycling flag the step and everything it created, however far down, and no other step |
| SafeRuns.EventKeepsConsistent | stepup/core/step.py:1556-1565 | Between updates the writes keep a consistent table consistent |
| SafeRuns.StaleZeroSurvivesMin | stepup/core/scheduler.py:96-103 | Hold, update, release, update on a chain of three: the grandchild stays unsafe with no hold left and no flag set |
| Dispatch.ScanInputs | stepup/core/scheduler.py:639-715 | Deriving a job fails exactly on an input that dispatch calls unavailable, and otherwise collects the usable inputs and whether all dynamic ones are ready |
| Dispatch.NextStepPriority | stepup/core/scheduler.py:364-433 | A step with a hash to check goes before every step that must run, then plan steps, then the larger tail time divided by one more than the number of deferrals, then the smaller id |
| Dispatch.Scheduler.PopNextJob | stepup/core/scheduler.py:577-715 | Over the inputs of the chosen step: no job exactly when no step is eligible, an error exactly when one of its inputs is unavailable, and otherwise the dispatch event, with a skip check exactly for a step with a hash and all inputs usable, a dynamic validation exactly for one with a hash and some input that is not, and the usable inputs as the ones to hash; only the last changes the state |
| DispatchSafety.PopIffSomeCanStart | stepup/core/step.py:59-63 | Read off the tables: a step is handed out if and only if the scheduler does not drain and some step can start next to what runs, and only such a step; it is pending, required, attached, safe or with a hash safe but for holds, not deferred, lacks no input, and no unit of a resource unless it has a hash |
| DispatchSafety.IdleCanStart | stepup/core/scheduler.py:364-433 | While nothing runs, a step can start next to what runs if and only if its units are available at all |
| DispatchSafety.DispatchableMeans | stepup/core/pending.py:184-193 | The notion of the pending report of what dispatch could have picked up is what can start while nothing runs |
| DispatchSafety.PoppedHasRunningCreators | stepup/core/step.py:59-63 | Over every run of the step table, what is handed out after an update has only running or succeeded creators, none of them holding unless the step has a hash |
| Dispatch.UnitsAreConserved | stepup/core/scheduler.py:364-433 | A write of one row moves the total that the running steps hold by what its step holds after, less what it held before |
| DispatchHistory.HashTells | stepup/core/step.py:1349-1419 | Over every run a step has a stored hash if and only if its last verdict was a success and neither a product was lost nor a glob match gained since then |
| DispatchHistory.CheckedOnlyAfterSuccess | stepup/core/scheduler.py:639-715 | A step without a hash at the start is checked instead of run if and only if such a success came before |
| DispatchHistory.DeferredTells | stepup/core/workflow.py:1351-1380 | Over every run without busy redefinitions, a step waits, and is not handed out, from an accepted deferral for unavailable inputs until it is marked pending or declared anew |
| DispatchHistory.DeferCountTells | stepup/core/step.py:319-327 | The stored count is the number of times a step wanted to be deferred since it last succeeded or was declared anew |
| DispatchHistory.DeferralsAreCapped | stepup/core/step.py:1373-1396 | A step that wants to be deferred becomes pending if that number is within the cap, and fails otherwise |
| DispatchHistory.FinalStateTells | stepup/core/step.py:1349-1419 | Over every run without busy redefinitions a step is SUCCEEDED, or FAILED, if and only if its last attempt ended so and nothing reopened it since |
| DispatchHistory.DetachedTells | stepup/core/trellis.py:848-907 | Over every run a step is detached, and not handed out, from when it is detached until it is declared again |
| Dispatch.CapacityKeptIff | stepup/core/step.py:845-882 | Every event keeps the running steps within capacity, except the recycling of a RUNNING step, which does if and only if its new units fit next to what the other running steps hold |
| Dispatch.JobsKeptIff | stepup/core/trellis.py:848-907 | Every event keeps open jobs and busy states in step, except the redefinition of an existing step, which does if and only if the step is not busy |
| Dispatch.CapacityOverRuns | stepup/core/scheduler.py:364-433 | The running steps hold no more units than are available at every point of a run, if and only if every recycling in it fitted |
| Dispatch.JobsOverRuns | stepup/core/step.py:690-760 | A step is busy exactly when it has one open job, of the kind its state says, at every point of a run, if and only if the run redefined no busy step |
| Dispatch.UndefinedIsNotHeld | stepup/core/scheduler.py:364-433 | Within capacity, no running step holds a unit of a resource that is not defined |
| Dispatch.DispatchedOnce | stepup/core/scheduler.py:597-637 | In such a run a dispatched step was pending with no open job, gets a fresh job, and is put in RUNNING exactly when the job executes the command |
| Dispatch.RedefinedStepIsHandedOutTwice | stepup/core/trellis.py:848-907 | A run of four events from any system with one runnable step: dispatch, detach, redefine, dispatch; the step ends with two open jobs that execute it |
| Dispatch.RecycledStepOvercommits | stepup/core/step.py:845-882 | A run of three events: dispatch, detach, recycle with more units than there are; the capacity is exceeded |
| Timings.PruningInvisible | stepup/core/scheduler.py:796-831 | For a clock that moves between a stop and a later start, the pruned times answer every concurrency question about a started consumer as the full history does |
| Timings.ForgottenIff | stepup/core/scheduler.py:807-831 | For a clock that never runs backwards the pruned times say concurrent only if the full history does; they miss it if and only if the consumer started at the very time of the last stop of the producer and some stop in between left no step running |
| Timings.OverlapIsOrder | stepup/core/scheduler.py:845-867 | For a clock that moves between a stop and a later start, the pruned times say concurrent if and only if the consumer runs and the producer succeeded, in the order of events, after the consumer was started |
| Timings.TieIsForgotten | stepup/core/scheduler.py:845-867 | A run on which that happens: the producer stops alone and the consumer starts within the same tick of the clock |
| Timings.RunTimes.RecordRunStopped | stepup/core/scheduler.py:807-831 | The method forgets exactly the stop times before the oldest start |
| Timings.RunTimes.RanConcurrently | stepup/core/scheduler.py:845-867 | Asked about a started consumer, the pruned object answers what the full history of all recorded events answers, when the clock moved between each stop and each later start |
| PendingRelations.NearestBrokenIsUnique | stepup/core/pending.py:413-433 | An unsafe step has at most one nearest chain-broken creator |
| PendingRelations.HasNearestIffBroken | stepup/core/pending.py:404-433 | It has one exactly when some creator in its chain is broken |
| PendingRelations.BlockingFileHasCause | stepup/core/pending.py:364-401 | Every blocking file is dead, or a pending or failed step produces it, so it yields a candidate blocker |
| PendingRelations.PrimaryIsUnique | stepup/core/pending.py:503-581 | The order by kind, label and source picks exactly one candidate |
| PendingRelations.RunnableIff | stepup/core/pending.py:584-591 | A step lands in the runnable bucket exactly when it has no blocking input, no insufficient resource, no broken creator and is not deferred |
| PendingRelations.RunnableVersusDispatch | stepup/core/pending.py:184-193 | The runnable bucket against what dispatch would pick: they differ only by stale safety columns and by steps with a hash that lack a resource |
| PendingRelations.PendingPartition | stepup/core/pending.py:646-661 | For every database the totals of the six root kinds plus the cyclic count equal the number of pending steps |
| PendingRelations.RootsWin | stepup/core/pending.py:46-54 | A step with a root blocker of its own is attributed to one, never through another step |
| PendingCauses.PrimaryIsFirstCause | stepup/core/pending.py:503-581 | Read off the tables: the primary blocker is a cause of its step of the first kind that has one, in the order missing input that nothing pending or failed makes, resource, failed step, stale deferral, other creator, pending step; a step without any is runnable |
| PendingCauses.PrimaryTieBreak | stepup/core/pending.py:503-581 | Among causes of one kind the smaller label decides, then the smaller id |
| PendingCauses.AttributedToDeadFile | stepup/core/pending.py:386-401 | A step is attributed to a file only if no pending and no failed step makes that file |
| PendingCauses.FailedProducerIsBlamed | stepup/core/pending.py:386-401 | A step that lacks no resource and whose missing inputs may all still be made, one of them by a failed step, has a failed step as its primary blocker |
| PendingChains.AttributionMeans | stepup/core/pending.py:594-618 | A step is attributed to a root if and only if the chain of primary blockers that starts at it ends at a step with this root |
| PendingChains.BucketsMean | stepup/core/pending.py:46-54 | The root of a step decides which one of the six buckets counts it |
| PendingChains.BlockedMeans | stepup/core/pending.py:764-792 | A file or resource blocks exactly the steps from which a chain of pending steps, each held up by the next, leads to one that lacks it for good |
| PendingChains.RootsMean | stepup/core/pending.py:746-761 | The ranking has a row for exactly the files and resources that some pending step lacks for good |
| PendingForest.Walk | stepup/core/pending.py:594-618 | The UNION ALL walk ends on every table, cyclic ones included, and yields each attributed step exactly once, with its root |
| PendingForest.AttributionIsPartition | stepup/core/pending.py:646-661 | The same partition for any table of primary blockers |
| PendingForest.UnattributedIffCycle | stepup/core/pending.py:901-907 | A step is unattributed exactly when its chain of primary blockers runs into a cycle |
| PendingClosure.Reach | stepup/core/pending.py:764-792 | The UNION walk ends on cyclic relations with exactly the steps reachable from the seeds |
| PendingClosure.AttributedWithinBlocked | stepup/core/pending.py:474-490 | The steps attributed to a file or resource are among those it really blocks |
| PendingClosure.EveryRootBlocks | stepup/core/pending.py:746-761 | Every ranked root blocks at least one step, so the lookup of its exact count cannot fail |
| PendingRanking.RankDisplay | stepup/core/pending.py:795-832 | For any database and the joined rows in any order, in numbers: a pool of 20 rows, each with more attributed steps than every row outside it, or as many and a smaller id; 10 rows of it shown, each blocking more steps than every hidden row of the pool, or as many and a smaller id, and shown in that order; shown and hidden add up, and the hidden number is the number of steps attributed to a root that is not shown, no more than what these roots block |
| PendingRanking.RankedRootsBlock | stepup/core/pending.py:746-761 | Every root of the ranking has a row of its own in the grouped closure, so that no lookup of an exact count fails |
| PendingRanking.FirstIsBest | stepup/core/pending.py:826-828 | Sorting and cutting keeps distinct rows that each come before every row left out |
| PendingRanking.HiddenIsLowerBound | stepup/core/pending.py:812-822 | The hidden number never exceeds the number of distinct steps that the hidden roots block |
| PendingCycle.CyclicReachedIff | stepup/core/pending.py:164-165 | For every database: some root reaches some step of the cyclic bucket if and only if some step outside the bucket blocks one inside it |
| PendingCycle.CyclicStepReachedByRoot | stepup/core/pending.py:164-165 | A database with such a step: a step of the cyclic bucket is blocked by a dead file after all |
| NGlobLexer.SplitIsLexed | stepup/core/nglob.py:81-96 | Splitting a one-line pattern yields recursive wildcards only as complete components |
| NGlobLexer.SplitSpells | stepup/core/nglob.py:81-96 | The fragments, one after the other, are the pattern: each wildcard is written as it is read, the text between them starts none, and `**` is recursive exactly where it is a complete component |
| NGlobRegex.ConvertToRegex | stepup/core/nglob.py:433-498 | The loop, with its list of parts, last fragment and seen names, builds the specified expression and fails exactly on an empty pattern or name |
| NGlobRegex.PostProcess | stepup/core/nglob.py:500-529 | Overwriting the list while walking over it gives the same result as deciding from the original neighbours |
| NGlobRegex.BuildKeepsMeaning | stepup/core/nglob.py:456-498 | Merging neighbouring wildcards does not change what a pattern accepts |
| NGlobMeaning.EnclosedKeepsMeaning | stepup/core/nglob.py:505-518 | Asking an enclosed wildcard for a nonempty match removes no string without empty components |
| NGlobMeaning.RegexMeaning | stepup/core/nglob.py:500-529 | For such strings the generated expression accepts exactly the plain reading of the pattern, with an optional separator after a trailing wildcard and no empty match of a guarded one |
| NGlobReading.RegexReadsAnyPath | stepup/core/nglob.py:433-529 | For every string: the expression accepts it if and only if it splits into one piece for each fragment of the pattern, repeated wildcards counted once, with no empty piece for a star or new name that makes up a component, and after a wildcard at the end one more separator |
| NGlobReading.RegexReadsPattern | stepup/core/nglob.py:433-529 | For strings without empty components only the last component needs that care |
| NGlobGlob.ConvertToGlob | stepup/core/nglob.py:555-590 | The substitution and merging loop yields the specified glob |
| NGlobShape.MergingKeepsSlashes | stepup/core/nglob.py:571-590 | Merging keeps the number of separators |
| NGlobGlob.ComponentsRead | stepup/core/nglob.py:254-266 | A string that a pattern accepts symbol by symbol is accepted component by component |
| NGlobFinding.GlobReadsPattern | stepup/core/nglob.py:533-590 | For a pattern that does not end in `**`, whose classes accept no separator: the scan finds the clean path of a file if and only if it splits into one piece for each fragment, with a star for each name |
| NGlobClasses.InclusionForAnyClasses | stepup/core/nglob.py:523-527 | For every pattern: the scan finds every clean path that the expression accepts without a class standing for a separator, if and only if the pattern is not collapsible |
| NGlobClasses.FileFoundIff | stepup/core/nglob.py:475 | For all classes and a pattern without `**`: an accepted file is found if and only if it is also accepted without a class standing for a separator |
| NGlobExamples.StarAndNameCollapse | stepup/core/nglob.py:523-527 | A pattern whose last component is a star next to a name is collapsible |
| NGlobExamples.NeighboursDiffer | stepup/core/nglob.py:22-30 | For a name next to a star, replacing the name by a star changes the accepted paths |
| NGlobExamples.NegatedClassCrossesSeparator | stepup/core/nglob.py:475 | A family of such patterns: a class between two letters lets a pattern of one component accept a path of two, which the scan does not find |
| NGlobNamesExact.NamesAreStarsIff | stepup/core/nglob.py:22-30 | For every pattern whose classes accept something else than a separator, and any set of names used at most once: replacing them by stars leaves the accepted strings without empty components unchanged if and only if the pattern has colliding separators, so that it accepts none, or the code guards the last component of both or of neither |
| NGlobNamesExact.GuardGained | stepup/core/nglob.py:519-529 | The guard can only be gained, and only by a run of stars and replaced names that makes up the last component |
| NGlobNames.NamesAreStars | stepup/core/nglob.py:444-448 | On strings with empty components as well, replacing every once-used name by a star changes nothing when no name stands next to a wildcard it would merge with |
| NamedGlob.GroupsFollowFiles | stepup/core/nglob.py:181-182 | Two well-grouped results are equal exactly when they hold the same files |
| NamedGlob.OrderIsIrrelevant | stepup/core/nglob.py:236-266 | Extending twice with the parts of a scan ends in the same results as extending once with all its paths, in any order and with any repetition |
| NamedGlob.NamedGlob.Extend | stepup/core/nglob.py:236-241 | Adds exactly the matching paths and keeps the grouping |
| NamedGlob.NamedGlob.Reduce | stepup/core/nglob.py:243-252 | Removes exactly the given paths and leaves no empty group |
| NamedGlob.NamedGlob.WillChange | stepup/core/nglob.py:268-288 | Returns nothing exactly when the set of matching files stays the same, else a fresh copy; a path both added and deleted ends up deleted |
| StepHash.HashWords.Update | stepup/core/hash.py:70-94 | Appends the encoding of one word |
| StepHash.UpdateFileHashes | stepup/core/hash.py:391-404 | Feeds the files in sorted order, whatever order the mapping has |
| StepHash.FromInp | stepup/core/hash.py:437-490 | Feeds exactly the input stream that `InpStreamLayout` spells out: label, shell flag and the sections of files, variables and overrides, each behind its name |
| BigEndian.DigitAt | stepup/core/hash.py:391-404 | The most significant byte of a number comes first |
| Bytewise.LessMeans | stepup/core/hash.py:391-404 | The order of the entries: the first byte that differs decides, and a proper prefix comes first |
| Bytewise.SortedIsUnique | stepup/core/hash.py:391-404 | The sorted form of a set of keys is unique, so the stream does not depend on collection order |
| StepHashDecoding.FileEntryDecodes | stepup/core/hash.py:391-404 | Path, mode, size and digest can be read back whatever bytes the binary words contain |
| StepHashDecoding.FlatDecodes | stepup/core/hash.py:85-92 | Runs of self-delimiting entries decode uniquely |
| StepHashDecoding.OutStreamDecodes | stepup/core/hash.py:492-509 | Equal output streams come from equal outputs |
| StepHashDecoding.InpStreamDecodes | stepup/core/hash.py:472-490 | Equal input streams come from equal label, shell flag, files, variables and overrides |
| StepHashDecoding.UniquelyDecodableIff | stepup/core/hash.py:60-65 | The encoding is free of collisions if and only if no environment dependency bears the name of the separator |
| StepHashDecoding.SeparatorNameCollides | stepup/core/hash.py:60-65 | Two different sets of ingredients with the same stream, otherwise |
| HashQueue.EventKeepsInv | stepup/core/hash_queue.py:104-199 | Submission, racing claims, pops, runs, cancelled runners, callbacks and shutdown keep the registry and the jobs consistent |
| HashQueue.OneJobPerPath | stepup/core/hash_queue.py:124-163 | Over every interleaving at most one unretired job exists per path, each is claimed and run at most once, and no future is settled twice |
| HashQueue.SubmitDeduplicates | stepup/core/hash_queue.py:104-133 | Over every interleaving, a submission for a path with an unretired job changes nothing; any other adds exactly one job, unclaimed and open |
| HashQueue.RunOnce | stepup/core/hash_queue.py:148-163 | Read off the events of any interleaving: a job is run at most once, only after it was claimed, and its run finds the future open |
| HashQueue.FirstInFirstOut | stepup/core/hash_queue.py:165-188 | Over every interleaving, a pop claims a job if and only if nobody claimed it and every job submitted earlier is claimed |
| HashQueue.FinishDelivers | stepup/core/executor.py:611-667 | The run of a job settles its future with its own outcome, and no later event changes it |
| HashQueue.RetireRemovesOwnEntry | stepup/core/hash_queue.py:135-137 | The callback, which pops by path, always removes the job that resolved and no other |
| HashQueue.ShutdownLeavesNoWaiter | stepup/core/hash_queue.py:190-199 | Shutdown empties the queue, cancels exactly the unclaimed jobs and touches nothing else |
| HashQueue.ClaimedJobHasRunner | stepup/core/executor.py:611-667 | A claimed job is open exactly as long as it has one runner, unless its runner was cancelled |
| HashQueue.MarksTell | stepup/core/executor.py:611-667 | A job counts as abandoned exactly when the coroutine that ran it, or was about to, was cancelled, and as retired exactly when its callback ran |
| HashQueue.LeaksIffAbandoned | stepup/core/hash_queue.py:96-98 | At any point of any run, some continuation retires a job, and so removes its entry, if and only if its runner was not cancelled |
| HashQueue.AbandonedForGood | stepup/core/hash_queue.py:96-98 | From then on its entry stays through every continuation, and every later submission of its path is given it |
| HashQueue.RunnerIsCancelled | stepup/core/executor.py:611-667 | A run of three events that reaches such a job: submit, claim, cancel |
| HashQueue.HashQueue.SubmitJob | stepup/core/hash_queue.py:104-133 | Returns the registered job of the path, or registers and queues a new one |
| HashQueue.HashQueue.ClaimJob | stepup/core/hash_queue.py:148-163 | Succeeds exactly for a job that nobody claimed before |
| HashQueue.HashQueue.PopNowait | stepup/core/hash_queue.py:165-188 | Discards claimed jobs and claims the first unclaimed one |
| HashQueue.HashQueue.ShutdownQueue | stepup/core/hash_queue.py:190-199 | The loop drains the queue as specified |
| JobLoop.SlotsAreRespected | stepup/core/builder.py:176-187 | Over every interleaving, also with tasks ending and jobs arriving during the scheduler query, the loop never has more than njob tasks |
| JobLoop.NoLostWakeup | stepup/core/builder.py:189-200 | A loop that sleeps with a free slot has no unclaimed hash job and no task to retire |
| JobLoop.NothingLeftBehind | stepup/core/builder.py:195-196 | When the loop returns, nothing runs, every task was retired and no hash job is left unclaimed |
| JobLoop.Builder.LookForWork | stepup/core/builder.py:163-187 | The stretch before the first await, with the hash queue it pops from, is the specified step |
| JobLoop.Builder.HandleDoneTasks | stepup/core/builder.py:312-328 | Retires the done tasks, the last one first, and wakes the loop for each, until one raised: that one ends the loop, sets the scheduler draining and leaves the tasks before it |
| JobLoop.ReturnsWithoutError | stepup/core/builder.py:312-328 | Over every run, the loop never returns normally after a task raised |
| JobLoop.LookMeans | stepup/core/builder.py:163-187 | From the top of the loop, if no done task raised: with all slots taken it parks, or returns when nothing runs; else it claims a hash job that nobody claimed and starts a task for it; with none it asks the scheduler |
| JobLoop.WakeTells | stepup/core/builder.py:189-200 | Over every run the wake event is set if and only if a task ended, a hash job was created or a task was retired since the loop last woke up |
| JobLoop.RaisedTells | stepup/core/builder.py:312-328 | The scheduler is set draining exactly when the loop is ended by a task, and only after a task raised |
| RpcFraming.ParseEncoded | stepup/core/rpc.py:108-160 | A message is read back whatever bytes follow it, an empty body as the sentinel |
| RpcFraming.ParsedIsEncoded | stepup/core/rpc.py:108-160 | A message is read from a stream if and only if the stream starts with its encoding, so the reader makes none up |
| RpcFraming.WireLayout | stepup/core/rpc.py:108-131 | Eight bytes of the call id, eight of the length, most significant first, then the body |
| RpcFraming.ReadableIff | stepup/core/rpc.py:132-160 | A framed message is readable if and only if its body is within the limit; otherwise only the header is consumed |
| RpcFraming.ParseAllEncoded | stepup/core/rpc.py:298-322 | Any list of messages is read back as that list, with the rest of the stream intact |
| RpcFraming.SocketReader.ReadExactly | stepup/core/rpc.py:266-295 | Returns the next bytes for any fragmentation, fails exactly when the peer sends too few, and never loses a byte |
| RpcFraming.SocketReader.RecvMessage | stepup/core/rpc.py:298-322 | The message and the unread rest depend on the remaining bytes only, not on how they are fragmented |
| RpcFraming.RecvMessages | stepup/core/rpc.py:298-322 | Successive blocking reads yield the messages that parsing the remaining bytes yields, for any fragmentation, and fail exactly when one of them does |
| RpcFraming.RecvSent | stepup/core/rpc.py:1516-1522 | So the list of messages that was sent is read back in order, and what follows it stays unread |
| RpcCalls.EventKeepsInv | stepup/core/rpc.py:1095-1120 | Calls, failed sends, cancelled callers, responses and the end of the receive loop keep the pairing invariant |
| RpcCalls.CallsArePaired | stepup/core/rpc.py:1204-1224 | Over every run a resolved call holds the first response with its own id, nothing is settled twice, and no awaited call is open once the receive loop is done |
| RpcCalls.SettledForGood | stepup/core/rpc.py:1204-1224 | Over every run a settled future never changes again |
| RpcCalls.ResponseSettlesItsCall | stepup/core/rpc.py:1204-1214 | Over every run a response to an open call settles that call with its own body |
| RpcCalls.FutureTells | stepup/core/rpc.py:1204-1224 | Over every run a future holds a value if and only if the one event that gives it happened while the call was open: its response, the end of the loop, or the cancellation of its caller |
| RpcCalls.PendingTells | stepup/core/rpc.py:1095-1120 | A call is pending from when it was made until its response came, its request failed or the loop ended |
| RpcCalls.PendingIsOpen | stepup/core/rpc.py:1204-1224 | The future of a pending call is open unless the caller gave up |
| RpcCalls.CallIsFresh | stepup/core/rpc.py:1095-1108 | Each call opens one future under an id never used before, and no other event opens one |
| RpcCalls.LoopEndsForGood | stepup/core/rpc.py:1215-1224 | Once the receive loop has ended no call is pending, made or answered any more |
| RpcCalls.StrayResponseEndsReceiving | stepup/core/rpc.py:1204-1214 | After a response that answers no pending call no further response is handled |
| RpcCalls.SocketAsyncRPCClient.StartCall | stepup/core/rpc.py:1095-1108 | Refuses exactly when the receive loop is done, else registers a fresh call id |
| RpcCalls.SocketAsyncRPCClient.HandleResponse | stepup/core/rpc.py:1204-1214 | One pass of the receive loop is the specified event |
| RpcCalls.SocketAsyncRPCClient.EndRecvLoop | stepup/core/rpc.py:1215-1224 | Fails every pending call that was not cancelled and leaves none |
| RpcCalls.SocketSyncRPCClient.Call | stepup/core/rpc.py:1396-1407 | State and outcome of one call, one that does not start and interrupted ones included |
| RpcCalls.UnusableForever | stepup/core/rpc.py:1436-1450 | A closed or broken client refuses every later call |
| RpcCalls.RepliesInStep | stepup/core/rpc.py:1516-1522 | If a call replied, each call before it did too or never started, and the replies are the messages of the stream in order, each with its own id |
| RpcCalls.FailureIsFinal | stepup/core/rpc.py:1396-1407 | After a call that started and did not reply, every later call is refused |
| RpcCalls.UnstartedChangesNothing | stepup/core/rpc.py:1396-1407 | A call that does not start, put anywhere in a series of calls, changes the outcome of no other call |
| RpcCalls.OutcomeMeans | stepup/core/rpc.py:1396-1407 | Which outcome a call has, told by what became of its exchange and by the bytes on the stream |
| RpcCalls.HonestServer | stepup/core/rpc.py:1396-1407 | Against a server that answers in order, over any fragmentation, each call returns the body of its own answer |
| PruneDirs.FileSystem.PruneEmptyDirs | stepup/core/finalize.py:489-509 | The stack loop ends with every doomed directory removed and nothing else, and only ever removes empty directories |
| PruneDirs.FileSystem.RemoveEmptyParents | stepup/core/clean.py:162-173 | The upward walk from each parent ends in the same tree |
| PruneDirs.LoopsAgree | stepup/core/clean.py:162-173 | Runs both loops on two file systems in the same state with the same candidates in any two orders: they end in the same state, no file is lost and no directory is added |
| PruneDirs.NothingLeftToPrune | stepup/core/finalize.py:489-509 | Every candidate, and every parent of a removed directory, is gone or not empty, the root excepted |
| PruneDirs.RemovedHeldNothing | stepup/core/finalize.py:489-509 | What is removed held no file, however deep, and its innermost directories were all candidates |
| PruneDirs.PrunedIsValid | stepup/core/finalize.py:489-509 | No file is lost and no entry loses its parent |
| PruneDirs.PruningIsIdempotent | stepup/core/finalize.py:489-509 | A second pass removes nothing |
| ConcurrencySweep.BuildIntervals | tools/analyze_perf.py:508-543 | The sweep returns the specified intervals and the jobs still open |
| ConcurrencySweep.IntervalsTile | tools/analyze_perf.py:534-543 | The intervals are contiguous, disjoint and cover the time from the first to the last event |
| ConcurrencySweep.JobTimeIsConserved | tools/analyze_perf.py:527-543 | The sum of active count times length equals the sum of all job lengths, open jobs counted to the last event |
| ConcurrencySweep.IntervalListsItsJobs | tools/analyze_perf.py:535-541 | Each interval lists exactly the jobs that cover it |
| ConcurrencySweep.SweepIsFaithful | tools/analyze_perf.py:508-543 | Conservation and coverage for any unsorted rows in which each job starts once and ends at most once, later |
| PathPrefix.DirRangeIsPrefix | stepup/core/path.py:293-316 | A string lies in the half-open range under bytewise order if and only if the directory is a prefix of it |
| PathPrefix.UpperIsLeastBound | stepup/core/path.py:309-316 | The upper bound is the smallest string past every path below the directory |
| PathPrefix.SequentialReplacesEscape | stepup/core/sqlite3.py:79-80 | Three replacements in a row equal one escape character by character |
| PathPrefix.LikeIsPrefix | stepup/core/sqlite3.py:79-80 | The escaped pattern accepts a string if and only if it starts with the prefix up to ASCII case |
| PathPrefix.PrefixAlwaysFound | stepup/core/clean.py:208-214 | Every path below the prefix is found |
| PathPrefix.LikeOvermatchesByCase | stepup/core/clean.py:208-214 | A path that only differs in case is found as well |

## Left out

- SQLite itself, its planner, indexes, transactions and collations other than BINARY; process launching, signals, threads, sockets and asyncio's own scheduling.
- SHA-256 and file stat: the theorems are about the byte stream before hashing, with file contents as given data.
- Pickle, JSON and YAML: bodies of RPC messages are opaque bytes.
- Reporter, progress bar, web and terminal output, labels of example steps in the pending summary.
- The triggers of file.py and the flags of `_ready`; a trigger on `_check_after` other than the three of `AfterTriggers` is not part of this model.
- User substitutions of named wildcards; the exact results are for the default substitution. Which of several captures Python's `re` picks is not claimed either: matching is a relation.
- The inside of a character class: a class carries the sets of characters that the two translations accept, as given data. The results about the scan ask that the first accepts some other character than a separator and, apart from the separator, none that the second does not.
- Absolute paths and paths with empty components or `..`, for the inclusion of expression in glob and for directory pruning. A directory removal that fails although the directory is empty is left out as well.
- Patterns that contain a newline, for `SplitIsLexed`.
- Rounding of durations: tail times are real numbers.
- Dispatch.Scheduler.PopNextJob: the updates of the metadata that precede the choice are the event `UpdateMeta`, proved on their own in `AfterUpdate` and `SafeUpdate`.
- Dispatch.CapacityOverRuns: speaks of the rows that are RUNNING; the units that the open job of a redefined step still uses are no longer counted by the code, nor here.
- Dispatch.RedefinedStepIsHandedOutTwice: does not model what becomes of the two processes.
- PendingRanking.RankDisplay: the LEFT JOIN itself is not modelled; its rows are given, one for each root and with the attributed count.
- Dispatch.Scheduler.RecordJobCompleted: does not model the recorded durations and the job log.
- HashQueue.HashQueue.JobDone: does not model the retrieval of the exception, which only silences a warning.
- JobLoop.NothingLeftBehind: hash jobs are submitted on behalf of a running step only, as the director does during a build phase.
- RpcCalls.SocketAsyncRPCClient.StartCall: opening the connection and refusing a closed client come before it and are left out.
- RpcCalls.SocketSyncRPCClient.Call: the timeouts themselves are left out; a timeout is a call that does not start or an interrupted exchange.
- ConcurrencySweep.BuildIntervals: the rows are those of the two event kinds; parsing of the job log is left out.
