# Verified model of the agent kernel and its tools

This project models the decision-making core of the agent operating system and proves properties of
it in Dafny: the causal scheduler and the snapshot barrier of the kernel, the session-log validator,
the import-cycle finder, the table analytics of the data agent, the complexity visitors of the code
agent, line-ending normalisation and directory watching in the file agent, the lease path check of
the filesystem worker, and the skill registry of the memory system.

`dafny verify dfyconfig.toml` checks everything. Code that updates fields or fills collections in
loops is modelled by classes and methods with loops, each proved against a specification function;
the theorems are lemmas about those functions.

| file | content |
|---|---|
| `CausalScheduler.dfy` | the scheduler as a class: submission, one cycle, a whole run, deadlock resolution |
| `CausalSchedules.dfy` | what every run keeps: causality and conservation |
| `CausalLevels.dfy` | the dispatch order in closed form, by level, clock and place; completeness, deadlock verdicts, leftovers |
| `CausalDeterminism.dfy` | independence of submission order, order by clock, and epochs |
| `CausalFailures.dfy` | what a raising dispatch means for the events that wait for it |
| `CausalReplay.dfy` | replaying the tail of a log, and inputs on which a run loses events |
| `SnapshotBarrier.dfy` | the barrier, the epoch counter and the snapshot trigger as a state machine over any number of coroutines |
| `BarrierHistory.dfy` | the barrier's state and its possible steps, told by the history of the run alone |
| `BarrierIsolation.dfy`, `BarrierRelease.dfy` | which runs keep snapshots isolated, and when a frozen gate can be opened |
| `ReplayValidator.dfy`, `ReplayReports.dfy`, `ReplayTheorems.dfy` | layers 1 to 3 of the log validator, line by line, and what their verdicts mean |
| `DependencyGraph.dfy` | the depth-first cycle search and its deduplication |
| `Reals.dfy`, `Statistics.dfy`, `Correlation.dfy` | Cauchy-Schwarz, Pearson correlation, and which rows it pairs |
| `Outliers.dfy` | quartile and standard-score outliers |
| `Grouping.dfy`, `PivotTable.dfy`, `GroupBy.dfy` | grouping and pivot tables, conservation of totals |
| `FlattenJson.dfy`, `JsonPositions.dfy`, `LeasePath.dfy`, `Splitting.dfy` | dotted paths, what they find, and file paths, all cut at a separator |
| `ComplexityVisitors.dfy` | the two syntax-tree visitors |
| `LineEndings.dfy`, `FileWatcher.dfy` | text normalisation and the change journal |
| `SkillRegistry.dfy` | usage counts and the incremental success rate |
| `Sorting.dfy`, `Tables.dfy`, `Options.dfy` | stable sorting and string order, table rows, optional values |

## Where the code and its documentation disagree

The model follows the code. These are the places where a promise of the documentation, or what a
caller would expect, does not hold of it; for each there is an input on which it fails and the exact
condition under which it holds.

- `core/orchestration/causal_scheduler.py:15-18` promises ascending logical clocks and a total
  deterministic order. The order is by level first, the length of the longest causal chain below an
  event. It ascends by clock exactly under `ClockOrderCondition` (input:
  `ConcurrentEventsOutOfClockOrder`), and it is independent of submission order exactly when no two
  dispatched events of one level share a clock (`RunIsDeterministic`, input:
  `EqualClocksFollowSubmission`).
- `core/orchestration/causal_scheduler.py:11-13` dispatches an event when all its parents have completed,
  and a parent whose dispatch raised counts as completed. All parents of dispatched events have returned
  exactly when no reached event has a reached parent that raises (`ParentsReturnedIff`, input:
  `ChildOfRaisingParentIsDispatched`).
- `core/orchestration/causal_scheduler.py:275` removes a failed event so as not to stall the graph. A
  cycle in which every ready event raises reports no progress, and then everything that waits is
  dropped, ready or not: exactly when all events of some level below another raise (`RunIsComplete`,
  `WipedOutIff`, input: `RaisingCycleDropsReadyChild`).
- Recovery replays the log after a snapshot with a fresh scheduler
  (`core/replay/replay_engine.py:168-196`). Parents that lie before the snapshot never count as
  completed, so an event that names one is dropped (`DeltaReplayDispatchesAll`, `DeltaReplayableIff`,
  input: `CutBetweenParentAndChild`). A strict recovery then fails with "Possible cycle"; so it does
  when any dispatch raises or an id repeats (`ExecuteRecovery`, input: `RepeatedIdIsRefused`).
- `core/orchestration/causal_scheduler.py:60-62` says that events of older epochs are not dispatched
  into newer ones. No scheduling decision reads the epoch (`EpochsAreIgnored`); the order goes back to
  no older epoch exactly under `EpochOrderCondition` (input: `OlderEpochAfterNewer`).
- `core/sync/synchronization.py:85-98` promises that nothing is split between epochs. This is safe
  exactly as long as no bare snapshot window is requested beside another snapshot by a coroutine that
  holds no mutation window (`RunsAreIsolatedIff`, inputs: `BareWindowsOverlap`,
  `OvertakenTriggerGoesStale`). Runs whose snapshots all come from `trigger_snapshot` are safe.
- `core/sync/synchronization.py:142-172` presents a gate that opens again. Over all runs, a frozen gate
  can be opened without cancelling anything exactly when no coroutine that holds a mutation window waits
  at the barrier itself, or some snapshot window can be left (`GateCanBeOpenedIff`, inputs:
  `TriggerInsideMutationDeadlocks`, `NestedMutationDeadlocks`); over exclusive runs, those without an
  overlapping request, exactly when no coroutine that holds a window of either kind waits
  (`GateCanBeReleasedIff`, input: `MutationInsideSnapshotNeedsOverlap`).
  A coordinator cancelled while it drains leaves the gate frozen for nobody, exactly when it is the
  only snapshot (`CancelOrphansTheGate`, input: `CancelledTriggerOrphansTheGate`); triggers never open
  it again (`OrphanedGateStaysClosed`).
- `tools/replay_validator.py:93` wants a causal parent before its child; an event may be its own
  parent (`StrictlyBeforeIffNoSelfParent`, input: `SelfParentAccepted`).
- `agents/data_agent.py:870-890` pairs two columns after dropping the gaps of each on its own, so a
  pair may mix two rows (`AlignedIffGapsAtEnd`, input: `GapMisaligns`).
- `agents/data_agent.py:905-971`: "mean", "min" and "max" pivots raise on an empty cell
  (`PivotRaisesIff`, input: `MeanRaisesOnEmptyCell`), a column value equal to the index name
  overwrites the row label (`PivotCells`, input: `IndexNameLosesLabel`), grouping raises on any text
  in the aggregated column even when it only counts (`GroupByRaisesIff`, input: `CountRaisesOnText`),
  and a group loses its key when its column is named "count" or like the aggregate (`GroupCounts`,
  input: `CountColumnLosesKey`).
- `start_watching` (`agents/file_agent.py:1322-1327`) takes the kinds of events to report and never
  reads them: only requested kinds are reported, whatever happens to the files, exactly when all three
  kinds are requested (`RequestKeptIff`, input: `UnrequestedIsReported`).
- `workers/filesystem_worker.py:170-185` is meant to accept the leased paths and what lies below them. A
  lease accepts exactly its path and what lies below it, exactly when the path ends in a name
  (`ContainsIff`): leases on "/" and "." reject everything below (input: `RootLeaseRejectsFile`), and a
  lease on ".." rejects what lies below and accepts "../.." (input: `ParentLeaseIsMisread`).

`tools/dependency_graph.py:45` speaks of shifting cycles. Nothing is shifted and nothing needs to be:
one search never records two rotations of a cycle (`SameNodesSameCycle`).

## Model

| member | source | states |
|---|---|---|
| CausalScheduler.Scheduler.constructor | core/orchestration/causal_scheduler.py:161-173 | a new scheduler has no pending and no completed events |
| CausalScheduler.Scheduler.Submit | core/orchestration/causal_scheduler.py:177-203 | a new id is appended; a pending id keeps its place and gets the new event |
| CausalScheduler.Scheduler.GetReadyEvents | core/orchestration/causal_scheduler.py:222-238 | the events without an uncompleted parent, stably sorted by clock |
| CausalScheduler.WaveMembers | core/orchestration/causal_scheduler.py:222-238 | exactly the ready pending events are listed, exactly the others stay blocked |
| CausalScheduler.Scheduler.RunCycle | core/orchestration/causal_scheduler.py:240-279 | one cycle hands over the whole ready list once, completes its ids whether or not they raise, leaves exactly the blocked events in order, and returns the number that did not raise |
| CausalScheduler.CycleLeavesBlocked | core/orchestration/causal_scheduler.py:250-277 | deleting the dispatched ids one by one leaves exactly the blocked events, ids still unique |
| CausalScheduler.Scheduler.RunUntilEmpty | core/orchestration/causal_scheduler.py:281-315 | a run's dispatches, drops, leftovers and completed ids, for every cycle budget and every set of raising events; the returned total is the number of dispatches that did not raise |
| CausalScheduler.SuccessesCount | core/orchestration/causal_scheduler.py:248-279 | that number is the number of dispatched events that do not raise |
| CausalScheduler.Scheduler.AbandonPending | core/orchestration/causal_scheduler.py:302-311 | deadlock resolution completes and drops all pending events in order |
| CausalSchedules.RunIsCausal | core/orchestration/causal_scheduler.py:11-13 | in every run an event is handed over only after all its parents have been completed |
| CausalSchedules.RunConserves | core/orchestration/causal_scheduler.py:281-315 | every submitted event is dispatched, dropped or left over, as often as it was submitted |
| CausalSchedules.RunDrains | core/orchestration/causal_scheduler.py:281-315 | with at least as many cycles as events nothing is left over |
| CausalLevels.RunDrainsIff | core/orchestration/causal_scheduler.py:281-315 | for every budget: nothing is left over if and only if within it lies a level whose events all raise, or above which nothing lies |
| CausalLevels.RestIsUnreached | core/orchestration/causal_scheduler.py:293-312 | exactly the unreached events are dropped or left, in order of submission, and not some of them dropped and others left |
| CausalLevels.RunInOrder | core/orchestration/causal_scheduler.py:222-315 | for all pending events, raising dispatches and budgets: exactly the events are dispatched that have a level within the budget and, on each level below, some event that does not raise; each once, by level, then clock, then place |
| CausalLevels.SortKeepsPlaces | core/orchestration/causal_scheduler.py:73-75 | sorting by clock keeps the places of equal clocks |
| CausalLevels.LevelsExist | core/orchestration/causal_scheduler.py:48-58 | all pending events with distinct ids have levels, smaller than their number |
| CausalLevels.LevelsUnique | core/orchestration/causal_scheduler.py:48-58 | the levels are determined by the pending events |
| CausalLevels.SchedulableIffLevel | core/orchestration/causal_scheduler.py:11-13 | some causal schedule contains an event if and only if it has a level |
| CausalLevels.RunIsComplete | core/orchestration/causal_scheduler.py:264-312 | a run dispatches exactly the events of some causal schedule, if and only if every event with a level has it within the budget and every level below it has an event that does not raise |
| CausalLevels.WipedOutIff | core/orchestration/causal_scheduler.py:293-312 | a deadlock is declared while an event is ready, if and only if within the budget some event has all events one level below it raising |
| CausalLevels.NoFailuresNoWipeOut | core/orchestration/causal_scheduler.py:293-312 | without raising dispatches the deadlock verdict is never premature |
| CausalLevels.AllDispatchedIff | core/orchestration/causal_scheduler.py:281-315 | everything is dispatched if and only if every event is reached |
| CausalLevels.LinearizableIffLevels | core/orchestration/causal_scheduler.py:48-58 | all events have levels if and only if they can be put into one causal order |
| CausalLevels.AllDispatchedIffLinearizable | core/orchestration/causal_scheduler.py:281-315 | without raising dispatches everything is dispatched if and only if the events can be put into one causal order and no level reaches the budget |
| CausalLevels.NothingDroppedIffLinearizable | core/orchestration/causal_scheduler.py:281-315 | with a cycle per event nothing is dropped exactly when the events can be put into one causal order |
| CausalFailures.ParentsReturnedIff | core/orchestration/causal_scheduler.py:264-277 | every parent of a dispatched event that was not completed before has been dispatched and has returned, if and only if no reached event has a reached parent that raises |
| CausalFailures.ChildOfRaisingParentIsDispatched | core/orchestration/causal_scheduler.py:264-277 | an input: an event is dispatched although its parent raised |
| CausalReplay.RaisingCycleDropsReadyChild | core/orchestration/causal_scheduler.py:264-312 | an input: a raising parent takes its ready child down with it |
| CausalReplay.DeltaReplayDispatchesAll | core/replay/replay_engine.py:143-196 | whatever raises: replaying the tail of a causal log with a fresh scheduler dispatches all of it if and only if no event of the tail has a parent before the cut, no level of the tail reaches the cycle budget, and on each level below another some event does not raise |
| CausalReplay.AllReturnIff | core/replay/replay_engine.py:188-196 | for any events with distinct ids: as many dispatches return as events were submitted, if and only if none raises and every event has a level within the budget |
| CausalReplay.SubmitAll | core/replay/replay_engine.py:143-166 | every event is counted; with distinct ids all are pending in order, otherwise fewer are pending than were counted |
| CausalReplay.ExecuteRecovery | core/replay/replay_engine.py:168-212 | for every log: a strict recovery succeeds if and only if its ids are distinct, no dispatch raises, and every event has a level within the cycle budget; otherwise recovery always succeeds |
| CausalReplay.DeltaReplayableIff | core/replay/replay_engine.py:168-196 | the events of the tail of a causal log have levels within the budget if and only if none has a parent before the cut and no level reaches the budget |
| CausalReplay.RepeatedIdIsRefused | core/replay/replay_engine.py:191-196 | an input: a log that names one event twice can be replayed and is refused |
| CausalReplay.CutBetweenParentAndChild | core/replay/replay_engine.py:168-196 | an input: a completion whose creation lies before the cut is dropped |
| CausalDeterminism.RunIsDeterministic | core/orchestration/causal_scheduler.py:15-18 | the dispatch order is the same for all orders of submission if and only if no two reached events of one level share a clock |
| CausalDeterminism.EqualClocksFollowSubmission | core/orchestration/causal_scheduler.py:15-18 | an input: two events with one clock are dispatched as submitted, either way |
| CausalDeterminism.ClockOrderCondition | core/orchestration/causal_scheduler.py:15-18 | the dispatch order ascends by clock if and only if no reached event has a smaller clock than a reached event of smaller level |
| CausalDeterminism.ConcurrentEventsOutOfClockOrder | core/orchestration/causal_scheduler.py:15-18 | an input: of two concurrent events the later clock is dispatched first |
| CausalDeterminism.EpochsAreIgnored | core/orchestration/causal_scheduler.py:60-62 | with any other epochs the same events are dispatched in the same order, dropped and left over |
| CausalDeterminism.EpochOrderCondition | core/orchestration/causal_scheduler.py:60-62 | dispatch goes back to no older epoch if and only if no reached event has a smaller epoch than one that comes sooner by level, clock and place |
| CausalDeterminism.OlderEpochAfterNewer | core/orchestration/causal_scheduler.py:60-62 | an input: an event of epoch 0 is dispatched after one of epoch 1 |
| SnapshotBarrier.InitialInvariant | core/sync/synchronization.py:173-180 | a fresh barrier satisfies the invariant |
| SnapshotBarrier.InvariantStep | core/sync/synchronization.py:194-254 | whatever is cancelled or aborted, a step keeps count, freeze flag, tags, epochs and isolation, if and only if it is no overlapping request |
| BarrierHistory.HistoryTells | core/sync/synchronization.py:194-254 | over every run from the start: the gate is closed if the last step that freezes or leaves freezes; the mutation windows of each coroutine are its entries through the open gate, at once or after waiting, less its exits; its snapshot windows those entered with nothing in flight, less those left; the epoch is the number of commits; who waits where, and with which tag, is who came and was neither let in nor cancelled |
| BarrierHistory.RunContinuesIff | core/sync/synchronization.py:194-254 | a run can go on with a step if and only if its history allows it |
| BarrierHistory.MutationKeepsSnapshotsOut | core/sync/synchronization.py:194-240 | over a run without overlapping request: while a coroutine has entered more mutation windows than it has left, at once or after waiting, no snapshot window is open |
| BarrierIsolation.StepIsSecureIff | core/sync/synchronization.py:194-254 | isolation survives all further exclusive runs after a step if and only if the step is no overlapping request |
| BarrierIsolation.RunsAreIsolatedIff | core/sync/synchronization.py:85-98 | over every run from the start: no mutation is in flight in an open window, the captured version is the current one, the window carries the epoch it seals, and this is safe from then on, exactly as long as no bare window is requested, by a coroutine that holds no mutation window, beside a snapshot that is open or waits for others only |
| BarrierIsolation.TriggersAreExclusive | core/state/state_snapshot.py:64-74 | runs whose snapshots all come from the trigger have no overlapping request |
| SnapshotBarrier.MutationSeesNoCommit | core/sync/synchronization.py:85-98 | over a run without overlapping request: while a mutation window stays open no snapshot commits and the epoch stays the same |
| BarrierIsolation.BareWindowsOverlap | core/sync/synchronization.py:227-240 | an input: two bare windows are open at once |
| BarrierIsolation.OvertakenTriggerGoesStale | core/state/state_snapshot.py:71-82 | an input: a trigger woken too early queues again behind a bare window, and is sealed in epoch 1 under the tag of epoch 0 with the gate open |
| BarrierRelease.FrozenOnlyForSnapshots | core/sync/synchronization.py:227-254 | over a run without cancellation and without overlapping request the gate is frozen exactly while a snapshot is active |
| BarrierRelease.GateCanBeOpenedIff | core/sync/synchronization.py:194-251 | in every state whose count is right, over all runs: a frozen gate can be opened without cancelling anything if and only if no coroutine that holds a mutation window waits at the barrier itself, or some snapshot window can be left; under the invariant, if and only if none waits |
| BarrierRelease.ReachedGateCanBeOpenedIff | core/sync/synchronization.py:194-251 | the same after every run from the start, with overlapping requests and cancellations |
| BarrierRelease.GateCanBeReleasedIff | core/sync/synchronization.py:194-251 | under the invariant, over runs without overlapping request: a frozen gate can be opened without cancelling anything if and only if no coroutine that holds a window of either kind waits at the barrier itself |
| BarrierRelease.TriggerInsideMutationDeadlocks | core/sync/synchronization.py:229-235 | an input: a snapshot triggered inside a mutation window waits for that window, and no run without cancellation opens the gate again |
| BarrierRelease.NestedMutationDeadlocks | core/sync/synchronization.py:194-200 | an input: so does a mutation window opened inside another after a freeze |
| BarrierRelease.MutationInsideSnapshotNeedsOverlap | core/sync/synchronization.py:194-251 | an input: a mutation opened inside an own bare window waits, and only a run with an overlapping request opens the gate |
| BarrierRelease.CancelOrphansTheGate | core/sync/synchronization.py:229-235 | cancelling a draining coordinator leaves the gate frozen for nobody exactly when no other snapshot is active |
| BarrierRelease.CancelledTriggerOrphansTheGate | core/sync/synchronization.py:229-235 | an input: the only snapshot is cancelled while it waits for a mutation, and the gate is frozen for nobody |
| BarrierRelease.OrphanedGateStaysClosed | core/state/state_snapshot.py:64-66 | from then on, without a bare window, no snapshot starts, no mutation enters and the gate stays shut |
| ReplayValidator.Layer1Structural | tools/replay_validator.py:59-73 | reports missing fields, invalid ids and repeated ids, in order |
| ReplayValidator.Layer2Temporal | tools/replay_validator.py:76-123 | reports unseen parents, lifecycle errors and illegal transitions, in order |
| ReplayValidator.Layer3Semantic | tools/replay_validator.py:126-158 | no report if no heartbeat carries a list; otherwise the tasks whose last event leaves them created or started are compared with the list of the last heartbeat that carries one |
| ReplayReports.StructuralReportIff | tools/replay_validator.py:59-73 | a line stands in the report of layer 1 if and only if its event lacks a required field, has no non-empty string as id, or repeats the id of an earlier event |
| ReplayReports.TemporalReportIff | tools/replay_validator.py:76-121 | a line stands in the report of layer 2 if and only if its event names a parent not seen, creates an agent last created, destroys one not last created, or is not allowed after its task's own events |
| ReplayReports.StructuralIsOrdered | tools/replay_validator.py:59-73 | the report of layer 1 goes by event and then by check, each line once |
| ReplayReports.TemporalIsOrdered | tools/replay_validator.py:76-121 | so does that of layer 2 |
| ReplayTheorems.TaskJudgedByOwnEvents | tools/replay_validator.py:111-121 | a task's state and its number of errors depend on its own events alone |
| ReplayTheorems.InterleavingDoesNotMatter | tools/replay_validator.py:111-148 | logs that agree on each task's own events yield the same task maps, the same errors per task and the same active set |
| ReplayTheorems.AcceptedIffLegal | tools/replay_validator.py:41-54 | a task's events are accepted exactly when they are a prefix of [CREATED] STARTED (COMPLETED or FAILED) |
| ReplayTheorems.NoIllegalTransitionIffLegal | tools/replay_validator.py:111-121 | layer 2 reports no illegal transition if and only if every task's own events are such a prefix |
| ReplayTheorems.NothingAfterTerminal | tools/replay_validator.py:41-47 | a terminal event is the last of its task |
| ReplayTheorems.ReplayedByOwnEvents | tools/replay_validator.py:141-146 | layer 3 keeps the state of a task's latest event |
| ReplayTheorems.ReconstructionsAgree | tools/replay_validator.py:112-146 | without illegal transitions the unguarded and the guarded task maps are equal |
| ReplayTheorems.ReconstructionsAgreeIff | tools/replay_validator.py:112-146 | the two maps are equal if and only if every task's last event is accepted or repeats the state already held |
| ReplayTheorems.ReconstructionsDiffer | tools/replay_validator.py:112-146 | an input on which they differ |
| ReplayTheorems.TasksOfMap | tools/replay_validator.py:112-148 | without illegal transitions the task map holds exactly the tasks that have an event |
| ReplayTheorems.TasksAreConserved | tools/replay_validator.py:112-148 | without illegal transitions active tasks, completions and failures add up to the tasks in the map |
| ReplayTheorems.AgentJudgedByOwnEvents | tools/replay_validator.py:100-109 | an agent's errors are the equal neighbours in its own created/destroyed word |
| ReplayTheorems.NoRepeatsIffBalanced | tools/replay_validator.py:100-109 | such a word has no equal neighbours exactly when every prefix has created minus destroyed in {0, 1} |
| ReplayTheorems.AgentCleanIffBalanced | tools/replay_validator.py:100-109 | so an agent is reported clean exactly when it is alive zero or one time throughout |
| ReplayTheorems.NoCausalErrorIff | tools/replay_validator.py:86-98 | no causal error exactly when every parent id names an event at or before the child |
| ReplayTheorems.NoIdErrorIff | tools/replay_validator.py:61-72 | no id error exactly when all ids are distinct non-empty strings |
| ReplayTheorems.NoFieldErrorIff | tools/replay_validator.py:62-65 | layer 1 reports no missing field exactly when every event has all seven required ones |
| ReplayTheorems.ParentIsUnique | tools/replay_validator.py:62-98 | in a log without both, every parent id names exactly one event, at or before the child |
| ReplayTheorems.CausalOrderWellFounded | tools/replay_validator.py:86-98 | apart from self-references ancestor chains descend and never return, so they are finite |
| ReplayTheorems.StrictlyBeforeIffNoSelfParent | tools/replay_validator.py:89-98 | parents lie strictly before children exactly when no event is its own parent |
| ReplayTheorems.SelfParentAccepted | tools/replay_validator.py:89-98 | an input: a self-parent passes both layers |
| DependencyGraph.CycleFinder.constructor | tools/dependency_graph.py:24-26 | the search starts with nothing visited and nothing recorded |
| DependencyGraph.CycleFinder.Dfs | tools/dependency_graph.py:28-40 | for every finite graph the call terminates, restores the path, and leaves the node finished or the edge to it recorded |
| DependencyGraph.CycleFinder.VisitNeighbours | tools/dependency_graph.py:38-39 | every neighbour is finished or its edge recorded |
| DependencyGraph.CycleFinder.Record | tools/dependency_graph.py:29-32 | the tail of the path from the first visit of the node, closed by the node |
| DependencyGraph.CycleFinder.Enter | tools/dependency_graph.py:36-37 | a fresh node is marked visited and put on the path |
| DependencyGraph.CycleFinder.Leave | tools/dependency_graph.py:40 | the node is taken off the path and counts as finished |
| DependencyGraph.CycleFinder.Search | tools/dependency_graph.py:42-43 | every key of the graph ends up finished |
| DependencyGraph.SearchBreaksAllCycles | tools/dependency_graph.py:28-43 | every closed walk of the graph uses the closing edge of a recorded cycle |
| DependencyGraph.SameNodesSameCycle | tools/dependency_graph.py:45-52 | recorded cycles over the same nodes are identical |
| DependencyGraph.Deduplicate | tools/dependency_graph.py:46-53 | keeps, in order, the first item of each key |
| DependencyGraph.RepresentativesOfKeys | tools/dependency_graph.py:46-53 | a subsequence remains, with exactly one representative of each key |
| DependencyGraph.DeduplicationLosesNothing | tools/dependency_graph.py:45-53 | deduplication drops only literal repeats |
| DependencyGraph.EmptyIffAcyclic | tools/dependency_graph.py:23-53 | breaking all cycles with simple cycles, the list is empty exactly for an acyclic graph |
| DependencyGraph.FindCycles | tools/dependency_graph.py:23-53 | every cycle returned is a simple closed walk; deleting their closing edges leaves no directed cycle; the list is empty exactly for an acyclic graph; no node set occurs twice |
| Statistics.Schwarz | agents/data_agent.py:881-884 | the Cauchy-Schwarz inequality for sequences of any length |
| Correlation.PearsonBounded | agents/data_agent.py:880-884 | the coefficient lies in [-1, 1], also for a constant column, where it is 0 |
| Correlation.PearsonSymmetric | agents/data_agent.py:880-884 | swapping the columns does not change it |
| Correlation.PearsonScaleInvariant | agents/data_agent.py:880-884 | changing unit (positively) and origin of a column does not change it |
| Correlation.PearsonInRawSums | agents/data_agent.py:880-884 | in columns that vary: the coefficient times both deviations and n - 1 is the sum of the products less the product of the sums over n |
| Correlation.PearsonOfLine | agents/data_agent.py:880-884 | against its image under a line a column has coefficient 1 when the line ascends and -1 when it descends |
| Correlation.AnswerIff | agents/data_agent.py:873-879 | the conversion fails if and only if some value of a column is no number; otherwise both columns need two values, and the shorter one decides the number of pairs |
| Correlation.CorrelationBounded | agents/data_agent.py:870-890 | every correlation of two numeric columns with two pairs is reported, in [-1, 1], and symmetric |
| Correlation.ValuesFromRows | agents/data_agent.py:874-879 | the k-th value of a column is that of its k-th row with a value |
| Correlation.GapsAtEndPairsCompleteRows | agents/data_agent.py:874-879 | without gaps before later values the pairs are exactly the rows with both values |
| Correlation.AlignedIffGapsAtEnd | agents/data_agent.py:874-879 | all pairs come from one row each if and only if no column has a value after a row in which only the other has one |
| Correlation.GapMisaligns | agents/data_agent.py:874-879 | an input: a gap pairs the first row's value with the second row's |
| Outliers.DetectOutliers | agents/data_agent.py:990-1028 | too few values, or the number of outlying rows, of all rows, and the first hundred of the outlying ones in order |
| Outliers.FlagsIff | agents/data_agent.py:1000-1019 | for every method name and threshold a value of the column is flagged if and only if, by quartiles, its distance from the interval between the quartile positions exceeds the threshold times the interval's width, or, by standard score, its squared deviation exceeds the threshold's square times the sample variance or the threshold is negative |
| Outliers.FlaggedCount | agents/data_agent.py:994-1017 | rows flagged are as many as values flagged in the sorted column |
| Outliers.MiddleUnflaggedIff | agents/data_agent.py:1002-1008 | nothing between the quartiles is flagged if and only if the threshold is not negative or the quartiles coincide |
| Outliers.IqrFlagsAtMostTheTails | agents/data_agent.py:1002-1008 | a threshold >= 0 flags at most n/4 + (n - 1 - 3n/4) rows |
| Outliers.ZScoreBound | agents/data_agent.py:1010-1014 | m rows flagged at threshold k >= 0 satisfy m k^2 < n - 1 |
| Outliers.FewValuesHaveNoOutlier | agents/data_agent.py:1010-1014 | with n <= k^2 + 1 values no row is flagged |
| Grouping.SortedSetSorts | agents/data_agent.py:938-939 | each label once, ascending |
| Sorting.StringLeqIff | agents/data_agent.py:938-939 | strings are compared at their first difference, and a prefix comes first |
| Grouping.SortedSetUnique | agents/data_agent.py:938-939 | the sorted list does not depend on the enumeration of the set |
| Grouping.SharesConserve | agents/data_agent.py:941-947 | weights shared out over distinct covering keys keep their total |
| PivotTable.FillBuckets | agents/data_agent.py:941-947 | each bucket holds the numbers of the rows with its two labels, in order |
| PivotTable.Pivot | agents/data_agent.py:934-971 | the table over all sorted index and column values, or the exception |
| PivotTable.PivotRaisesIff | agents/data_agent.py:954-963 | the pivot raises if and only if the aggregate is mean, min or max and some index value never meets some column value with a number |
| PivotTable.PivotCells | agents/data_agent.py:949-964 | every cell is the aggregate of its bucket; a row keeps its label if and only if the index name is no column value |
| PivotTable.CellsAreAggregates | agents/data_agent.py:949-964 | every row has its label and one cell per column value, and every cell is the sum, mean, least or greatest of its bucket, the number of its values, or none, as the aggregate's name says |
| PivotTable.MeanRaisesOnEmptyCell | agents/data_agent.py:954-963 | an input: two rows that share no label make the pivot by mean raise |
| PivotTable.IndexNameLosesLabel | agents/data_agent.py:951-963 | an input: a column value named like the index replaces the label |
| PivotTable.RowTotalIsShare | agents/data_agent.py:949-964 | a row total is the total of the rows with its index value |
| PivotTable.PivotConserves | agents/data_agent.py:934-971 | "sum" conserves the total of all numbers, "count" the number of rows with one |
| GroupBy.FillGroups | agents/data_agent.py:908-911 | each group holds its rows in order, keys in order of first occurrence |
| GroupBy.GroupRows | agents/data_agent.py:905-932 | the dictionaries of the groups by ascending key, or the exception |
| GroupBy.GroupByRaisesIff | agents/data_agent.py:916-929 | grouping raises if and only if a row has text in the aggregated column, whatever the aggregate |
| GroupBy.CountRaisesOnText | agents/data_agent.py:916-929 | an input: counting raises on a text |
| GroupBy.GroupCounts | agents/data_agent.py:913-930 | one group per distinct key in ascending order, each with its number of rows, together all rows; a group keeps its key if and only if its column is named neither "count" nor like its aggregate |
| GroupBy.GroupsAre | agents/data_agent.py:913-930 | every group is the dictionary of its key, its number of rows and, if some value is not null, the aggregate of its values, which for an unknown name is their sum |
| GroupBy.MissingIsNotNull | agents/data_agent.py:908-911 | an input: a missing value is grouped under the empty text, null under "None" |
| GroupBy.CountColumnLosesKey | agents/data_agent.py:915 | an input: grouped by a column named "count", a group loses its key |
| GroupBy.PivotRowsAgreeWithGroups | agents/data_agent.py:905-971 | whenever grouping does not raise, each pivot row total is the group's sum (or count) for the same key |
| FlattenJson.FlattenDict | agents/data_agent.py:1576-1591 | the merge of all fields, nested dictionaries and list items |
| FlattenJson.FlattenItems | agents/data_agent.py:1583-1588 | the items of a list under indexed keys, dictionaries flattened further |
| FlattenJson.TraverseJson | agents/data_agent.py:1594-1603 | the value at the end of the dotted path, none on a dead end, IndexError, or ValueError for a digit without decimal value |
| JsonPositions.TraversalFindsIff | agents/data_agent.py:1594-1603 | over every value, path and classification of digits: traversing finds a value other than null if and only if the parts of the path read keys and list indices that lead to it |
| JsonPositions.TraverseFindsPosition | agents/data_agent.py:1594-1603 | joining the keys and written indices that lead to a value gives a path to it, when no key has a dot |
| JsonPositions.IndexErrorIff | agents/data_agent.py:1596 | IndexError if and only if a part reads an index behind the end of the list to which the parts before it lead |
| JsonPositions.ValueErrorIff | agents/data_agent.py:1596 | ValueError if and only if such a part has a digit without decimal value |
| FlattenJson.FlatSound | agents/data_agent.py:1576-1591 | every flattened key is the dotted path of a leaf and carries it, through dictionaries and lists |
| FlattenJson.FlatComplete | agents/data_agent.py:1576-1591 | the dotted path of every leaf is a key and carries the leaf |
| FlattenJson.FieldsDoNotCollide | agents/data_agent.py:1580-1590 | different fields never produce the same key |
| FlattenJson.ItemsDoNotCollide | agents/data_agent.py:1584-1588 | different items of a list never produce the same key |
| FlattenJson.ReadDecimal | agents/data_agent.py:1584-1588 | reading a written list index gives the index |
| FlattenJson.FlatCountsLeaves | agents/data_agent.py:1576-1591 | as many keys as leaves, list items included: none is overwritten |
| FlattenJson.LastFieldWins | agents/data_agent.py:1578-1591 | for all dictionaries: the last field that produces a key gives its value |
| FlattenJson.TraverseUndoesFlatten | agents/data_agent.py:1576-1603 | traversing with a flattened key gives the flattened value if and only if the key leads through no list or the value is null |
| FlattenJson.DottedKeyIsTakenApart | agents/data_agent.py:1599-1602 | an input: a key with a dot is flattened but not found |
| FlattenJson.EmptyKeyIsLost | agents/data_agent.py:1580 | an input: below an empty key a value is flattened but not found |
| FlattenJson.ListItemIsNotTraversed | agents/data_agent.py:1583-1602 | an input: a list item is flattened but not found |
| Splitting.SplitJoin | agents/data_agent.py:1580-1599 | splitting undoes joining |
| ComplexityVisitors.ComplexityVisitor.Visit | agents/code_agent.py:93-133 | both counters grow by the sums over the subtree, and the nesting counter is restored |
| ComplexityVisitors.ComplexityVisitor.VisitNested | agents/code_agent.py:101-120 | the same for the three classes that raise the nesting |
| ComplexityVisitors.MaxDepthVisitor.Visit | agents/code_agent.py:136-156 | the maximum covers the subtree, and the depth counter is restored |
| ComplexityVisitors.ComplexityIsTotal | agents/code_agent.py:93-133 | both complexities are sums over all nodes, each weighed by its ancestors |
| ComplexityVisitors.OccurrencesIff | agents/code_agent.py:93-156 | those nodes are exactly the ends of the paths from the root, each with its ancestors |
| ComplexityVisitors.DepthIsHighest | agents/code_agent.py:136-156 | the maximum depth is the largest number of hooked nodes on a path from the root |
| ComplexityVisitors.CognitiveCountsDecisions | agents/code_agent.py:101-125 | cognitive complexity is at least the number of decision nodes, with equality exactly when none is nested |
| ComplexityVisitors.CognitiveAtMostCyclomaticTimesDepth | agents/code_agent.py:93-156 | for every tree whose except handlers all lie at a nesting below the maximum depth: cognitive <= (cyclomatic - 1) * maximum depth |
| ComplexityVisitors.HookedHandlersAreBelowDepth | agents/code_agent.py:136-156 | every handler of a plain try does, and every handler inside a with statement, a function or a class |
| ComplexityVisitors.CognitiveBoundWithTryStar | agents/code_agent.py:93-156 | for every tree: cognitive <= (cyclomatic - 1) * (maximum depth + 1) |
| ComplexityVisitors.TryStarExceedsDepth | agents/code_agent.py:143-156 | an input that breaks the first bound |
| LineEndings.NormalizeJoinsLines | agents/file_agent.py:1208-1215 | the three replacements split the text into lines at LF, CRLF and CR and join them with the style's terminator |
| LineEndings.LinesIff | agents/file_agent.py:1208-1215 | the lines are the only way to read a text as lines without terminator, each but the last ended by LF, CRLF, or a CR that no LF follows |
| LineEndings.NormalizeKeepsLines | agents/file_agent.py:1208-1215 | every normalisation keeps the lines, hence the number of terminators |
| LineEndings.LastStyleWins | agents/file_agent.py:1208-1215 | normalising twice is normalising to the second style, for all texts and styles; so each style is idempotent |
| FileWatcher.StartWatching | agents/file_agent.py:1348-1367 | the changes of every poll, in order |
| FileWatcher.RecordPoll | agents/file_agent.py:1354-1366 | created and modified paths in order of the new snapshot, then deleted paths in order of the old one |
| FileWatcher.PollIff | agents/file_agent.py:1354-1366 | a poll reports exactly the creations, modifications and deletions between the two snapshots |
| FileWatcher.PollInOrder | agents/file_agent.py:1354-1366 | a poll lists each path once, current paths in their order before vanished ones in theirs |
| FileWatcher.RequestKeptIff | agents/file_agent.py:1322-1327 | only requested kinds are reported, over all snapshots that may be taken, if and only if all three kinds are requested |
| FileWatcher.UnrequestedIsReported | agents/file_agent.py:1322-1327 | an input: a creation is reported to a caller who asked for deletions |
| FileWatcher.JournalReplays | agents/file_agent.py:1348-1367 | every entry is possible when its turn comes, and replaying the journal turns the first set of paths into the last |
| FileWatcher.CreatedAndDeletedAlternate | agents/file_agent.py:1348-1367 | between two creations of a path lies a deletion, and conversely |
| FileWatcher.SilentDriftIsBounded | agents/file_agent.py:1358 | a path without deletion or modification over n polls is still there, its time moved by at most 0.001 n |
| FileWatcher.DriftUnnoticed | agents/file_agent.py:1358 | the bound is reached without a report |
| LeasePath.PathAllowed | workers/filesystem_worker.py:170-179 | the loop accepts exactly when some allowed path covers the target by components |
| LeasePath.MatchesIffCovers | workers/filesystem_worker.py:175-177 | for all normalised paths the string test is the component test, with the root as the only exception |
| LeasePath.BelowRootIsComponentPrefix | workers/filesystem_worker.py:175-177 | below the root the test is a component prefix test, so a sibling with a longer name is rejected |
| LeasePath.RootCoversItselfOnly | workers/filesystem_worker.py:177 | the root as an allowed path covers only itself among paths with one leading slash |
| LeasePath.ContainsIff | workers/filesystem_worker.py:175-177 | over all paths as `os.path.normpath` leaves them, with "..": a lease accepts exactly its path and what lies below it, if and only if its path ends in a name |
| LeasePath.ParentLeaseIsMisread | workers/filesystem_worker.py:177 | an input: a lease on ".." rejects "a" and accepts "../.." |
| LeasePath.RootLeaseRejectsFile | workers/filesystem_worker.py:177 | an input: leases on "/" and "." reject "/a" and "a" |
| Splitting.StartsWithIffParts | workers/filesystem_worker.py:177 | beginning with a string and a separator is having its parts as a proper prefix |
| SkillRegistry.MemorySystem.constructor | memory/memory_system.py:99-106 | an empty registry |
| SkillRegistry.MemorySystem.UpsertSkill | memory/memory_system.py:488-514 | the named row is inserted or updated, and no other row changes |
| SkillRegistry.MemorySystem.Replay | memory/memory_system.py:488-514 | after any sequence of calls the registry is the fold of their upserts |
| SkillRegistry.RegistryCountsHistory | memory/memory_system.py:488-514 | from any registry: a skill's count grows by its calls, rate times count by its successes, other skills are untouched |
| SkillRegistry.DescriptionIsLatest | memory/memory_system.py:488-514 | a skill's description is that of its latest call, cut to 500 characters |
| SkillRegistry.RateIsMean | memory/memory_system.py:488-514 | from the empty registry the rate is successes over calls, in [0, 1] |

## Left out

- Numbers: floats are exact reals, so rounding, NaN and infinities are not modelled; a standard
  deviation is given as the non-negative root of the sample variance instead of being computed.
- `sorted` is a stable insertion sort; its result is fixed by lemmas that do not name the algorithm.
- Files, clocks, sockets, SQLite, the event bus and the event loop; the watcher works on the sequence
  of snapshots it takes, `upsert_skill` on a map, and `last_used` and other time stamps are omitted.
- Scheduler: the dispatch function is a set of events on which it raises, and does not submit events
  itself; the trace log and its cap, the write-only map of dependents and the lock are omitted.
- Barrier: between two suspension points a coroutine may take several steps, such as the entry and the
  exit of a triggered snapshot; the model lets others come between, and the head of
  `SnapshotBarrier.dfy` says why its theorems hold of the code. Wake-up order, fairness, the thread
  lock of the epoch manager and the unused transition gate are omitted; windows of one coroutine may
  be left in any order.
- Recovery: reading the log segments, which may abort the recovery, and the replay cursor.
- Validator: layer 4 and its hash, and payloads that are no dictionaries or ids that cannot be hashed.
- DependencyGraph.FindCycles: the order in which cycles are listed, and which of several possible
  closing edges the search happens to meet, depend on the order of the search and are not stated.
- Cycle finder: Python's recursion limit and the scan of source files for imports.
- Tables: CSV and JSON parsing, the caps on listed rows other than that of outliers, and rounding of the
  reported coefficient and its wording.
- FlattenJson.TraverseUndoesFlatten: is stated for dictionaries whose keys are distinct, non-empty and
  free of dots, and of "[" when there are lists; `DottedKeyIsTakenApart` and `EmptyKeyIsLost` show what
  happens otherwise.
- FlattenJson.TraverseJson: which characters are digits, and their values, is a parameter; Python's
  limit on the length of a number is omitted.
- LeasePath.PathAllowed: takes normalised paths as leading slashes and components; the rest of the
  lease validation, and `os.path.normpath` itself, are not part of this model.
- ComplexityVisitors.CognitiveAtMostCyclomaticTimesDepth: excludes trees with an `except*` handler as
  deeply nested as the whole tree is deep, for which it can be false (`TryStarExceedsDepth`); the bound
  with one more level covers them.
- SkillRegistry.MemorySystem.UpsertSkill: one row per name, as `upsert_skill` maintains it; the schema
  itself has no unique constraint.
- Other agents, adapters, language-model prompts, user interface and configuration tables.
