# Verified model of the deterministic planning and execution stack

This project models, in Dafny 4.11, the parts of the system that decide what runs, in which order, what is
skipped, what is retried and what is accepted, and proves what they promise for all inputs.

* **Dependency graphs** (`Digraph`, `Kahn`, `PlanGraph`, `Planner`, `TaskGraphs`). The recursive depth-first cycle
  test, the level scheduler of the planning engine and the priority scheduler of the task graph, as imperative
  classes over adjacency maps and in-degree counters. Both schedulers share one depth-first search and one
  in-degree invariant. `heapq` is extract-min on a set under a proved strict total order.
* **Execution** (`Runner`, `RunOutcomes`, `SkipChains`, `SkipDepth`, `StructuralMetrics`). The runner's in-place status
  machine, proved equal to a function of the plan, and then described in terms of ancestors; the structural
  metrics of the self-improvement loop, proved to agree with what planner and runner do iteratively.
* **The loop controller** (`Decisions`, `LoopControllers`, `LoopRuns`, `LoopDecisions`). Planner, executor and memory are arbitrary oracles;
  the imperative controller is proved to carry out exactly the run they determine, and safety, accounting and the
  meaning of success are proved of that run. Scores are exact rationals.
* **Orchestration** (`Orchestration`, `Orchestrator`). The lifecycle state machine, bounded recovery and the five phases.
* **Gates and selectors** (`ImprovementEngines`, `ConflictResolvers`, `AdaptationPolicies`, `ImprovementPolicies`). Acceptance of
  self-improvements over a whole append-only decision log, and the three winner selections.
* **The deployment context** (`FrozenValues`, `DeploymentContexts`). Freezing, thawing, serialisation and the fingerprint.

`Ordering` holds the string order, extract-min, the stable sort and the filter the others use.

`dafny verify dfyconfig.toml` checks everything.

## What the proofs show about the code

Some things the documentation or the comments suggest are not what the code does. The model follows the code.

* `DependencyGraph.build` counts a dependency once for each time it is listed while the adjacency is a set. A task that
  repeats a dependency id can therefore never be scheduled, and the plan is rejected as cyclic although the graph is
  acyclic (`Planner.RepeatedDependencyRejected`). `PlanGraph.DependencyGraph.TraverseLevels` and `Planner.BuildPlan` state the
  exact condition. `TaskGraph.add_dependency` guards against this and needs no such condition.
* In `LoopController`, moving `retry_same` to the end of the candidates (lines 802-807) never changes the choice, because the
  candidates are then sorted by a key on which no two of them agree (`Decisions.ReorderIrrelevant`). Lowering its
  confidence near the failure threshold (lines 837-840) has no effect as long as no success was credited to it, and the
  controller itself only ever credits `advance_step` (`Decisions.ScoreWithoutCredit`, `Decisions.ChoiceWithoutCredit`).
* A planning or execution engine that answers None successfully is traced as completed, yet the run stops there without a
  FAILED transition, so it ends in a state that is not terminal (`Orchestrator.NoneAnswerEndsPlanning`).
  `Orchestrator.EndsTerminal` says that this is the only way it can.
* The improvement engine's cooldown is described as three cycles but counts decision records, of which every cycle on
  cooldown writes at least two: it never lasts three cycles, whatever else is written
  (`ImprovementEngines.CooldownLastsAtMostTwoCycles`), and one or two when nothing is
  (`ImprovementEngines.CooldownWithoutOtherWriters`). A run during which the execution metrics do not change is never
  accepted (`ImprovementEngines.UnchangedHistoryIsNeverAccepted`).
* The success and failure rates of a history need not add up to 1: each is rounded on its own, and one success in 160
  can give 1.0001 (`ImprovementEngines.RatesCanExceedOne`). `ImprovementEngines.RatesPartition` bounds the difference and says when
  there is none.
* `ImprovementPolicy.approve` replaces an approved action by a more confident one for the same target, but it visits
  actions in order of falling confidence, so that branch is dead (`ImprovementPolicies.FirstMetStep`).
* `ConflictResolver.resolve` selects by id. With unique ids it returns exactly the winners; when ids are shared it can
  return an ineligible adaptation (`ConflictResolvers.SharedIdsLetLosersThrough`) or raise a KeyError
  (`ConflictResolvers.SharedIdsRaiseKeyError`); `ConflictResolvers.WinnersOnlyExactly` and `ConflictResolvers.FailsExactly` say
  exactly when.

## Model

| member | source | states |
|---|---|---|
| `Digraph.DepthFirstSearch.Search` | app/planning/graph.py:69-90 | the recursive search with `visited` and `rec_stack` terminates and answers true exactly when the graph has a directed cycle |
| `Digraph.DepthFirstSearch.Visit` | app/planning/graph.py:73-83 | a found back edge is a cycle; otherwise every node reachable from here is finished after its neighbours, with unvisited nodes as the measure |
| `Digraph.RankedAcyclic` | app/planning/graph.py:63-90 | a graph whose nodes all finished after their neighbours has no cycle |
| `Digraph.StuckCycle` | app/planning/graph.py:130-131 | nodes that each wait for another of themselves lie on or behind a cycle |
| `Kahn.ReadyIff` | app/planning/graph.py:103-125 | a node's counter is zero exactly when all its dependencies are done and none was counted twice |
| `Kahn.Release` | app/planning/graph.py:122-125 | decrements each neighbour once and collects exactly those that reach zero |
| `PlanGraph.DependencyGraph.Build` | app/planning/graph.py:33-53 | the graph is the one the lists describe; its in-degrees are the numbers of distinct dependencies exactly when no task repeats one |
| `PlanGraph.DependencyGraph.HasCycle` | app/planning/graph.py:63-90 | true exactly when the built graph is cyclic |
| `PlanGraph.DependencyGraph.DrainAll` | app/planning/graph.py:103-131 | after a passed cycle check the closing length check fires exactly when some in-degree was over-counted |
| `PlanGraph.DependencyGraph.TraverseLevels` | app/planning/graph.py:92-140 | succeeds exactly on acyclic graphs with exact in-degrees; group k is then the tasks whose longest dependency chain has k edges, sorted by id, and `ordered` concatenates the groups |
| `Planner.CheckNoDuplicateIds` | app/planning/validator.py:31-38 | reports the first id seen before, exactly when ids are not unique |
| `Planner.CheckDependenciesExist` | app/planning/validator.py:40-52 | reports the first unknown dependency in list order, exactly when there is one |
| `Planner.Validate` | app/planning/validator.py:17-29 | passes exactly on valid lists; else the first duplicate, or failing that the first unknown dependency, is the one reported |
| `Planner.BuildPlan` | app/planning/planner.py:28-57 | for every list: succeeds exactly when it is valid, acyclic and repeat-free, with the level plan; else the first offending id, or a cycle on a valid list |
| `Planner.RepeatedDependencyRejected` | app/planning/graph.py:50-53 | a concrete valid, acyclic list that is rejected as cyclic because one task lists a dependency twice |
| `Planner.PlanPermutation` | app/planning/planner.py:42-48 | the ordered tasks are a permutation of the given ones |
| `Planner.PlanRespectsDependencies` | app/planning/planner.py:36-42 | every dependency stands earlier and in a strictly earlier group |
| `Planner.LevelledUnique` | app/planning/graph.py:112-128 | a graph has one level traversal |
| `Planner.PlanIgnoresInputOrder` | app/planning/planner.py:28-57 | a permuted list has a plan exactly when the list has one, and then it is an equal plan |
| `Ordering.StrLtMeaning` | app/planning/task_graph.py:22 | the string order: a string is smaller if it ends or has the smaller character where two strings first differ |
| `TaskGraphs.KeyOrderMeaning` | app/planning/task_graph.py:18-22 | the key puts higher priority first, then the smaller lowered name, then the smaller id |
| `TaskGraphs.KeyOrderTotal` | app/planning/task_graph.py:18-22 | that order is strict and total on ids |
| `TaskGraphs.TaskGraph.AddTask` | app/planning/task_graph.py:24-32 | adds a bare node or refuses a known id and changes nothing; in-degrees keep counting distinct predecessors |
| `TaskGraphs.TaskGraph.AddDependency` | app/planning/task_graph.py:34-47 | which error in which case; a repeated call changes nothing; in-degrees keep counting distinct predecessors |
| `TaskGraphs.TaskGraph.ValidateNoCycles` | app/planning/task_graph.py:49-74 | true exactly when the graph is acyclic |
| `TaskGraphs.TaskGraph.Schedule` | app/planning/task_graph.py:81-100 | on an acyclic graph the loop takes every task, always the least of the ready ones |
| `TaskGraphs.TaskGraph.TopologicalSort` | app/planning/task_graph.py:76-100 | succeeds exactly on acyclic graphs, with the lexicographically least of all topological orders: a task that stands earlier although a later one was free by then has the higher priority, or the same and the smaller name, or both and the smaller id; the closing error is unreachable |
| `TaskGraphs.GreedyIsLeast` | app/planning/task_graph.py:88-95 | taking the least ready task at each step gives the least topological order |
| `TaskGraphs.GreedyTopological` | app/planning/task_graph.py:88-98 | a greedy order that reaches every task is topological |
| `Runner.ExecutionTask.Execute` | app/execution/executor.py:28-73 | the new field values; the task ends COMPLETED exactly when its handler succeeds, else FAILED |
| `Runner.FindBlockingDependency` | app/execution/runner.py:238-248 | the first listed dependency in the plan that is not completed |
| `Runner.ExecutedText` | app/execution/executor.py:53-69 | output and error are the handler's own words, with the defaults for none; a task without a handler completes |
| `Runner.Run` | app/execution/runner.py:178-229 | for every plan and handlers: the report lists the plan's ids in order, its counts are the numbers of positions with each status, it is COMPLETED exactly when all tasks are, and every field is that of the run function |
| `RunOutcomes.PlansAreOrdered` | app/planning/planner.py:42-48 | every plan of the planner meets the hypothesis of the theorems below |
| `RunOutcomes.TaskOutcome` | app/execution/runner.py:185-219 | a task starts exactly when no dependency is incomplete and the run has not halted; how each outcome halts the run |
| `RunOutcomes.ContinueMode` | app/execution/runner.py:185-219 | with stop_on_failure off: skipped exactly when some ancestor failed, handler run exactly when every ancestor completed |
| `RunOutcomes.StopMode` | app/execution/runner.py:64-67 | with stop_on_failure on: COMPLETED*, or COMPLETED* FAILED SKIPPED*, and equal to continue mode up to the first failure |
| `RunOutcomes.StopRefinesContinue` | app/execution/runner.py:183-219 | what stop mode completes, continue mode completes with the same record |
| `SkipChains.SkipReasonRoundTrip` | app/agent/self_improvement.py:634-636 | the skip text the runner writes parses back to the id it was written for, whatever the id |
| `SkipChains.SkipReason` | app/execution/runner.py:186-209 | a skipped task names an earlier incomplete direct dependency, or the halt when there is none, and only in stop mode |
| `SkipChains.ChainEnds` | app/execution/runner.py:186-209 | following skip reasons moves strictly earlier along direct dependencies to a failed task, or in stop mode to a halted one |
| `SkipDepth.RunsAreLinked` | app/execution/runner.py:178-221 | every report of an ordered plan meets the hypothesis of the depth theorem |
| `SkipDepth.SkipDepthSearch.Depth` | app/agent/self_improvement.py:640-655 | terminates on every input; on a run the cycle guard never fires and the result is the length of the skip chain |
| `SkipDepth.ComputeSkipPropagationDepth` | app/agent/self_improvement.py:629-660 | the length in tasks of the longest skip chain, 0 when no task was skipped for a dependency |
| `StructuralMetrics.LevelSearch.Level` | app/agent/self_improvement.py:541-557 | terminates on cyclic input too; on acyclic input the guard never fires and the level is the longest chain ending in the task |
| `StructuralMetrics.ComputeStructuralMetrics` | app/agent/self_improvement.py:522-567 | depth is the greatest level and width the size of the largest, both 0 without tasks |
| `StructuralMetrics.TaskMapDescribes` | app/agent/self_improvement.py:498-538 | the map built from the sorted dependency lists describes the tasks, as the next row requires |
| `StructuralMetrics.MetricsMatchPlan` | app/agent/self_improvement.py:559-567 | for any map that lists the planned tasks' dependencies in any order: depth is the planner's number of groups, width its largest group, and tasks are at most depth times width; all 0 for the empty list |
| `Decisions.UpdateKeepsTable` | app/agent/loop_controller.py:942-977 | an update keeps 0 <= successes <= attempts, the rate their quotient and confidence within [0.10, 2.0] |
| `Decisions.LearnedFrom` | app/agent/loop_controller.py:942-977 | what one outcome changes: the counts by one, the rate, confidence by 0.1 up or 0.2, 0.05 or 0.1 down within its bounds, and no other entry |
| `Decisions.BuildStrategyStats` | app/agent/loop_controller.py:875-929 | the loop over memory records gives the statistics of learning from each in turn |
| `Decisions.FoldIsValid` | app/agent/loop_controller.py:875-929 | statistics rebuilt from any memory are valid, and from controller-written memory credit advancing only |
| `Decisions.MergeStats` | app/agent/loop_controller.py:931-940 | known entries win, only missing ones are added, invariants are kept |
| `Decisions.SelectBestIsBest` | app/agent/loop_controller.py:785-814 | the choice is the one candidate that beats all others by score, then rank |
| `Decisions.CandidatesAre` | app/agent/loop_controller.py:794-800 | retrying is open exactly to retryable failures that are no invalid plan, adjusting and aborting always |
| `Decisions.ChosenScoresHighest` | app/agent/loop_controller.py:809-814 | no other candidate scores higher; among equals adjusting comes before retrying and that before aborting |
| `Decisions.UntriedScores` | app/agent/loop_controller.py:825-832 | what untried decisions score |
| `Decisions.ExperienceScores` | app/agent/loop_controller.py:834-842 | what recorded attempts, successes and confidence add to and take from a score |
| `Decisions.RetryNearThreshold` | app/agent/loop_controller.py:837-840 | from the failure threshold on a retry loses its success rate times a quarter of confidence, less where 0.10 is the floor |
| `Decisions.ReorderIrrelevant` | app/agent/loop_controller.py:802-814 | recent failures do not influence the choice |
| `Decisions.ScoreWithoutCredit` | app/agent/loop_controller.py:816-842 | without credited success a score is the prior less at most 0.20 |
| `Decisions.ChoiceWithoutCredit` | app/agent/loop_controller.py:785-842 | on controller-written statistics `abort` is never chosen, and retrying exactly when it has at most two counted attempts more than adjusting |
| `Decisions.AbortNeedsForeignCredit` | app/agent/loop_controller.py:785-842 | the hypothesis is needed: one foreign success credited to `abort` makes it win |
| `LoopControllers.NormalizePlan` | app/agent/loop_controller.py:610-649 | whatever the planner returns, the current index lies within the steps, given that the fallback's does |
| `LoopDecisions.PlanTaken` | app/agent/loop_controller.py:610-673 | the steps and the clamped index taken from each shape of planner answer, field by field, and what of the old plan a shapeless answer keeps |
| `LoopDecisions.DigitsDenote` | app/agent/loop_controller.py:654 | the number in a default step name is the decimal numeral of its position |
| `LoopControllers.LoopController.EnsureStepPlan` | app/agent/loop_controller.py:595-608 | asks for a plan exactly when there is none or the last decision was to adjust it |
| `LoopControllers.LoopController.ReplaceCurrentStep` | app/agent/loop_controller.py:1122-1129 | repair changes the step at the current index only |
| `LoopControllers.LoopController.ApplyStepAdjustment` | app/agent/loop_controller.py:712-724 | marks the step at the current index, once, and changes nothing else |
| `LoopControllers.LoopController.ExecuteCurrent` | app/agent/loop_controller.py:376-453 | the whole new state and the saved record after executing, deciding, repairing, learning and storing |
| `LoopControllers.LoopController.Turn` | app/agent/loop_controller.py:334-580 | one loop body extends a run by its next record, or returns exactly what the run returns there |
| `LoopControllers.PlansStayOk` | app/agent/loop_controller.py:346-428 | at every loop head of every run 0 <= current_step <= len(steps) |
| `LoopControllers.LoopController.Run` | app/agent/loop_controller.py:312-593 | for every oracle: terminates; the executor is called exactly once for each saved record; every record is the one determined by the planner's, executor's and memory's answers and the records before it, the result is the verdict on them, and the statistics are what they teach |
| `LoopRuns.RunsAreDetermined` | app/agent/loop_controller.py:312-593 | oracles, settings and starting statistics admit one run only |
| `LoopRuns.OneRecordPerCall` | app/agent/loop_controller.py:376-409 | record i reports executor call i + 1: its success flag, its error type or the default one; only successes advance, and exactly policy and security violations escalate |
| `LoopDecisions.RepairedExactly` | app/agent/loop_controller.py:766-783 | a step is repaired exactly on a failure that is no violation once it has failed as often as the step threshold says |
| `LoopDecisions.RetriedOrAdjusted` | app/agent/loop_controller.py:754-842 | below that threshold, with success credited to advancing only, the executor's answer and the numbers of earlier retries and adjustments alone decide which of the two follows |
| `LoopDecisions.FirstFailureIsRetried` | app/agent/loop_controller.py:754-842 | an instance: a first failure that names neither error type nor retryability is retried |
| `LoopDecisions.AttemptsCounted` | app/agent/loop_controller.py:942-977 | the statistics count exactly the decisions taken in the run and their successes |
| `LoopDecisions.AdjustmentMarks` | app/agent/loop_controller.py:712-724 | what the mark looks like, that a marked step is left alone and that nothing else of it changes |
| `LoopDecisions.HintsGiven` | app/agent/loop_controller.py:996-1008 | the hint kept for the planner after each decision |
| `LoopDecisions.FailureReasonKept` | app/agent/loop_controller.py:754-764 | the reason kept for a failure is the answer's error, else its status, else its error type |
| `LoopDecisions.RepairTaken` | app/agent/loop_controller.py:1062-1083 | the step made from each shape of repair candidate, field by field |
| `LoopDecisions.RepairReplaces` | app/agent/loop_controller.py:1023-1060 | after a repair the executed position holds the planner's candidate, or the step the fallback plan is at |
| `LoopRuns.StatisticsStayValid` | app/agent/loop_controller.py:942-977 | in every reachable state 0 <= successes <= attempts, the rate their quotient and confidence within [0.10, 2.0] |
| `LoopRuns.ControllerNeverAborts` | app/agent/loop_controller.py:766-842 | when memory is empty or controller-written, success stays credited to advancing, `abort` is never decided and never the reason returned |
| `LoopRuns.RunAccounts` | app/agent/loop_controller.py:334-593 | iterations = saved records = advances + failures, at most max_iterations; thresholds reached or not as the result says |
| `LoopRuns.Stepwise` | app/agent/loop_controller.py:376-428 | every record executed the current step of its plan; repair and adjustment changed that step at most, never length or index |
| `LoopRuns.RunsAreTraced` | app/agent/loop_controller.py:595-608 | since the planner's last answer was installed, every record executed its index in order, later steps are still the planner's, and a step first executed is the planner's own |
| `LoopRuns.SuccessMeansExecuted` | app/agent/loop_controller.py:482-497 | a success means the executor succeeded, in index order, on every index of the planner's last answer from its start index to its end, since it was installed; the reported count is its length |
| `LoopRuns.SavedRecordsAreControllerWritten` | app/agent/loop_controller.py:436-453 | what the controller saves meets the hypothesis under which it never aborts |
| `Orchestration.AllowedExactly` | app/core/state.py:23-32 | allowed are the next state of the lifecycle and, from every state that is not terminal, FAILED |
| `Orchestration.LegalHistoriesAreBounded` | app/core/state.py:23-32 | a legal history visits no state twice, never returns to the initial one, never leaves a terminal one and has at most six transitions |
| `Orchestration.SystemStateMachine.TransitionTo` | app/core/state.py:98-123 | appends exactly the requested transition when it is allowed, else changes nothing |
| `Orchestration.CategoryOfEachError` | app/core/recovery.py:79-87 | how each of the four classes of exception is recorded |
| `Orchestration.Execute` | app/core/recovery.py:96-151 | stops at the first success or at the first failure that is not transient or exceeds the limit, with one record per failure |
| `Orchestration.ValidationExactly` | app/core/orchestrator.py:403-435 | a report passes exactly when its counts match its tasks and each other and its status agrees with them; the summary repeats them |
| `Orchestration.ValidationError` | app/core/orchestrator.py:403-426 | which mismatch is reported, the first one found, as an error that is never retried |
| `Orchestration.RunnerReportsValidate` | app/core/orchestrator.py:403-435 | every report the runner builds passes validation, and is COMPLETED exactly when every task is |
| `Orchestrator.LoggedBy` | app/core/recovery.py:107-151 | the recovery loop's value, failed attempts and error are those of the bounded sequence of tries, whatever the operation does |
| `Orchestrator.OrchestrationController.RunPhase` | app/core/orchestrator.py:296-382 | both transitions are legal; the trace and the attempts appended are those of the operation's tries, and the machine is in the phase's state or FAILED |
| `Orchestrator.OrchestrationController.Run` | app/core/orchestrator.py:121-294 | no illegal transition, a prefix of the five phases with only the last possibly failed, at most 2 recovery attempts; every trace, attempt, result section and the final state is the one the engines determine |
| `Orchestrator.EndsTerminal` | app/core/orchestrator.py:145-183 | the run ends terminal unless planning or execution successfully answered None, and then it does not |
| `Orchestrator.NoneAnswerEndsPlanning` | app/core/orchestrator.py:145-154 | an instance: a plan that is None leaves the run in the planning state |
| `Orchestrator.CompletedExactly` | app/core/orchestrator.py:255-276 | COMPLETED exactly when all five phases completed and the report is not FAILED |
| `Orchestrator.ErrorReported` | app/core/orchestrator.py:504-512 | the reported error is the last phase's, or the generic one, and is empty exactly when improving completed |
| `Orchestrator.PlanningFailureReported` | app/core/orchestrator.py:135-154 | when planning raises, planning is the one phase traced and its message the error reported |
| `Orchestrator.PlanningIsNeverRetried` | app/core/orchestrator.py:135-154 | a failure of planning, transient or not, is tried once |
| `Orchestrator.TransientFailureIsRetriedOnce` | app/core/orchestrator.py:156-183 | a transient failure of the execution engine is retried and the second call decides: its report is the run's, or executing failed with two attempts |
| `Orchestrator.OtherFailureIsNotRetried` | app/core/orchestrator.py:156-183 | any other failure of the execution engine fails executing after one attempt, recorded with its category |
| `Orchestrator.FirstAnswerIsUsed` | app/core/orchestrator.py:156-183 | an engine that answers at once leaves no attempt and its report is the run's |
| `Orchestrator.TransitionsFollowTraces` | app/core/orchestrator.py:307-311 | the recorded transitions enter exactly the traced phases, in order |
| `Orchestrator.TracesNamePhases` | app/core/orchestrator.py:135-247 | the traces are those of planning, executing, validating, reflecting and improving in order, completed but for the last |
| `Orchestrator.RunnerBackedRun` | app/core/orchestrator.py:395-401 | with the default execution engine a planned run completes exactly when every task, reflecting and improving do |
| `ImprovementEngines.ComputeMetrics` | app/improvement/engine.py:278-312 | the counting loop gives the rates and mean latency of the history |
| `ImprovementEngines.SuccessMeaning` | app/improvement/engine.py:541-545 | the success flag decides, and without one the status |
| `ImprovementEngines.LatencyMeaning` | app/improvement/engine.py:547-564 | which field a latency is taken from, and that seconds are scaled |
| `ImprovementEngines.RatesMeaning` | app/improvement/engine.py:292-312 | the rates are nearest ten-thousandths of the numbers of successful, failed and retried positions |
| `ImprovementEngines.LatencyIsMean` | app/improvement/engine.py:306 | the mean latency lies between any bounds the known latencies have, and is 0 when none is known |
| `ImprovementEngines.RatesPartition` | app/improvement/engine.py:307-312 | however halfway cases are rounded, success and failure rate add up to 1 within one ten-thousandth, and exactly unless the success share is halfway between two |
| `ImprovementEngines.MetricsHaveRates` | app/improvement/engine.py:278-312 | the computed rates are nearest ten-thousandths of the exact shares, as the rows about rates require |
| `ImprovementEngines.RatesCanExceedOne` | app/improvement/engine.py:307-312 | one success in 160 is halfway and the rates may add up to 1.0001 |
| `ImprovementEngines.ScoreBounds` | app/improvement/engine.py:314-335 | the impact score lies in [-1, 1] |
| `ImprovementEngines.ScoreIsNearest` | app/improvement/engine.py:314-335 | the score is a nearest rounding of the clamped weighted change, as the row about the success gain requires |
| `ImprovementEngines.LatencyAlone` | app/improvement/engine.py:324-335 | with equal rates the score is a tenth of the relative latency gain, to the nearest ten-thousandth |
| `ImprovementEngines.LatencyUnmeasured` | app/improvement/engine.py:324-325 | without a measured latency before, later ones do not matter |
| `ImprovementEngines.SuccessAlone` | app/improvement/engine.py:322-335 | a change of the success rate alone counts six tenths of itself |
| `ImprovementEngines.FailureAlone` | app/improvement/engine.py:323-335 | a drop of the failure rate alone counts three tenths of itself |
| `ImprovementEngines.ChangesAddUp` | app/improvement/engine.py:327-335 | the three contributions add up and are cut off at -1 and 1 |
| `ImprovementEngines.ScoreIsMonotone` | app/improvement/engine.py:314-335 | more successes, fewer failures and less latency never lower the score |
| `ImprovementEngines.ScoreOfSuccessGain` | app/improvement/engine.py:314-335 | without latencies any nearest rounding of the score is nine tenths of the success gain within 0.00011, and without halfway shares a nearest rounding of it |
| `ImprovementEngines.ImprovementEngine.IsOnCooldown` | app/improvement/engine.py:381-416 | the backward scan finds the last accepted record and counts the records after it |
| `ImprovementEngines.ImprovementEngine.ShouldAcceptImprovement` | app/improvement/engine.py:432-471 | at least 0.05 and above the last accepted score |
| `ImprovementEngines.ImprovementEngine.NextImprovementVersion` | app/improvement/engine.py:365-379 | the loop gives the next version of the log |
| `ImprovementEngines.NextVersionIsNew` | app/improvement/engine.py:365-379 | in any log the next version exceeds every recorded one and is one above some recorded one, or 1 |
| `ImprovementEngines.ImprovementEngine.Run` | app/improvement/engine.py:72-188 | exactly what a cycle appends to the log, in order |
| `ImprovementEngines.CycleIsSafe` | app/improvement/engine.py:72-188 | one cycle keeps a log safe: consecutive versions; accepted scores in bounds, each above the one before, with at least four events between them |
| `ImprovementEngines.AcceptedExactly` | app/improvement/engine.py:99-124 | a run is accepted exactly when something was approved, no acceptance is among the last three events, and the score is at least 0.05 and above every accepted one |
| `ImprovementEngines.EveryRunIsSafe` | app/improvement/engine.py:72-188 | over any cycles, metrics, proposals and foreign events the log stays safe and at most 9501 records are ever accepted |
| `ImprovementEngines.UnchangedHistoryIsNeverAccepted` | app/improvement/engine.py:119-124 | equal metrics before and after score 0, are not accepted and roll nothing back |
| `ImprovementEngines.CooldownLastsAtMostTwoCycles` | app/improvement/engine.py:381-416 | whatever others write, of three consecutive cycles at least one is not on cooldown |
| `ImprovementEngines.CooldownWithoutOtherWriters` | app/improvement/engine.py:381-416 | with no other writers the cycle after an acceptance is on cooldown, and the second exactly when the first rejected nothing |
| `ConflictResolvers.ConflictResolver.Resolve` | app/planning/conflict_resolver.py:20-94 | the loops give the resolution or the KeyError for a missing policy |
| `ConflictResolvers.WinnerWins` | app/planning/conflict_resolver.py:58-69 | the first-ranked valid candidate of a target is eligible and beaten by no eligible one |
| `ConflictResolvers.OneWinnerPerTarget` | app/planning/conflict_resolver.py:29-90 | for unique ids: exactly one adaptation per target with an eligible candidate, its best by (-priority, -confidence, created_at, id), in that order |
| `ConflictResolvers.ReturnedPrecedes` | app/planning/conflict_resolver.py:38-67 | for unique ids: what is returned has a configured policy and reaches its threshold, and comes before every other such candidate for its target by priority, confidence, creation and id |
| `ConflictResolvers.ReturnedInOrder` | app/planning/conflict_resolver.py:82-90 | the result lists them in that order and misses no target |
| `ConflictResolvers.DefaultRanking` | app/planning/policy.py:18-25 | the default policies, their priorities and thresholds |
| `ConflictResolvers.ResolutionIgnoresOrder` | app/planning/conflict_resolver.py:82-90 | independent of the order of the candidates |
| `ConflictResolvers.ResolutionIdempotent` | app/planning/conflict_resolver.py:20-94 | resolving the result again changes nothing |
| `ConflictResolvers.FailsExactly` | app/planning/conflict_resolver.py:76-90 | for any list: the KeyError is raised exactly when a candidate without a policy shares a winner's id |
| `ConflictResolvers.WinnersOnlyExactly` | app/planning/conflict_resolver.py:76-90 | for any list: only winners are returned exactly when no losing candidate shares a winner's id |
| `ConflictResolvers.SharedIdsLetLosersThrough` | app/planning/conflict_resolver.py:76-80 | with shared ids an ineligible adaptation can be returned |
| `ConflictResolvers.SharedIdsRaiseKeyError` | app/planning/conflict_resolver.py:82-90 | with shared ids an unknown policy can raise the KeyError |
| `AdaptationPolicies.Validate` | app/self_improvement/policy.py:48-85 | for every list: approved and rejected together are the input as a multiset, approved is one best per (action_type, target) with an eligible candidate, both sorted |
| `AdaptationPolicies.ApprovedAreBest` | app/self_improvement/policy.py:60-75 | when action type, target and id tell candidates apart, approved are exactly those with highest confidence, ties to the smallest id |
| `AdaptationPolicies.ApprovedMeaning` | app/self_improvement/policy.py:61-75 | for every list: approved candidates reach the threshold for targets not forbidden, have the highest confidence in their place, then the smallest id, and every permitted candidate's place is taken |
| `AdaptationPolicies.ListedInOrder` | app/self_improvement/policy.py:77-84 | both lists ascend by action type, target and id |
| `AdaptationPolicies.RejectedForAReason` | app/self_improvement/policy.py:61-75 | a rejected eligible candidate does not outdo the approved one of its key |
| `AdaptationPolicies.SplitIgnoresOrder` | app/self_improvement/policy.py:56-57 | under the same condition the outcome does not depend on the input order, repetitions included |
| `AdaptationPolicies.SplitIdempotent` | app/self_improvement/policy.py:77-84 | validating the approved list approves all of it, in the same order, and rejects nothing |
| `ImprovementPolicies.Approve` | app/self_improvement/policy.py:20-38 | for every list: one best action of each target that has one reaching the threshold, by (-confidence, type, target, str(value)), listed by (type, target, str(value), -confidence) |
| `ImprovementPolicies.ApprovedMeaning` | app/self_improvement/policy.py:21-32 | an approved action has the highest confidence proposed for its target, and among those the first type and text |
| `ImprovementPolicies.ListedInOrder` | app/self_improvement/policy.py:34-38 | the approved list ascends by type, then target |
| `ImprovementPolicies.FirstMetStep` | app/self_improvement/policy.py:25-32 | the first action met for a target is its best, so the replacing branch is never taken |
| `ImprovementPolicies.ApprovalIgnoresOrder` | app/self_improvement/policy.py:21-38 | the approved list depends on the set of actions only, as long as different actions differ in what the keys see |
| `ImprovementPolicies.ApprovalIdempotent` | app/self_improvement/policy.py:20-38 | approving the approved list changes nothing, for any list |
| `FrozenValues.FreezeFreezes` | app/deployment/deployment_context.py:12-22 | freezing reaches every depth, with keys sorted |
| `FrozenValues.FrozenKeysAscend` | app/deployment/deployment_context.py:39-45 | keys of a frozen dictionary ascend and its values are neither lists nor dictionaries |
| `FrozenValues.FreezeFixesFrozen` | app/deployment/deployment_context.py:14-15 | freezing is idempotent |
| `FrozenValues.FreezeAfterThaw` | app/deployment/deployment_context.py:25-31 | thawing a frozen value gives a plain one that freezes back to it |
| `FrozenValues.ThawAfterFreeze` | app/deployment/deployment_context.py:25-31 | freezing a plain value and thawing gives it back |
| `FrozenValues.FreezeDecidesSame` | app/deployment/deployment_context.py:39-45 | two values freeze to the same exactly when they differ only in key order and sequence or mapping kind, at every depth |
| `DeploymentContexts.ConstructedIsValid` | app/deployment/deployment_context.py:95-121 | a constructed context is frozen throughout and has its required fields |
| `DeploymentContexts.ContextRequires` | app/deployment/deployment_context.py:107-121 | from three frozen sections a context is made exactly when the four required fields are text that is not blank; else the first missing one is named |
| `DeploymentContexts.SectionsMustBeMappings` | app/deployment/deployment_context.py:95-105 | the first section that is no mapping is refused |
| `DeploymentContexts.RestIs` | app/deployment/deployment_context.py:71-75 | exactly the execution id and the stored fingerprint are left out of the fingerprinted metadata |
| `DeploymentContexts.DictRoundTrip` | app/deployment/deployment_context.py:156-174 | from_dict(to_dict(c)) == c for every context |
| `DeploymentContexts.PayloadMustBeMapping` | app/deployment/deployment_context.py:167-174 | what is read back must be a mapping; missing sections count as empty |
| `DeploymentContexts.PayloadDecides` | app/deployment/deployment_context.py:66-80 | the fingerprinted payload determines everything but the execution id and the stored fingerprint, and nothing more |
| `DeploymentContexts.PayloadSections` | app/deployment/deployment_context.py:66-80 | the payload has the serialised context's sections under the same names, the metadata less the two ignored entries |
| `DeploymentContexts.EnvironmentExactly` | app/deployment/context_injector.py:22-39 | when an environment is accepted and exactly what is kept of it |
| `DeploymentContexts.EnvironmentErrors` | app/deployment/context_injector.py:30-37 | the first thing missing in the environment is named |
| `DeploymentContexts.BuildErrors` | app/deployment/context_injector.py:12-19 | inputs are checked in order and the first fault is reported |
| `DeploymentContexts.ConfigSections` | app/deployment/context_injector.py:42-58 | what the variables and the metadata are, and which section is refused |
| `DeploymentContexts.ExecutionIdIs` | app/deployment/context_injector.py:75-77 | a supplied execution id is kept as text; without a truthy one the fingerprint is used |
| `DeploymentContexts.BuildSucceedsExactly` | app/deployment/context_injector.py:61-82 | for any inputs: a build succeeds exactly when environment and configuration normalise and a supplied execution id is not blank text |
| `DeploymentContexts.BuiltContext` | app/deployment/context_injector.py:61-82 | then the stored fingerprint equals the recomputed one, the execution id is the supplied one or the fingerprint, all else is the input frozen |
| `DeploymentContexts.FingerprintIgnoresExecutionId` | app/deployment/context_injector.py:61-82 | two builds fingerprint the same payload exactly when environment, variables and remaining metadata agree up to key order and sequence kind |

## Left out

- Logging, clocks, durations and timestamps; `created_at` is an integer, other times do not appear.
- Floating-point error: scores and confidences are exact rationals and `round` is half-even on them. The statements about rates hold however halfway cases are rounded, and those about whole logs for arbitrary metrics.
- ImprovementPolicies.Approve: does not say which of several actions equal in type, target, text of the value and confidence is kept (the first listed), so order independence asks that there are none.
- The heap's array representation: `heapq` is extract-min on a set; entries are distinct and their order total.
- The dictionaries and lists held by the graph classes and controllers are `map` and `seq` fields, so aliasing between them and callers' objects is not captured.
- Python objects handed to the task graph: dependencies a task lists before it is added create no edges, in the model as in the code, and `str(task.id)` is the id.
- `str.lower` in the sort key is an arbitrary function; Unicode details of strings are those of code points.
- Task metadata, environment contexts, infrastructure deployment, the sandbox and Pydantic checks around planning and running: thin checks or library behaviour.
- Handlers: what each does is given by a map from task id to result, absent meaning the no-op handler; output conversion to text is done by the caller of the model.
- `branching_factor`, `dependency_chains` and the other ratios of the structural report: closed formulas over the same map.
- The duck-typing fallbacks for malformed plans, records and memory, the self-improvement hook and payload sanitising of the loop controller: only the listed plan, repair and record shapes are modelled.
- Which proposals the analyser, detector, optimiser and validator of the improvement engine make: an arbitrary function of the history. Failed reads and writes of its memory are not modelled.
- Reflecting and improving engines of the orchestrator are arbitrary operations that either raise or return a value; memory record ids and trace metadata other than the error and the attempt count are not modelled.
- One controller object stands for one orchestration run: the state machine, traces and attempts that `run` keeps in local variables are its fields.
- The reasoning, dropped and conflict counters of the conflict resolver: only logged.
- Infinities, NaN and the sign of zero in floats, mapping keys that are not strings, unhashable leaves and dataclass inputs of the deployment context; SHA-256 over JSON text and `str` of a value that is not a string are arbitrary functions, the digest never blank.
- `to_json` and `from_json`: the JSON library's own round trip.
- `app/orchestration/orchestrator.py`, file-backed memory, audit log, providers, registries, decomposer templates and lookup tables.
