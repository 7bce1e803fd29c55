/** The plan/execute/decide loop with retry, adjust, repair and escalate. */
module LoopControllers {
  import opened Ordering
  import opened Decisions

  // ---------- steps and plans ----------

  datatype Step = Step(id: string, action: string, dependencies: seq<string>, metadata: map<string, string>)

  /** A step as a planner may hand it over: a text, or a dictionary with optional fields. */
  datatype RawStep =
    | TextStep(text: string)
    | FieldStep(id: Option<string>, action: string, description: string,
                dependencies: seq<string>, metadata: map<string, string>)

  /** What `create_plan` may return. */
  datatype RawPlan =
    | StepsPlan(steps: seq<RawStep>, current: int)
    | OrderedTasks(tasks: seq<RawStep>)
    | SingleStep(step: RawStep)
    | OtherPlan(text: string)

  /** What `repair_step` may return; a dictionary holding a step list is also a step dictionary itself. */
  datatype RepairCandidate =
    | RepairPlan(steps: seq<RawStep>, fields: RawStep)
    | RepairFields(fields: RawStep)
    | RepairText(text: string)
    | NoRepair

  datatype StepPlan = StepPlan(steps: seq<Step>, currentStep: int)

  function Digits(n: nat): string {
    var last := ["0", "1", "2", "3", "4", "5", "6", "7", "8", "9"][n % 10];
    if n < 10 then last else Digits(n / 10) + last
  }

  function DefaultName(index: nat): string {
    "step_" + Digits(index + 1)
  }

  function Or(a: string, b: string): string {
    if a == "" then b else a
  }

  /** `_normalize_step` */
  function NormalizeStep(raw: RawStep, index: nat): Step {
    match raw
    case TextStep(text) => Step(DefaultName(index), text, [], map[])
    case FieldStep(id, action, description, dependencies, metadata) =>
      Step(if id.Some? then id.value else DefaultName(index),
        Or(Or(action, description), DefaultName(index)), dependencies, metadata)
  }

  function AsRaw(step: Step): RawStep {
    FieldStep(Some(step.id), step.action, "", step.dependencies, step.metadata)
  }

  function NormalizeSteps(raws: seq<RawStep>): (r: seq<Step>)
    ensures |r| == |raws|
    ensures forall i :: 0 <= i < |r| ==> r[i] == NormalizeStep(raws[i], i)
  {
    seq(|raws|, i requires 0 <= i < |raws| => NormalizeStep(raws[i], i))
  }

  function Renormalize(steps: seq<Step>): (r: seq<Step>)
    ensures |r| == |steps|
    ensures forall i :: 0 <= i < |r| ==> r[i] == NormalizeStep(AsRaw(steps[i]), i)
  {
    seq(|steps|, i requires 0 <= i < |steps| => NormalizeStep(AsRaw(steps[i]), i))
  }

  ghost predicate PlanOk(plan: StepPlan) {
    0 <= plan.currentStep <= |plan.steps|
  }

  function Clamp(current: int, length: nat): int {
    if current < 0 then 0 else if current > length then length else current
  }

  /** `_normalize_step_plan`: whatever the planner returns, the index lies within the steps. */
  function NormalizePlan(raw: RawPlan, fallback: Option<StepPlan>): (plan: StepPlan)
    ensures (fallback.Some? ==> PlanOk(fallback.value)) ==> PlanOk(plan)
  {
    match raw
    case StepsPlan(steps, current) => StepPlan(NormalizeSteps(steps), Clamp(current, |steps|))
    case OrderedTasks(tasks) => StepPlan(NormalizeSteps(tasks), 0)
    case SingleStep(step) => StepPlan([NormalizeStep(step, 0)], 0)
    case OtherPlan(text) =>
      if fallback.Some? then StepPlan(Renormalize(fallback.value.steps), fallback.value.currentStep)
      else StepPlan([NormalizeStep(FieldStep(Some("step_1"), text, "", [], map[]), 0)], 0)
  }

  function CurrentStep(plan: StepPlan): Option<Step> {
    if 0 <= plan.currentStep < |plan.steps| then Some(plan.steps[plan.currentStep]) else None
  }

  /** `_normalize_repair_candidate` */
  function NormalizeRepair(candidate: RepairCandidate, index: nat, base: Step): Step {
    match candidate
    case RepairPlan(steps, fields) =>
      if index < |steps| then NormalizeStep(steps[index], index) else NormalizeStep(fields, index)
    case RepairFields(fields) => NormalizeStep(fields, index)
    case RepairText(text) => NormalizeStep(FieldStep(None, text, "", [], map[]), index)
    case NoRepair => NormalizeStep(AsRaw(base), index)
  }

  predicate Contains(s: string, part: string) {
    exists i :: 0 <= i <= |s| && part <= s[i..]
  }

  /** `_apply_step_adjustment` on the current step. */
  function Adjusted(step: Step, hint: string): Step {
    if Contains(step.action, "[adjusted]") then step
    else step.(action := step.action + " [adjusted]", metadata := step.metadata["strategy_hint" := hint])
  }

  // ---------- results ----------

  /** An executor result; absent fields are None or the empty string. */
  datatype ExecResult = ExecResult(
    success: Option<bool>, errorType: Option<string>, retryable: Option<bool>, error: string, status: string)

  datatype Classification = Classification(success: bool, errorType: string, retryable: bool, reason: string)

  /** `_classify_result` */
  function Classify(r: ExecResult): Classification {
    var success := r.success.Some? && r.success.value;
    var errorType := if r.errorType.Some? then r.errorType.value else if success then "none" else "runtime_error";
    var retryable := if r.retryable.Some? then r.retryable.value else !success && errorType == "runtime_error";
    Classification(success, errorType, retryable, Or(Or(r.error, r.status), if success then "success" else errorType))
  }

  /** `_build_strategy_hint` */
  function StrategyHint(decision: Decision, pattern: string): string {
    match decision
    case AdjustPlan => "avoid_previous_plan_pattern:" + pattern
    case RepairStep => "repair_current_step:" + pattern
    case AdvanceStep => "advance_to_next_step"
    case RetrySame => "retry_with_same_plan:" + pattern
    case Escalate => "escalate_issue:" + pattern
    case Abort => "finalize_goal"
  }

  // ---------- oracles and the loop record ----------

  /**
   The planner, executor and memory as arbitrary answers: the answer to the call made in iteration `i`,
   memory being also read before the first iteration. `repair` is None when the planner has no `repair_step`;
   then `fallbackPlan` answers the extra `create_plan` call.
   */
  datatype World = World(
    createPlan: nat -> RawPlan,
    execute: nat -> ExecResult,
    repair: Option<nat -> RepairCandidate>,
    fallbackPlan: nat -> RawPlan,
    retrieve: nat -> MemoryContext)

  /** A saved record: the plan after the iteration, the executed step and what was decided. */
  datatype LoopRecord = LoopRecord(plan: StepPlan, step: Step, success: bool, decision: Decision, pattern: string)

  datatype FailureReason = Escalated | Aborted | FailureThreshold

  datatype LoopResult =
    | Success(iterations: nat, stepsCompleted: nat)
    | Failure(iterations: nat, reason: FailureReason)
    | Stopped(iterations: nat)

  datatype Settings = Settings(maxIterations: int, failureThreshold: int, stepFailureThreshold: int)

  // ---------- decisions and repairs ----------

  /** `_decide_next_step` after a failure, with `stepFailures` failures of the current step so far. */
  function Decide(table: Table, c: Classification, failures: seq<MemoryRecord>, stepFailures: nat, attemptCount: int,
      failureThreshold: int, stepFailureThreshold: int): (d: Decision)
    ensures d != AdvanceStep
    ensures d == Escalate <==> c.errorType == "policy_violation" || c.errorType == "security_violation"
    ensures d == RepairStep <==>
      c.errorType != "policy_violation" && c.errorType != "security_violation" && stepFailures >= stepFailureThreshold
    ensures TableOk(table) && CreditOnlyAdvance(table) ==> d != Abort
  {
    if c.errorType == "policy_violation" || c.errorType == "security_violation" then Escalate
    else if stepFailures >= stepFailureThreshold then RepairStep
    else
      SelectBestIsBest(table, c.errorType, c.retryable, failures, attemptCount, failureThreshold);
      assert TableOk(table) && CreditOnlyAdvance(table) ==>
        SelectBest(table, c.errorType, c.retryable, failures, attemptCount, failureThreshold) != Abort by {
        if TableOk(table) && CreditOnlyAdvance(table) {
          ChoiceWithoutCredit(table, c.errorType, c.retryable, failures, attemptCount, failureThreshold);
        }
      }
      SelectBest(table, c.errorType, c.retryable, failures, attemptCount, failureThreshold)
  }

  /** `_increment_step_failure` */
  function CountFailure(failures: map<string, nat>, id: string): map<string, nat> {
    failures[id := (if id in failures then failures[id] else 0) + 1]
  }

  /** `_repair_step`: the planner's candidate, or the current step of a fallback plan. */
  function RepairedStep(plan: StepPlan, step: Step, world: World, i: nat): Step
    requires PlanOk(plan)
  {
    var base := NormalizeStep(AsRaw(step), plan.currentStep);
    if world.repair.Some? then NormalizeRepair(world.repair.value(i), plan.currentStep, base)
    else
      var fallback := CurrentStep(NormalizePlan(world.fallbackPlan(i), Some(plan)));
      if fallback.Some? then fallback.value else NormalizeStep(AsRaw(base), plan.currentStep)
  }

  // ---------- the run as a function of the oracles ----------

  /** `_apply_step_adjustment`: marks the current step. */
  function Marked(plan: StepPlan, hint: string): StepPlan {
    var step := CurrentStep(plan);
    if step.None? then plan else plan.(steps := plan.steps[plan.currentStep := Adjusted(step.value, hint)])
  }

  /** The active plan at the end of the iteration that wrote `r`. */
  function AfterRecord(r: LoopRecord): StepPlan {
    if r.decision == AdjustPlan then Marked(r.plan, StrategyHint(r.decision, r.pattern)) else r.plan
  }

  /** A plan is asked for in the first iteration and after every decision to adjust it. */
  predicate Installs(log: seq<LoopRecord>) {
    log == [] || log[|log| - 1].decision == AdjustPlan
  }

  /** The plan of the iteration after `log`: what the planner answers, or the plan so far. */
  function PlanBefore(log: seq<LoopRecord>, world: World): StepPlan {
    if log == [] then NormalizePlan(world.createPlan(1), None)
    else
      var active := AfterRecord(log[|log| - 1]);
      if Installs(log) then NormalizePlan(world.createPlan(|log| + 1), Some(active)) else active
  }

  /** How often the step `id` failed. */
  function StepFailures(log: seq<LoopRecord>, id: string): nat {
    if log == [] then 0
    else
      var last := log[|log| - 1];
      StepFailures(log[..|log| - 1], id) + (if !last.success && last.step.id == id then 1 else 0)
  }

  function Failures(log: seq<LoopRecord>): nat {
    if log == [] then 0 else Failures(log[..|log| - 1]) + (if log[|log| - 1].success then 0 else 1)
  }

  /** The statistics `table` after learning from every record. */
  function TableAfter(table: Table, log: seq<LoopRecord>): Table {
    if log == [] then table
    else
      var last := log[|log| - 1];
      UpdateStats(TableAfter(table, log[..|log| - 1]), last.pattern, last.decision, last.success)
  }

  /** The decision on the executor's answer `c` for `step` in the iteration after `log`. */
  function DecisionOn(log: seq<LoopRecord>, step: Step, c: Classification, world: World, table: Table, s: Settings): Decision {
    if c.success then AdvanceStep
    else Decide(TableAfter(table, log), c, world.retrieve(|log|).recentFailures, StepFailures(log, step.id) + 1, |log| + 1,
      s.failureThreshold, s.stepFailureThreshold)
  }

  /** `plan` once its current step succeeded or failed with `decision` in iteration `i`. */
  function PlanAfter(plan: StepPlan, step: Step, success: bool, decision: Decision, world: World, i: nat): StepPlan
    requires 0 <= plan.currentStep < |plan.steps|
  {
    var index := plan.currentStep;
    if success then StepPlan(plan.steps, index + 1)
    else if decision == RepairStep then
      StepPlan(plan.steps[index := NormalizeStep(AsRaw(RepairedStep(plan, step, world, i)), index)], index)
    else plan
  }

  /** The record of the iteration after `log`, in which a step was left. */
  function NextRecord(log: seq<LoopRecord>, world: World, table: Table, s: Settings): LoopRecord
    requires var plan := PlanBefore(log, world); 0 <= plan.currentStep < |plan.steps|
  {
    var plan := PlanBefore(log, world);
    var step := plan.steps[plan.currentStep];
    var c := Classify(world.execute(|log| + 1));
    var decision := DecisionOn(log, step, c, world, table, s);
    LoopRecord(PlanAfter(plan, step, c.success, decision, world, |log| + 1), step, c.success, decision, c.errorType)
  }

  /** How the iteration that wrote the last record ends the run, if it does. */
  function Ended(log: seq<LoopRecord>, s: Settings): Option<LoopResult> {
    if log == [] then None
    else
      var last := log[|log| - 1];
      if last.success then
        if last.plan.currentStep >= |last.plan.steps| then Some(Success(|log|, |last.plan.steps|)) else None
      else if last.decision == Escalate then Some(Failure(|log|, Escalated))
      else if last.decision == Abort then Some(Failure(|log|, Aborted))
      else if Failures(log) >= s.failureThreshold then Some(Failure(|log|, FailureThreshold))
      else None
  }

  /** How a run that wrote `log` returns, None when it goes on to execute another step. */
  function Verdict(log: seq<LoopRecord>, world: World, s: Settings): Option<LoopResult> {
    if Ended(log, s).Some? then Ended(log, s)
    else if |log| >= s.maxIterations then Some(Stopped(|log|))
    else
      var plan := PlanBefore(log, world);
      if CurrentStep(plan).None? then Some(Success(|log|, |plan.steps|)) else None
  }

  /** Record `i` is what the run's iteration after the records before it writes. */
  ghost predicate FollowsAt(log: seq<LoopRecord>, i: nat, world: World, table: Table, s: Settings) {
    i < |log| && Verdict(log[..i], world, s) == None
    && var plan := PlanBefore(log[..i], world);
      0 <= plan.currentStep < |plan.steps| && log[i] == NextRecord(log[..i], world, table, s)
  }

  /** `log` holds the records of the first `|log|` iterations of a run that started with the statistics `table`. */
  ghost predicate Follows(log: seq<LoopRecord>, world: World, table: Table, s: Settings) {
    forall i: nat :: i < |log| ==> FollowsAt(log, i, world, table, s)
  }

  lemma FollowsPrefix(log: seq<LoopRecord>, n: nat, world: World, table: Table, s: Settings)
    requires Follows(log, world, table, s) && n <= |log|
    ensures Follows(log[..n], world, table, s)
  {
    forall i: nat | i < n ensures FollowsAt(log[..n], i, world, table, s) {
      assert FollowsAt(log, i, world, table, s);
      assert log[..n][..i] == log[..i];
    }
  }

  /** The current index always lies within the steps. */
  lemma {:induction false} PlansStayOk(log: seq<LoopRecord>, world: World, table: Table, s: Settings)
    requires Follows(log, world, table, s)
    ensures PlanOk(PlanBefore(log, world))
    ensures log != [] ==> PlanOk(log[|log| - 1].plan)
  {
    if log != [] {
      var n := |log| - 1;
      assert FollowsAt(log, n, world, table, s);
      FollowsPrefix(log, n, world, table, s);
      PlansStayOk(log[..n], world, table, s);
    }
  }

  lemma FollowsNext(log: seq<LoopRecord>, world: World, table: Table, s: Settings)
    requires Follows(log, world, table, s) && Verdict(log, world, s) == None && CurrentStep(PlanBefore(log, world)).Some?
    ensures Follows(log + [NextRecord(log, world, table, s)], world, table, s)
  {
    var grown := log + [NextRecord(log, world, table, s)];
    forall i: nat | i < |grown| ensures FollowsAt(grown, i, world, table, s) {
      assert grown[..i] == log[..i];
      if i < |log| { assert FollowsAt(log, i, world, table, s); } else { assert log[..i] == log; }
    }
  }

  lemma TablesNext(table: Table, log: seq<LoopRecord>, r: LoopRecord)
    ensures TableAfter(table, log + [r]) == UpdateStats(TableAfter(table, log), r.pattern, r.decision, r.success)
    ensures Failures(log + [r]) == Failures(log) + (if r.success then 0 else 1)
  {
    assert (log + [r])[..|log|] == log;
  }

  lemma CountsNext(before: map<string, nat>, after: map<string, nat>, log: seq<LoopRecord>, r: LoopRecord)
    requires Counts(before, log) && after == if r.success then before else CountFailure(before, r.step.id)
    ensures Counts(after, log + [r])
  {
    assert (log + [r])[..|log|] == log;
  }

  /** The dictionary counts the failures of every step so far. */
  ghost predicate Counts(failures: map<string, nat>, log: seq<LoopRecord>) {
    forall id :: (if id in failures then failures[id] else 0) == StepFailures(log, id)
  }

  /** What executing the step of `PlanBefore` leaves behind is the run's next record and the state after it. */
  lemma Stepped(log: seq<LoopRecord>, world: World, table: Table, s: Settings,
    before: map<string, nat>, after: map<string, nat>, r: LoopRecord)
    requires Follows(log, world, table, s) && Verdict(log, world, s) == None && Counts(before, log)
    requires CurrentStep(PlanBefore(log, world)).Some?
    requires var plan := PlanBefore(log, world); var step := plan.steps[plan.currentStep];
      var c := Classify(world.execute(|log| + 1));
      && after == (if c.success then before else CountFailure(before, step.id))
      && r.decision == (if c.success then AdvanceStep else
           Decide(TableAfter(table, log), c, world.retrieve(|log|).recentFailures, after[step.id], |log| + 1,
             s.failureThreshold, s.stepFailureThreshold))
      && r == LoopRecord(PlanAfter(plan, step, c.success, r.decision, world, |log| + 1), step, c.success, r.decision, c.errorType)
    ensures Follows(log + [r], world, table, s) && Counts(after, log + [r])
    ensures TableAfter(table, log + [r]) == UpdateStats(TableAfter(table, log), r.pattern, r.decision, r.success)
    ensures Failures(log + [r]) == Failures(log) + (if r.success then 0 else 1)
    ensures r.decision == AdvanceStep <==> r.success
  {
    assert r == NextRecord(log, world, table, s);
    FollowsNext(log, world, table, s);
    TablesNext(table, log, r);
    CountsNext(before, after, log, r);
  }

  class LoopController {
    const settings: Settings
    var strategyStats: Table
    var memory: seq<LoopRecord>  // everything handed to `memory.save`
    ghost var executorCalls: nat

    // the `state` dictionary of the current run
    var activePlan: Option<StepPlan>
    var stepFailures: map<string, nat>
    var lastDecision: Option<Decision>
    var strategyHint: string

    constructor (settings: Settings)
      ensures this.settings == settings && strategyStats == map[] && memory == [] && executorCalls == 0
    {
      this.settings := settings;
      strategyStats, memory, executorCalls := map[], [], 0;
      activePlan, stepFailures, lastDecision, strategyHint := None, map[], None, "none";
    }

    /** The state at the head of the loop, after the iterations that wrote `log`. */
    ghost predicate AtHead(log: seq<LoopRecord>, world: World, table: Table)
      reads this
    {
      && Follows(log, world, table, settings) && Ended(log, settings) == None
      && activePlan == (if log == [] then None else Some(AfterRecord(log[|log| - 1])))
      && lastDecision == (if log == [] then None else Some(log[|log| - 1].decision))
      && strategyStats == TableAfter(table, log)
      && Counts(stepFailures, log)
    }

    /** Asks for a plan when there is none or the last decision was to adjust it. */
    method EnsureStepPlan(world: World, i: nat)
      modifies this`activePlan
      ensures activePlan ==
        if old(activePlan).None? || lastDecision == Some(AdjustPlan)
        then Some(NormalizePlan(world.createPlan(i), old(activePlan))) else old(activePlan)
    {
      if activePlan.None? || lastDecision == Some(AdjustPlan) {
        activePlan := Some(NormalizePlan(world.createPlan(i), activePlan));
      }
    }

    method Advance()
      requires activePlan.Some?
      modifies this`activePlan
      ensures activePlan == Some(old(activePlan).value.(currentStep := old(activePlan).value.currentStep + 1))
    {
      activePlan := Some(activePlan.value.(currentStep := activePlan.value.currentStep + 1));
    }

    method IncrementStepFailure(step: Step)
      modifies this`stepFailures
      ensures stepFailures == CountFailure(old(stepFailures), step.id)
    {
      stepFailures := CountFailure(stepFailures, step.id);
    }

    function CurrentStepFailures(): nat
      reads this
    {
      var step := if activePlan.Some? then CurrentStep(activePlan.value) else None;
      var key := if step.Some? then step.value.id else "unknown_step";
      if key in stepFailures then stepFailures[key] else 0
    }

    /** `_replace_current_step`: only the step at the current index changes. */
    method ReplaceCurrentStep(repaired: Step)
      requires activePlan.Some?
      modifies this`activePlan
      ensures activePlan.Some? && activePlan.value.currentStep == old(activePlan).value.currentStep
      ensures var index := activePlan.value.currentStep;
        if 0 <= index < |old(activePlan).value.steps|
        then activePlan.value.steps == old(activePlan).value.steps[index := NormalizeStep(AsRaw(repaired), index)]
        else activePlan == old(activePlan)
    {
      var plan := activePlan.value;
      var index := plan.currentStep;
      if index < 0 || index >= |plan.steps| { return; }
      activePlan := Some(plan.(steps := plan.steps[index := NormalizeStep(AsRaw(repaired), index)]));
    }

    /** `_apply_step_adjustment`: marks the current step, once. */
    method ApplyStepAdjustment()
      requires activePlan.Some?
      modifies this`activePlan
      ensures activePlan == Some(Marked(old(activePlan).value, strategyHint))
    {
      var plan := activePlan.value;
      var step := CurrentStep(plan);
      if step.None? { return; }
      activePlan := Some(plan.(steps := plan.steps[plan.currentStep := Adjusted(step.value, strategyHint)]));
    }

    /** The one place where `executor.run` is called; it touches nothing of the controller. */
    method CallExecutor(world: World, i: nat) returns (result: ExecResult)
      modifies this`executorCalls
      ensures result == world.execute(i) && executorCalls == old(executorCalls) + 1
    {
      executorCalls := executorCalls + 1;
      result := world.execute(i);
    }

    /** Phases 2 to 5 of an iteration: execute, evaluate, decide, repair, learn and store. */
    method ExecuteCurrent(world: World, i: nat, context: MemoryContext) returns (r: LoopRecord)
      requires activePlan.Some? && CurrentStep(activePlan.value).Some?
      modifies this
      ensures var plan := old(activePlan).value; var step := plan.steps[plan.currentStep];
        var c := Classify(world.execute(i));
        && stepFailures == (if c.success then old(stepFailures) else CountFailure(old(stepFailures), step.id))
        && r.decision == (if c.success then AdvanceStep else
             Decide(old(strategyStats), c, context.recentFailures, stepFailures[step.id], i,
               settings.failureThreshold, settings.stepFailureThreshold))
        && r == LoopRecord(PlanAfter(plan, step, c.success, r.decision, world, i), step, c.success, r.decision, c.errorType)
      ensures activePlan == Some(r.plan) && memory == old(memory) + [r] && executorCalls == old(executorCalls) + 1
      ensures lastDecision == Some(r.decision) && strategyHint == StrategyHint(r.decision, r.pattern)
      ensures strategyStats == UpdateStats(old(strategyStats), r.pattern, r.decision, r.success)
    {
      var step := CurrentStep(activePlan.value).value;
      var result := CallExecutor(world, i);
      var c := Classify(result);
      var decision;
      if c.success {
        decision := AdvanceStep;
        Advance();
      } else {
        IncrementStepFailure(step);
        decision := Decide(strategyStats, c, context.recentFailures, CurrentStepFailures(), i,
          settings.failureThreshold, settings.stepFailureThreshold);
      }
      lastDecision := Some(decision);
      strategyHint := StrategyHint(decision, c.errorType);
      if !c.success && decision == RepairStep {
        ReplaceCurrentStep(RepairedStep(activePlan.value, step, world, i));
      }
      strategyStats := UpdateStats(strategyStats, c.errorType, decision, c.success);
      r := LoopRecord(activePlan.value, step, c.success, decision, c.errorType);
      memory := memory + [r];
    }

    /** The end of an iteration that wrote `r`: return, or adjust the step and go on. */
    method Conclude(r: LoopRecord, i: nat, failures: int, ghost log: seq<LoopRecord>)
      returns (verdict: Option<LoopResult>, now: int)
      requires log != [] && r == log[|log| - 1] && i == |log| && failures == Failures(log) - (if r.success then 0 else 1)
      requires activePlan == Some(r.plan) && strategyHint == StrategyHint(r.decision, r.pattern)
      requires r.decision == AdvanceStep <==> r.success
      modifies this`activePlan
      ensures verdict == Ended(log, settings) && now == Failures(log)
      ensures verdict.None? ==> activePlan == Some(AfterRecord(r))
    {
      var plan := activePlan.value;
      if r.success {
        return if plan.currentStep >= |plan.steps| then Some(Success(i, |plan.steps|)) else None, failures;
      }
      now := failures + 1;
      if r.decision == Escalate { return Some(Failure(i, Escalated)), now; }
      if r.decision == Abort { return Some(Failure(i, Aborted)), now; }
      if r.decision == AdjustPlan { ApplyStepAdjustment(); }
      if now >= settings.failureThreshold { return Some(Failure(i, FailureThreshold)), now; }
      return None, now;
    }

    /** The loop body once a plan with a step left is active. */
    method ExecuteStep(world: World, i: nat, context: MemoryContext, failures: int, ghost log: seq<LoopRecord>, ghost table: Table)
      returns (verdict: Option<LoopResult>, now: int, ghost written: seq<LoopRecord>)
      requires i == |log| + 1 && failures == Failures(log) && context == world.retrieve(|log|)
      requires Follows(log, world, table, settings) && Verdict(log, world, settings) == None
      requires activePlan == Some(PlanBefore(log, world)) && CurrentStep(activePlan.value).Some?
      requires strategyStats == TableAfter(table, log) && Counts(stepFailures, log)
      modifies this
      ensures memory == old(memory) + written && |written| == 1 && now == Failures(log + written)
      ensures executorCalls == old(executorCalls) + 1
      ensures strategyStats == TableAfter(table, log + written) && Follows(log + written, world, table, settings)
      ensures verdict == Ended(log + written, settings)
      ensures verdict.None? ==> AtHead(log + written, world, table)
    {
      var r := ExecuteCurrent(world, i, context);
      Stepped(log, world, table, settings, old(stepFailures), stepFailures, r);
      written := [r];
      verdict, now := Conclude(r, i, failures, log + written);
    }

    /** The loop body: `verdict` is the result when the loop ends here. */
    method Turn(world: World, i: nat, context: MemoryContext, failures: int, ghost log: seq<LoopRecord>, ghost table: Table)
      returns (verdict: Option<LoopResult>, now: int, ghost written: seq<LoopRecord>)
      requires i == |log| + 1 <= settings.maxIterations && failures == Failures(log) && context == world.retrieve(|log|)
      requires AtHead(log, world, table)
      modifies this
      ensures memory == old(memory) + written && executorCalls == old(executorCalls) + |written|
      ensures strategyStats == TableAfter(table, log + written)
      ensures Follows(log + written, world, table, settings)
      ensures verdict.Some? ==> Verdict(log + written, world, settings) == verdict
      ensures verdict.None? ==> |written| == 1 && now == Failures(log + written) && AtHead(log + written, world, table)
    {
      PlansStayOk(log, world, table, settings);
      EnsureStepPlan(world, i);
      var plan := activePlan.value;
      if CurrentStep(plan).None? {
        assert log + [] == log && memory + [] == memory;
        return Some(Success(i - 1, |plan.steps|)), failures, [];
      }
      verdict, now, written := ExecuteStep(world, i, context, failures, log, table);
    }

    /** Reads memory, merges what it teaches and resets the run's state. */
    method StartRun(world: World) returns (context: MemoryContext)
      modifies this
      ensures context == world.retrieve(0) && memory == old(memory) && executorCalls == old(executorCalls)
      ensures strategyStats == MergeStats(old(strategyStats), FoldStats(context.recent))
      ensures AtHead([], world, strategyStats)
    {
      context := world.retrieve(0);
      var incoming := BuildStrategyStats(context.recent);
      strategyStats := MergeStats(strategyStats, incoming);
      activePlan, stepFailures, lastDecision, strategyHint := None, map[], None, "none";
    }

    /**
     `run`: terminates for every planner, executor and memory. What it saves and what it returns are exactly
     what the oracles, the settings and the statistics so far determine.
     */
    method Run(world: World) returns (result: LoopResult, ghost log: seq<LoopRecord>)
      modifies this
      ensures memory == old(memory) + log && executorCalls == old(executorCalls) + |log|
      ensures var table := MergeStats(old(strategyStats), FoldStats(world.retrieve(0).recent));
        && Follows(log, world, table, settings) && Verdict(log, world, settings) == Some(result)
        && strategyStats == TableAfter(table, log)
    {
      var context := StartRun(world);
      ghost var table := strategyStats;
      var iteration, failures := 0, 0;
      log := [];
      var verdict: Option<LoopResult> := None;
      while iteration < settings.maxIterations && verdict.None?
        invariant memory == old(memory) + log && executorCalls == old(executorCalls) + |log|
        invariant strategyStats == TableAfter(table, log)
        invariant Follows(log, world, table, settings)
        invariant verdict.Some? ==> Verdict(log, world, settings) == verdict
        invariant verdict.None? ==>
          && iteration == |log| && failures == Failures(log) && context == world.retrieve(|log|)
          && AtHead(log, world, table)
        decreases settings.maxIterations - iteration
      {
        iteration := iteration + 1;
        ghost var written;
        verdict, failures, written := Turn(world, iteration, context, failures, log, table);
        assert memory == old(memory) + (log + written);
        log := log + written;
        context := world.retrieve(iteration);
      }
      result := if verdict.Some? then verdict.value else Stopped(iteration);
    }
  }
}
