/** Which decision each iteration of the loop controller takes, and what it does to the plan. */
module LoopDecisions {
  import opened Ordering
  import opened Decisions
  import opened LoopControllers
  import opened LoopRuns

  predicate IsViolation(pattern: string) {
    pattern == "policy_violation" || pattern == "security_violation"
  }

  /** The error type a failed answer names, or that of any runtime error. */
  function FailurePattern(answer: ExecResult): string {
    if answer.errorType.Some? then answer.errorType.value else "runtime_error"
  }

  /** Whether a failed answer may be tried again: it says so itself, or else any plain runtime error may. */
  predicate MayRetry(answer: ExecResult) {
    if answer.retryable.Some? then answer.retryable.value else FailurePattern(answer) == "runtime_error"
  }

  /** How often the decision was taken on the pattern, and how often successfully. */
  function Made(log: seq<LoopRecord>, pattern: string, decision: Decision): nat {
    if log == [] then 0
    else
      var last := log[|log| - 1];
      Made(log[..|log| - 1], pattern, decision) + (if last.pattern == pattern && last.decision == decision then 1 else 0)
  }

  function MadeWell(log: seq<LoopRecord>, pattern: string, decision: Decision): nat {
    if log == [] then 0
    else
      var last := log[|log| - 1];
      MadeWell(log[..|log| - 1], pattern, decision)
      + (if last.pattern == pattern && last.decision == decision && last.success then 1 else 0)
  }

  /** The statistics count exactly the decisions taken and their successes. */
  lemma {:induction false} AttemptsCounted(table: Table, log: seq<LoopRecord>, pattern: string, decision: Decision)
    ensures var key := StatKey(pattern, decision);
      && Lookup(TableAfter(table, log), key).attempts == Lookup(table, key).attempts + Made(log, pattern, decision)
      && Lookup(TableAfter(table, log), key).successes == Lookup(table, key).successes + MadeWell(log, pattern, decision)
  {
    if log != [] { AttemptsCounted(table, log[..|log| - 1], pattern, decision); }
  }

  /** A step is repaired exactly on a failure, no violation, once the step has failed often enough. */
  lemma RepairedExactly(log: seq<LoopRecord>, world: World, table: Table, s: Settings, i: nat)
    requires Follows(log, world, table, s) && i < |log|
    ensures log[i].decision == RepairStep <==>
      && !log[i].success && !IsViolation(log[i].pattern)
      && StepFailures(log[..i + 1], log[i].step.id) >= s.stepFailureThreshold
  {
    FailureCounted(log, i);
    DecidedAt(log, world, table, s, i);
    OneRecordPerCall(log, world, table, s, i);
  }

  lemma FailureCounted(log: seq<LoopRecord>, i: nat)
    requires i < |log|
    ensures !log[i].success ==> StepFailures(log[..i + 1], log[i].step.id) == StepFailures(log[..i], log[i].step.id) + 1
  {
    assert log[..i + 1][..i] == log[..i];
  }

  /** The decision on a failure is `Decide`'s, on the statistics and failures so far. */
  ghost predicate Decided(before: seq<LoopRecord>, r: LoopRecord, world: World, table: Table, s: Settings) {
    var c := Classify(world.execute(|before| + 1));
    !c.success ==> r.decision == Decide(TableAfter(table, before), c, world.retrieve(|before|).recentFailures,
      StepFailures(before, r.step.id) + 1, |before| + 1, s.failureThreshold, s.stepFailureThreshold)
  }

  lemma DecidedAt(log: seq<LoopRecord>, world: World, table: Table, s: Settings, i: nat)
    requires Follows(log, world, table, s) && i < |log|
    ensures Decided(log[..i], log[i], world, table, s)
  {
    assert FollowsAt(log, i, world, table, s);
    NextDecided(log[..i], log[i], world, table, s);
  }

  lemma NextDecided(before: seq<LoopRecord>, r: LoopRecord, world: World, table: Table, s: Settings)
    requires var plan := PlanBefore(before, world); 0 <= plan.currentStep < |plan.steps|
    requires r == NextRecord(before, world, table, s)
    ensures Decided(before, r, world, table, s)
  {
  }

  /** Attempts on the pattern so far, of which the score counts at most ten. */
  function Tried(table: Table, log: seq<LoopRecord>, pattern: string, decision: Decision): nat {
    var attempts := Lookup(table, StatKey(pattern, decision)).attempts + Made(log, pattern, decision);
    if attempts < 10 then attempts else 10
  }

  /**
   Below the repair threshold, with success credited to advancing only, a failure is retried exactly when the
   answer may be retried, is no invalid plan, and retrying was not tried over two times more than adjusting.
   */
  lemma RetriedOrAdjusted(log: seq<LoopRecord>, world: World, table: Table, s: Settings, i: nat)
    requires Follows(log, world, table, s) && i < |log| && TableOk(table) && CreditOnlyAdvance(table)
    requires var answer := world.execute(i + 1); answer.success != Some(true) && !IsViolation(FailurePattern(answer))
    requires StepFailures(log[..i + 1], log[i].step.id) < s.stepFailureThreshold
    ensures var answer, before := world.execute(i + 1), log[..i];
      var pattern := FailurePattern(answer);
      log[i].decision ==
        if MayRetry(answer) && pattern != "invalid_plan"
          && Tried(table, before, pattern, RetrySame) <= Tried(table, before, pattern, AdjustPlan) + 2
        then RetrySame else AdjustPlan
  {
    var answer, before := world.execute(i + 1), log[..i];
    var pattern := FailurePattern(answer);
    FollowsPrefix(log, i, world, table, s);
    StatisticsStayValid(table, before);
    NothingAborted(before, world, table, s);
    AttemptsCounted(table, before, pattern, RetrySame);
    AttemptsCounted(table, before, pattern, AdjustPlan);
    RepairedExactly(log, world, table, s, i);
    SelectedBelow(log, world, table, s, i);
    ChoiceWithoutCredit(TableAfter(table, before), pattern, MayRetry(answer), world.retrieve(i).recentFailures, i + 1,
      s.failureThreshold);
  }

  lemma SelectedBelow(log: seq<LoopRecord>, world: World, table: Table, s: Settings, i: nat)
    requires Follows(log, world, table, s) && i < |log|
    requires var answer := world.execute(i + 1); answer.success != Some(true) && !IsViolation(FailurePattern(answer))
    requires log[i].decision != RepairStep
    ensures var answer := world.execute(i + 1);
      log[i].decision == SelectBest(TableAfter(table, log[..i]), FailurePattern(answer), MayRetry(answer),
        world.retrieve(i).recentFailures, i + 1, s.failureThreshold)
  {
    DecidedAt(log, world, table, s, i);
    ClassifiedFailure(world.execute(i + 1));
    DecideSelects(TableAfter(table, log[..i]), Classify(world.execute(i + 1)), world.retrieve(i).recentFailures,
      StepFailures(log[..i], log[i].step.id) + 1, i + 1, s, log[i].decision);
  }

  lemma ClassifiedFailure(answer: ExecResult)
    requires answer.success != Some(true)
    ensures var c := Classify(answer);
      !c.success && c.errorType == FailurePattern(answer) && c.retryable == MayRetry(answer)
  {
  }

  lemma DecideSelects(table: Table, c: Classification, failures: seq<MemoryRecord>, stepFailures: nat, attemptCount: int,
    s: Settings, d: Decision)
    requires d == Decide(table, c, failures, stepFailures, attemptCount, s.failureThreshold, s.stepFailureThreshold)
    requires d != RepairStep && !IsViolation(c.errorType)
    ensures d == SelectBest(table, c.errorType, c.retryable, failures, attemptCount, s.failureThreshold)
  {
  }

  /** With no statistics yet, a first failure that names neither error type nor retryability is retried. */
  lemma FirstFailureIsRetried(log: seq<LoopRecord>, world: World, s: Settings)
    requires log != [] && Follows(log, world, map[], s) && s.stepFailureThreshold >= 2
    requires var answer := world.execute(1); answer.success != Some(true) && answer.errorType == None && answer.retryable == None
    ensures log[0].decision == RetrySame
  {
    assert log[..1][..0] == [];
    OneRecordPerCall(log, world, map[], s, 0);
    RetriedOrAdjusted(log, world, map[], s, 0);
  }

  // ---------- steps and plans ----------

  /** The number a string of digits denotes. */
  function Denotes(s: string): nat {
    if s == "" then 0
    else
      var digit := s[|s| - 1] as int - '0' as int;
      Denotes(s[..|s| - 1]) * 10 + (if digit >= 0 then digit else 0)
  }

  lemma {:induction false} DigitsDenote(n: nat)
    ensures Digits(n) != "" && Denotes(Digits(n)) == n
    ensures forall i :: 0 <= i < |Digits(n)| ==> '0' <= Digits(n)[i] <= '9'
    ensures n > 0 ==> Digits(n)[0] != '0'
  {
    var last := Digits(n)[|Digits(n)| - 1..];
    if n >= 10 {
      DigitsDenote(n / 10);
      assert Digits(n)[..|Digits(n)| - 1] == Digits(n / 10);
    }
  }

  /** What a step made from `raw` at position `index` looks like. */
  predicate IsStepFrom(raw: RawStep, index: nat, step: Step) {
    match raw
    case TextStep(text) => step == Step("step_" + Digits(index + 1), text, [], map[])
    case FieldStep(id, action, description, dependencies, metadata) =>
      && step.id == (if id.Some? then id.value else "step_" + Digits(index + 1))
      && step.action == (if action != "" then action else if description != "" then description else "step_" + Digits(index + 1))
      && step.dependencies == dependencies && step.metadata == metadata
  }

  lemma StepsAreFrom(raw: RawStep, index: nat, step: Step)
    ensures IsStepFrom(raw, index, NormalizeStep(raw, index))
    ensures NormalizeStep(AsRaw(step), index) ==
      if step.action != "" then step else Step(step.id, "step_" + Digits(index + 1), step.dependencies, step.metadata)
  {
  }

  ghost predicate StepsFrom(raws: seq<RawStep>, steps: seq<Step>) {
    |steps| == |raws| && forall i :: 0 <= i < |raws| ==> IsStepFrom(raws[i], i, steps[i])
  }

  /** Steps with an action are kept as they are. */
  ghost predicate StepsKept(kept: seq<Step>, steps: seq<Step>) {
    |steps| == |kept| && forall i :: 0 <= i < |kept| && kept[i].action != "" ==> steps[i] == kept[i]
  }

  /** The plan taken from what a planner answers. */
  lemma PlanTaken(raw: RawPlan, fallback: Option<StepPlan>)
    ensures var plan := NormalizePlan(raw, fallback);
      && (raw.StepsPlan? ==> StepsFrom(raw.steps, plan.steps))
      && (raw.StepsPlan? ==>
           plan.currentStep == if raw.current < 0 then 0 else if raw.current > |raw.steps| then |raw.steps| else raw.current)
      && (raw.OrderedTasks? ==> StepsFrom(raw.tasks, plan.steps) && plan.currentStep == 0)
      && (raw.SingleStep? ==> StepsFrom([raw.step], plan.steps) && plan.currentStep == 0)
      && (raw.OtherPlan? && fallback.None? ==>
           plan == StepPlan([Step("step_1", if raw.text != "" then raw.text else "step_1", [], map[])], 0))
      && (raw.OtherPlan? && fallback.Some? ==>
           StepsKept(fallback.value.steps, plan.steps) && plan.currentStep == fallback.value.currentStep)
  {
    assert Digits(1) == "1";
    if raw.OtherPlan? && fallback.Some? {
      var steps := fallback.value.steps;
      forall i | 0 <= i < |steps| && steps[i].action != "" ensures Renormalize(steps)[i] == steps[i] {
        StepsAreFrom(AsRaw(steps[i]), i, steps[i]);
      }
    }
    if raw.OtherPlan? && fallback.None? { assert DefaultName(0) == "step_1"; }
  }

  /** The reason kept for a failure is the answer's error, else its status, else its error type. */
  lemma FailureReasonKept(answer: ExecResult)
    requires answer.success != Some(true)
    ensures Classify(answer).reason ==
      if answer.error != "" then answer.error else if answer.status != "" then answer.status else FailurePattern(answer)
  {
  }

  /** What the planner is told after each decision. */
  lemma HintsGiven(pattern: string)
    ensures StrategyHint(AdvanceStep, pattern) == "advance_to_next_step" && StrategyHint(Abort, pattern) == "finalize_goal"
    ensures StrategyHint(RetrySame, pattern) == "retry_with_same_plan:" + pattern
    ensures StrategyHint(AdjustPlan, pattern) == "avoid_previous_plan_pattern:" + pattern
    ensures StrategyHint(RepairStep, pattern) == "repair_current_step:" + pattern
    ensures StrategyHint(Escalate, pattern) == "escalate_issue:" + pattern
  {
  }

  /** Text occurs in text. */
  lemma ContainsMeaning(s: string, part: string)
    ensures Contains(s, part) <==> exists before, after :: s == before + part + after
  {
    if Contains(s, part) {
      var i :| 0 <= i <= |s| && part <= s[i..];
      assert s == s[..i] + part + s[i + |part|..];
    }
    if before, after :| s == before + part + after {
      assert s[|before|..] == part + after;
    }
  }

  /** After a decision to adjust, the current step is marked and told what to avoid, unless it was marked already. */
  lemma AdjustmentMarks(r: LoopRecord)
    requires r.decision == AdjustPlan && 0 <= r.plan.currentStep < |r.plan.steps|
    ensures var k := r.plan.currentStep; var step, after := r.plan.steps[k], AfterRecord(r).steps[k];
      after == if Contains(step.action, "[adjusted]") then step
        else Step(step.id, step.action + " [adjusted]", step.dependencies,
          step.metadata["strategy_hint" := "avoid_previous_plan_pattern:" + r.pattern])
    ensures Contains((r.plan.steps[r.plan.currentStep].action + " [adjusted]"), "[adjusted]")
  {
    var action := r.plan.steps[r.plan.currentStep].action;
    assert action + " [adjusted]" == (action + " ") + "[adjusted]" + "";
    ContainsMeaning(action + " [adjusted]", "[adjusted]");
  }

  /** The description from which a repair candidate's step for position `index` is taken. */
  function CandidateStep(candidate: RepairCandidate, index: nat, base: Step): RawStep {
    match candidate
    case RepairPlan(steps, fields) => if index < |steps| then steps[index] else fields
    case RepairFields(fields) => fields
    case RepairText(text) => FieldStep(None, text, "", [], map[])
    case NoRepair => AsRaw(base)
  }

  /** A repaired step is what the planner's candidate says, or the step itself when there is none. */
  lemma RepairTaken(candidate: RepairCandidate, index: nat, base: Step)
    ensures IsStepFrom(CandidateStep(candidate, index, base), index, NormalizeRepair(candidate, index, base))
  {
  }

  /** After a decision to repair, the executed position holds the planner's repair, or the step the fallback plan is at. */
  lemma RepairReplaces(log: seq<LoopRecord>, world: World, table: Table, s: Settings, i: nat)
    requires Follows(log, world, table, s) && i < |log| && log[i].decision == RepairStep
    requires log[i].step.action != ""
    ensures var k := log[i].plan.currentStep;
      && 0 <= k < |log[i].plan.steps|
      && (world.repair.Some? ==> var repaired := NormalizeRepair(world.repair.value(i + 1), k, log[i].step);
           log[i].plan.steps[k] == NormalizeStep(AsRaw(repaired), k))
      && (world.repair.None? ==>
           var fallback := NormalizePlan(world.fallbackPlan(i + 1), Some(PlanBefore(log[..i], world)));
           log[i].plan.steps[k] == NormalizeStep(AsRaw(
             if 0 <= fallback.currentStep < |fallback.steps| then fallback.steps[fallback.currentStep] else log[i].step), k))
  {
    assert FollowsAt(log, i, world, table, s);
    OneRecordPerCall(log, world, table, s, i);
    Stepwise(log, world, table, s, i);
    StepsAreFrom(AsRaw(log[i].step), log[i].plan.currentStep, log[i].step);
  }
}
