/** The orchestration controller: planning, executing, validating, reflecting and improving in order. */
module Orchestrator {
  import opened Ordering
  import opened PlanGraph
  import opened Runner
  import opened Orchestration

  datatype PhaseTrace = PhaseTrace(phase: string, state: SystemState, completed: bool, failedAttempts: nat, error: string)

  /**
   The controller's collaborators: what attempt number `k` of each does. Planning and execution engines
   may answer None; reflecting and improving always build a value.
   */
  datatype Engines<!P, !S, !I> = Engines(
    plan: nat -> OpOutcome<Option<P>>,
    execute: (P, nat) -> OpOutcome<Option<ExecutionReport>>,
    reflect: (ExecutionReport, nat) -> OpOutcome<S>,
    improve: nat -> OpOutcome<I>)

  datatype OrchestrationResult<P, S, I> = OrchestrationResult(
    state: SystemState, history: seq<StateTransition>, plan: Option<P>, report: Option<ExecutionReport>,
    validation: Option<ValidationSummary>, reflection: Option<S>, improvement: Option<I>,
    phaseTraces: seq<PhaseTrace>, recoveryAttempts: seq<RecoveryAttempt>, error: string)

  const NO_RETRY := 0
  const EXECUTION_RETRY := 1
  const PHASE_COUNT := 5

  function PhaseName(i: int): string {
    match i
    case 0 => "planning"
    case 1 => "executing"
    case 2 => "validating"
    case 3 => "reflecting"
    case _ => "improving"
  }

  function PhaseState(i: int): SystemState {
    match i
    case 0 => Planning
    case 1 => Executing
    case 2 => Validating
    case 3 => Reflecting
    case _ => Improving
  }

  /** An operation that never answers None. */
  function NeverNone<T>(operation: nat -> OpOutcome<T>): nat -> OpOutcome<Option<T>> {
    (k: nat) => match operation(k) case Returned(v) => Returned(Some(v)) case Raises(e) => Raises(e)
  }

  function TraceOf<T>(i: int, r: RecoveryResult<T>): PhaseTrace {
    PhaseTrace(PhaseName(i), PhaseState(i), r.Recovered?, |r.attempts|, if r.GaveUp? then r.finalError else "")
  }

  /** `_phase_error`: the last non-empty error among the traces. */
  function PhaseError(traces: seq<PhaseTrace>): string {
    if traces == [] then "orchestration_failed"
    else if traces[|traces| - 1].error != "" then traces[|traces| - 1].error
    else PhaseError(traces[..|traces| - 1])
  }

  /** Trace `i` belongs to phase `i` and has no error if that completed. */
  ghost predicate TracesPhase(traces: seq<PhaseTrace>, i: int) {
    && 0 <= i < |traces| && traces[i].phase == PhaseName(i) && traces[i].state == PhaseState(i)
    && (traces[i].completed ==> traces[i].error == "")
  }

  /** The traces are a prefix of the five phases and only the last may have failed. */
  ghost predicate PhasePrefix(traces: seq<PhaseTrace>) {
    && |traces| <= PHASE_COUNT
    && (forall i :: 0 <= i < |traces| ==> TracesPhase(traces, i))
    && (forall i :: 0 <= i < |traces| - 1 ==> traces[i].completed)
  }

  /** Where a run with these traces and this report ends. */
  function EndState(traces: seq<PhaseTrace>, report: Option<ExecutionReport>): SystemState {
    if traces == [] then Initialized
    else if !traces[|traces| - 1].completed then FailedState
    else if |traces| < PHASE_COUNT then PhaseState(|traces| - 1)
    else if report.Some? && report.value.status == Failed then FailedState
    else CompletedState
  }

  /** No engine answers None on success. */
  ghost predicate NonNull<P(!new), S, I>(e: Engines<P, S, I>) {
    && (forall k :: e.plan(k) != Returned(None))
    && (forall p, k :: e.execute(p, k) != Returned(None))
  }

  // ---------- what a run comes to ----------

  /** What the attempts from number `k` come to: one more try after each transient failure, at most `left` of them. */
  function Settle<T>(operation: nat -> OpOutcome<T>, k: nat, left: nat): OpOutcome<T>
    decreases left
  {
    var outcome := operation(k);
    if left > 0 && outcome.Raises? && CategorizeFailure(outcome.error) == Transient
    then Settle(operation, k + 1, left - 1) else outcome
  }

  function ExecuteOn<P, S, I>(e: Engines<P, S, I>, plan: P): nat -> OpOutcome<Option<ExecutionReport>> {
    (k: nat) => e.execute(plan, k)
  }

  function ValidateOn(report: ExecutionReport): nat -> OpOutcome<Option<ValidationSummary>> {
    NeverNone((k: nat) => ValidateReport(report))
  }

  function ReflectOn<P, S, I>(e: Engines<P, S, I>, report: ExecutionReport): nat -> OpOutcome<S> {
    (k: nat) => e.reflect(report, k)
  }

  /** The state a run ends in, read off the engines alone. */
  function EndOf<P, S, I>(e: Engines<P, S, I>): SystemState {
    match Settle(e.plan, 1, NO_RETRY)
    case Raises(_) => FailedState
    case Returned(plan) => if plan.None? then Planning else EndWithPlan(e, plan.value)
  }

  function EndWithPlan<P, S, I>(e: Engines<P, S, I>, plan: P): SystemState {
    match Settle(ExecuteOn(e, plan), 1, EXECUTION_RETRY)
    case Raises(_) => FailedState
    case Returned(report) => if report.None? then Executing else EndWithReport(e, report.value)
  }

  function EndWithReport<P, S, I>(e: Engines<P, S, I>, report: ExecutionReport): SystemState {
    if ValidateReport(report).Returned? && e.reflect(report, 1).Returned? && e.improve(1).Returned?
       && report.status != Failed
    then CompletedState else FailedState
  }

  lemma ValidationSettles(report: ExecutionReport)
    ensures var v := ValidateReport(report); var settled := Settle(ValidateOn(report), 1, NO_RETRY);
      settled == if v.Returned? then Returned(Some(v.value)) else Raises(v.error)
  {
  }

  lemma NeverNoneSettles<T>(operation: nat -> OpOutcome<T>)
    ensures operation(1).Returned? ==> Settle(NeverNone(operation), 1, NO_RETRY) == Returned(Some(operation(1).value))
    ensures operation(1).Raises? ==> Settle(NeverNone(operation), 1, NO_RETRY).Raises?
  {
  }

  /** The recovery manager's result is what the attempts settle to. */
  lemma SettledOf<T>(operation: nat -> OpOutcome<T>, phase: string, maxRetries: nat, r: RecoveryResult<T>)
    requires RecoveryOf(operation, phase, maxRetries, r) && |r.attempts| <= maxRetries + (if r.Recovered? then 0 else 1)
    ensures r.Recovered? ==> Settle(operation, 1, maxRetries) == Returned(r.value)
    ensures r.GaveUp? ==>
      Settle(operation, 1, maxRetries).Raises? && Settle(operation, 1, maxRetries).error.message == r.finalError
  {
    SettledFrom(operation, phase, maxRetries, r, if r.Recovered? then |r.attempts| else |r.attempts| - 1);
  }

  lemma {:induction false} SettledFrom<T>(operation: nat -> OpOutcome<T>, phase: string, maxRetries: nat, r: RecoveryResult<T>, k: nat)
    requires RecoveryOf(operation, phase, maxRetries, r) && k <= maxRetries
    requires k <= if r.Recovered? then |r.attempts| else |r.attempts| - 1
    ensures Settle(operation, 1, maxRetries) == Settle(operation, k + 1, maxRetries - k)
  {
    if k > 0 {
      SettledFrom(operation, phase, maxRetries, r, k - 1);
      assert FailedAttempt(operation, phase, maxRetries, r.attempts[k - 1], k);
    }
  }

  function FailedAttempts(traces: seq<PhaseTrace>): nat {
    if traces == [] then 0 else FailedAttempts(traces[..|traces| - 1]) + traces[|traces| - 1].failedAttempts
  }

  function ValueOf<T>(outcome: OpOutcome<Option<T>>): Option<T> {
    if outcome.Returned? then outcome.value else None
  }

  /** Each section of the result is what its engine came to, given the sections before it. */
  ghost predicate Sections<P(!new), S(!new), I(!new)>(e: Engines<P, S, I>, r: OrchestrationResult<P, S, I>) {
    && r.plan == ValueOf(Settle(e.plan, 1, NO_RETRY))
    && (if r.plan.None? then r.report == None && r.validation == None && r.reflection == None && r.improvement == None
        else SectionsWithPlan(e, r.plan.value, r))
  }

  ghost predicate SectionsWithPlan<P(!new), S(!new), I(!new)>(e: Engines<P, S, I>, plan: P, r: OrchestrationResult<P, S, I>) {
    && r.report == ValueOf(Settle(ExecuteOn(e, plan), 1, EXECUTION_RETRY))
    && (if r.report.None? then r.validation == None && r.reflection == None && r.improvement == None
        else LaterSections(e, r.report.value, r))
  }

  ghost predicate LaterSections<P(!new), S(!new), I(!new)>(e: Engines<P, S, I>, report: ExecutionReport, r: OrchestrationResult<P, S, I>) {
    var v, s, i := ValidateReport(report), e.reflect(report, 1), e.improve(1);
    && r.validation == (if v.Returned? then Some(v.value) else None)
    && r.reflection == (if v.Returned? && s.Returned? then Some(s.value) else None)
    && r.improvement == (if v.Returned? && s.Returned? && i.Returned? then Some(i.value) else None)
  }

  /** Every transition was legal, only the last trace may have failed, and the final state follows from traces and report. */
  ghost predicate WellEnded<P, S, I>(r: OrchestrationResult<P, S, I>) {
    && Legal(r.history) && r.state == StateAfter(r.history)
    && r.phaseTraces != [] && PhasePrefix(r.phaseTraces)
    && r.state == EndState(r.phaseTraces, r.report)
    && |r.history| == |r.phaseTraces| + (if Terminal(r.state) then 1 else 0)
    && |r.recoveryAttempts| == FailedAttempts(r.phaseTraces) <= 2
    && r.error == (if r.improvement.None? then PhaseError(r.phaseTraces) else "")
  }

  // ---------- what a run records ----------

  /** The failed attempts from number `k` on, up to the first success or the first failure that may not be retried. */
  function AttemptsOf<T>(operation: nat -> OpOutcome<T>, phase: string, k: nat, left: nat): seq<RecoveryAttempt>
    decreases left
  {
    var outcome := operation(k);
    if outcome.Returned? then []
    else
      var category := CategorizeFailure(outcome.error);
      var retry := category == Transient && left > 0;
      [RecoveryAttempt(phase, k, category, outcome.error.message, retry)]
      + (if retry then AttemptsOf(operation, phase, k + 1, left - 1) else [])
  }

  /** What one phase leaves in the traces and in the attempts. */
  datatype PhaseLog = PhaseLog(trace: PhaseTrace, attempts: seq<RecoveryAttempt>)

  function LogOf<T>(i: int, operation: nat -> OpOutcome<T>, maxRetries: nat): PhaseLog {
    var attempts, outcome := AttemptsOf(operation, PhaseName(i), 1, maxRetries), Settle(operation, 1, maxRetries);
    PhaseLog(PhaseTrace(PhaseName(i), PhaseState(i), outcome.Returned?, |attempts|,
      if outcome.Raises? then outcome.error.message else ""), attempts)
  }

  function TracesIn(phases: seq<PhaseLog>): seq<PhaseTrace> {
    if phases == [] then [] else [phases[0].trace] + TracesIn(phases[1..])
  }

  function AttemptsIn(phases: seq<PhaseLog>): seq<RecoveryAttempt> {
    if phases == [] then [] else phases[0].attempts + AttemptsIn(phases[1..])
  }

  /** The phases a run goes through, read off the engines alone. */
  function Phases<P, S, I>(e: Engines<P, S, I>): seq<PhaseLog> {
    var plan := ValueOf(Settle(e.plan, 1, NO_RETRY));
    [LogOf(0, e.plan, NO_RETRY)] + (if plan.None? then [] else PhasesWithPlan(e, plan.value))
  }

  function PhasesWithPlan<P, S, I>(e: Engines<P, S, I>, plan: P): seq<PhaseLog> {
    var report := ValueOf(Settle(ExecuteOn(e, plan), 1, EXECUTION_RETRY));
    [LogOf(1, ExecuteOn(e, plan), EXECUTION_RETRY)] + (if report.None? then [] else PhasesWithReport(e, report.value))
  }

  function PhasesWithReport<P, S, I>(e: Engines<P, S, I>, report: ExecutionReport): seq<PhaseLog> {
    [LogOf(2, ValidateOn(report), NO_RETRY)]
    + (if ValidateReport(report).Raises? then [] else PhasesValidated(e, report))
  }

  function PhasesValidated<P, S, I>(e: Engines<P, S, I>, report: ExecutionReport): seq<PhaseLog> {
    [LogOf(3, NeverNone(ReflectOn(e, report)), NO_RETRY)]
    + (if e.reflect(report, 1).Raises? then [] else [LogOf(4, NeverNone(e.improve), NO_RETRY)])
  }

  /** The phases `phases` were recorded after `traces` and `attempts`. */
  ghost predicate Logged<P, S, I>(traces: seq<PhaseTrace>, attempts: seq<RecoveryAttempt>, phases: seq<PhaseLog>,
    r: OrchestrationResult<P, S, I>)
  {
    r.phaseTraces == traces + TracesIn(phases) && r.recoveryAttempts == attempts + AttemptsIn(phases)
  }

  lemma LoggedCons<P, S, I>(traces: seq<PhaseTrace>, attempts: seq<RecoveryAttempt>, l: PhaseLog, rest: seq<PhaseLog>,
    r: OrchestrationResult<P, S, I>)
    requires Logged(traces + [l.trace], attempts + l.attempts, rest, r)
    ensures Logged(traces, attempts, [l] + rest, r)
  {
    assert ([l] + rest)[1..] == rest;
  }

  /** The result of a run: its sections, traces, attempts and state are what the engines make them. */
  ghost predicate RunOf<P(!new), S(!new), I(!new)>(e: Engines<P, S, I>, r: OrchestrationResult<P, S, I>) {
    && WellEnded(r) && Sections(e, r) && r.state == EndOf(e) && Logged([], [], Phases(e), r)
  }

  /** The result of a run that got as far as a report. */
  ghost predicate RunFromReport<P(!new), S(!new), I(!new)>(e: Engines<P, S, I>, plan: P, report: ExecutionReport,
    r: OrchestrationResult<P, S, I>)
  {
    && WellEnded(r) && r.state == EndWithReport(e, report)
    && r.plan == Some(plan) && r.report == Some(report) && LaterSections(e, report, r)
  }

  lemma StoppedValidating<P(!new), S(!new), I(!new)>(e: Engines<P, S, I>, plan: P, report: ExecutionReport,
    r: OrchestrationResult<P, S, I>)
    requires WellEnded(r) && ValidateReport(report).Raises? && r.state == FailedState
    requires r.plan == Some(plan) && r.report == Some(report)
    requires r.validation == None && r.reflection == None && r.improvement == None
    ensures RunFromReport(e, plan, report, r)
  {
  }

  lemma StoppedImproving<P(!new), S(!new), I(!new)>(e: Engines<P, S, I>, plan: P, report: ExecutionReport,
    validation: ValidationSummary, reflection: S, r: OrchestrationResult<P, S, I>)
    requires WellEnded(r) && ValidateReport(report) == Returned(validation) && e.reflect(report, 1) == Returned(reflection)
    requires r.plan == Some(plan) && r.report == Some(report)
    requires r.validation == Some(validation) && r.reflection == Some(reflection)
    requires r.improvement == (if e.improve(1).Returned? then Some(e.improve(1).value) else None)
    requires r.state == (if e.improve(1).Raises? || report.status == Failed then FailedState else CompletedState)
    ensures RunFromReport(e, plan, report, r)
  {
  }

  lemma StoppedPlanning<P(!new), S(!new), I(!new)>(e: Engines<P, S, I>, r: OrchestrationResult<P, S, I>)
    requires WellEnded(r) && ValueOf(Settle(e.plan, 1, NO_RETRY)).None?
    requires r.plan == None && r.report == None && r.validation == None && r.reflection == None && r.improvement == None
    requires r.state == (if Settle(e.plan, 1, NO_RETRY).Raises? then FailedState else Planning)
    requires Logged([], [], [LogOf(0, e.plan, NO_RETRY)] + [], r)
    ensures RunOf(e, r)
  {
  }

  lemma WentOn<P(!new), S(!new), I(!new)>(e: Engines<P, S, I>, plan: P, r: OrchestrationResult<P, S, I>)
    requires WellEnded(r) && ValueOf(Settle(e.plan, 1, NO_RETRY)) == Some(plan)
    requires r.plan == Some(plan) && SectionsWithPlan(e, plan, r) && r.state == EndWithPlan(e, plan)
    requires Logged([], [], [LogOf(0, e.plan, NO_RETRY)] + PhasesWithPlan(e, plan), r)
    ensures RunOf(e, r)
  {
  }

  /** The recovery result of an operation is determined: its attempts and what they settle to. */
  lemma {:induction false} AttemptsFrom<T>(operation: nat -> OpOutcome<T>, phase: string, maxRetries: nat, r: RecoveryResult<T>, k: nat)
    requires RecoveryOf(operation, phase, maxRetries, r)
    requires k <= maxRetries && k <= if r.Recovered? then |r.attempts| else |r.attempts| - 1
    requires |r.attempts| <= maxRetries + (if r.Recovered? then 0 else 1)
    ensures r.attempts[k..] == AttemptsOf(operation, phase, k + 1, maxRetries - k)
    decreases maxRetries - k
  {
    if k < |r.attempts| {
      assert FailedAttempt(operation, phase, maxRetries, r.attempts[k], k + 1);
      if k + 1 < |r.attempts| || r.Recovered? {
        assert r.attempts[k].willRetry;
        AttemptsFrom(operation, phase, maxRetries, r, k + 1);
      }
      assert r.attempts[k..] == [r.attempts[k]] + r.attempts[k + 1..];
    }
  }

  lemma LoggedBy<T>(i: int, operation: nat -> OpOutcome<Option<T>>, maxRetries: nat, r: RecoveryResult<Option<T>>)
    requires RecoveryOf(operation, PhaseName(i), maxRetries, r)
    requires |r.attempts| <= maxRetries + (if r.Recovered? then 0 else 1)
    ensures LogOf(i, operation, maxRetries) == PhaseLog(TraceOf(i, r), r.attempts)
    ensures Settle(operation, 1, maxRetries).Returned? == r.Recovered?
    ensures ValueOf(Settle(operation, 1, maxRetries)) == (if r.Recovered? then r.value else None)
  {
    SettledOf(operation, PhaseName(i), maxRetries, r);
    AttemptsFrom(operation, PhaseName(i), maxRetries, r, 0);
  }

  // ---------- the controller ----------

  lemma AttemptsGrow(traces: seq<PhaseTrace>, t: PhaseTrace)
    ensures FailedAttempts(traces + [t]) == FailedAttempts(traces) + t.failedAttempts
  {
  }

  lemma PhasePrefixGrows<T>(traces: seq<PhaseTrace>, r: RecoveryResult<T>)
    requires PhasePrefix(traces) && |traces| < PHASE_COUNT && (traces != [] ==> traces[|traces| - 1].completed)
    ensures PhasePrefix(traces + [TraceOf(|traces|, r)])
  {
    var longer := traces + [TraceOf(|traces|, r)];
    forall i | 0 <= i < |longer| ensures TracesPhase(longer, i) {
      if i < |traces| { assert TracesPhase(traces, i); }
    }
  }

  /** Exactly the first `n` phases are traced and all completed. */
  ghost predicate AllDone(traces: seq<PhaseTrace>, attempts: seq<RecoveryAttempt>, n: nat) {
    && |traces| == n <= PHASE_COUNT && PhasePrefix(traces) && (n > 0 ==> traces[n - 1].completed)
    && |attempts| == FailedAttempts(traces) <= (if n < 2 then NO_RETRY else EXECUTION_RETRY)
  }

  /** The phases before `n` completed and phase `n` failed. */
  ghost predicate LastFailed(traces: seq<PhaseTrace>, attempts: seq<RecoveryAttempt>, n: nat) {
    && |traces| == n + 1 <= PHASE_COUNT && PhasePrefix(traces) && !traces[n].completed
    && |attempts| == FailedAttempts(traces) <= EXECUTION_RETRY + 1
  }

  lemma TracesStep<T>(traces: seq<PhaseTrace>, attempts: seq<RecoveryAttempt>, n: nat,
    operation: nat -> OpOutcome<Option<T>>, maxRetries: nat, r: RecoveryResult<Option<T>>)
    requires AllDone(traces, attempts, n) && n < PHASE_COUNT
    requires maxRetries == (if n == 1 then EXECUTION_RETRY else NO_RETRY)
    requires RecoveryOf(operation, PhaseName(n), maxRetries, r)
    requires |r.attempts| <= maxRetries + (if r.Recovered? then 0 else 1)
    ensures LogOf(n, operation, maxRetries) == PhaseLog(TraceOf(n, r), r.attempts)
    ensures Settle(operation, 1, maxRetries).Returned? == r.Recovered?
    ensures ValueOf(Settle(operation, 1, maxRetries)) == (if r.Recovered? then r.value else None)
    ensures r.Recovered? ==> AllDone(traces + [TraceOf(n, r)], attempts + r.attempts, n + 1)
    ensures r.GaveUp? ==> LastFailed(traces + [TraceOf(n, r)], attempts + r.attempts, n)
  {
    LoggedBy(n, operation, maxRetries, r);
    PhasePrefixGrows(traces, r);
    AttemptsGrow(traces, TraceOf(n, r));
  }

  class OrchestrationController {
    const machine: SystemStateMachine
    var phaseTraces: seq<PhaseTrace>
    var recoveryAttempts: seq<RecoveryAttempt>

    constructor ()
      ensures Completed(0) && fresh(machine)
    {
      machine := new SystemStateMachine();
      phaseTraces, recoveryAttempts := [], [];
    }

    /** `n` phases completed and the machine is in the last one's state. */
    ghost predicate Completed(n: nat)
      reads this, machine
    {
      && machine.Valid() && |machine.transitions| == n
      && machine.state == (if n == 0 then Initialized else PhaseState(n - 1))
      && AllDone(phaseTraces, recoveryAttempts, n)
    }

    /** Phases before `n` completed, phase `n` failed. */
    ghost predicate FailedIn(n: nat)
      reads this, machine
    {
      && machine.Valid() && |machine.transitions| == n + 2 && machine.state == FailedState
      && LastFailed(phaseTraces, recoveryAttempts, n)
    }

    /** Phase `n` is under way. */
    ghost predicate Entered(n: nat)
      reads machine
    {
      n < PHASE_COUNT && machine.Valid() && |machine.transitions| == n + 1 && machine.state == PhaseState(n)
    }

    method Enter(n: nat)
      requires n < PHASE_COUNT && Completed(n)
      modifies machine
      ensures Entered(n)
    {
      var entered := machine.TransitionTo(PhaseState(n), PhaseName(n) + "_started");
      assert entered;
    }

    method Fail(n: nat)
      requires Entered(n)
      modifies machine
      ensures machine.Valid() && |machine.transitions| == n + 2 && machine.state == FailedState
    {
      var failed := machine.TransitionTo(FailedState, PhaseName(n) + "_failed");
      assert failed;
    }

    /** `_run_phase` for phase number `n`: both transitions it makes are legal. */
    method RunPhase<T>(n: nat, operation: nat -> OpOutcome<Option<T>>, maxRetries: nat)
      returns (value: Option<T>)
      requires n < PHASE_COUNT && Completed(n) && maxRetries == (if n == 1 then EXECUTION_RETRY else NO_RETRY)
      modifies this`phaseTraces, this`recoveryAttempts, machine
      ensures value == ValueOf(Settle(operation, 1, maxRetries))
      ensures if Settle(operation, 1, maxRetries).Returned? then Completed(n + 1) else FailedIn(n)
      ensures phaseTraces == old(phaseTraces) + [LogOf(n, operation, maxRetries).trace]
      ensures recoveryAttempts == old(recoveryAttempts) + LogOf(n, operation, maxRetries).attempts
    {
      Enter(n);
      var recovery := Execute(PhaseName(n), operation, maxRetries);
      var trace := TraceOf(n, recovery);
      TracesStep(phaseTraces, recoveryAttempts, n, operation, maxRetries, recovery);
      recoveryAttempts := recoveryAttempts + recovery.attempts;
      phaseTraces := phaseTraces + [trace];
      if recovery.GaveUp? {
        Fail(n);
        return None;
      }
      return recovery.value;
    }

    method Finish(report: ExecutionReport)
      requires Completed(PHASE_COUNT)
      modifies machine
      ensures Finished(Some(report))
    {
      var terminal := if report.status == Failed then FailedState else CompletedState;
      var accepted := machine.TransitionTo(terminal,
        if terminal == FailedState then "execution_report_failed" else "run_completed");
      assert accepted;
    }

    /** `run`, over engines that may fail, may be retried and may answer None. */
    method Run<P(!new), S(!new), I(!new)>(e: Engines<P, S, I>) returns (result: OrchestrationResult<P, S, I>)
      requires Completed(0)
      modifies this`phaseTraces, this`recoveryAttempts, machine
      ensures RunOf(e, result)
    {
      var plan := RunPhase(0, e.plan, NO_RETRY);
      if plan.None? {
        result := BuildResult(0, None, None, None, None, None);
        LoggedCons([], [], LogOf(0, e.plan, NO_RETRY), [], result);
        StoppedPlanning(e, result);
      } else {
        result := RunWithPlan(e, plan.value);
        LoggedCons([], [], LogOf(0, e.plan, NO_RETRY), PhasesWithPlan(e, plan.value), result);
        WentOn(e, plan.value, result);
      }
    }

    /** `run` from the executing phase on. */
    method RunWithPlan<P(!new), S(!new), I(!new)>(e: Engines<P, S, I>, plan: P)
      returns (result: OrchestrationResult<P, S, I>)
      requires Completed(1)
      modifies this`phaseTraces, this`recoveryAttempts, machine
      ensures WellEnded(result) && result.state == EndWithPlan(e, plan)
      ensures result.plan == Some(plan) && SectionsWithPlan(e, plan, result)
      ensures Logged(old(phaseTraces), old(recoveryAttempts), PhasesWithPlan(e, plan), result)
    {
      var executing := ExecuteOn(e, plan);
      var report := RunPhase(1, executing, EXECUTION_RETRY);
      if report.None? {
        result := BuildResult(1, Some(plan), None, None, None, None);
      } else {
        result := RunWithReport(e, plan, report.value);
      }
      LoggedCons(old(phaseTraces), old(recoveryAttempts), LogOf(1, executing, EXECUTION_RETRY),
        if report.None? then [] else PhasesWithReport(e, report.value), result);
    }

    /** The validating phase. */
    method RunValidating(report: ExecutionReport) returns (validation: Option<ValidationSummary>)
      requires Completed(2)
      modifies this`phaseTraces, this`recoveryAttempts, machine
      ensures if validation.Some? then ValidateReport(report) == Returned(validation.value) && Completed(3)
              else ValidateReport(report).Raises? && FailedIn(2)
      ensures phaseTraces == old(phaseTraces) + [LogOf(2, ValidateOn(report), NO_RETRY).trace]
      ensures recoveryAttempts == old(recoveryAttempts) + LogOf(2, ValidateOn(report), NO_RETRY).attempts
    {
      ValidationSettles(report);
      validation := RunPhase(2, ValidateOn(report), NO_RETRY);
    }

    /** A phase without retries whose operation never answers None. */
    method RunOnce<T>(n: nat, operation: nat -> OpOutcome<T>) returns (value: Option<T>)
      requires n < PHASE_COUNT && n != 1 && Completed(n)
      modifies this`phaseTraces, this`recoveryAttempts, machine
      ensures value == if operation(1).Returned? then Some(operation(1).value) else None
      ensures if operation(1).Returned? then Completed(n + 1) else FailedIn(n)
      ensures phaseTraces == old(phaseTraces) + [LogOf(n, NeverNone(operation), NO_RETRY).trace]
      ensures recoveryAttempts == old(recoveryAttempts) + LogOf(n, NeverNone(operation), NO_RETRY).attempts
    {
      NeverNoneSettles(operation);
      value := RunPhase(n, NeverNone(operation), NO_RETRY);
    }

    /** The early return after a failed validation. */
    method StopValidating<P(!new), S(!new), I(!new)>(ghost e: Engines<P, S, I>, plan: P, report: ExecutionReport,
      ghost traces: seq<PhaseTrace>, ghost attempts: seq<RecoveryAttempt>)
      returns (result: OrchestrationResult<P, S, I>)
      requires FailedIn(2) && ValidateReport(report).Raises?
      requires phaseTraces == traces + [LogOf(2, ValidateOn(report), NO_RETRY).trace]
      requires recoveryAttempts == attempts + LogOf(2, ValidateOn(report), NO_RETRY).attempts
      ensures RunFromReport(e, plan, report, result) && Logged(traces, attempts, PhasesWithReport(e, report), result)
    {
      result := BuildResult(2, Some(plan), Some(report), None, None, None);
      StoppedValidating(e, plan, report, result);
      LoggedCons(traces, attempts, LogOf(2, ValidateOn(report), NO_RETRY), [], result);
    }

    /** `run` from the validating phase on. */
    method RunWithReport<P(!new), S(!new), I(!new)>(e: Engines<P, S, I>, plan: P, report: ExecutionReport)
      returns (result: OrchestrationResult<P, S, I>)
      requires Completed(2)
      modifies this`phaseTraces, this`recoveryAttempts, machine
      ensures RunFromReport(e, plan, report, result)
      ensures Logged(old(phaseTraces), old(recoveryAttempts), PhasesWithReport(e, report), result)
    {
      var validation := RunValidating(report);
      if validation.None? {
        result := StopValidating(e, plan, report, old(phaseTraces), old(recoveryAttempts));
        return;
      }
      result := RunValidated(e, plan, report, validation.value);
      LoggedCons(old(phaseTraces), old(recoveryAttempts), LogOf(2, ValidateOn(report), NO_RETRY), PhasesValidated(e, report), result);
    }

    /** `run` from the reflecting phase on. */
    method RunValidated<P(!new), S(!new), I(!new)>(e: Engines<P, S, I>, plan: P, report: ExecutionReport,
      validation: ValidationSummary)
      returns (result: OrchestrationResult<P, S, I>)
      requires Completed(3) && ValidateReport(report) == Returned(validation)
      modifies this`phaseTraces, this`recoveryAttempts, machine
      ensures RunFromReport(e, plan, report, result)
      ensures Logged(old(phaseTraces), old(recoveryAttempts), PhasesValidated(e, report), result)
    {
      var reflection := RunOnce(3, ReflectOn(e, report));
      if reflection.None? {
        result := BuildResult(3, Some(plan), Some(report), Some(validation), None, None);
      } else {
        result := RunReflected(e, plan, report, validation, reflection.value);
      }
      LoggedCons(old(phaseTraces), old(recoveryAttempts), LogOf(3, NeverNone(ReflectOn(e, report)), NO_RETRY),
        if reflection.None? then [] else [LogOf(4, NeverNone(e.improve), NO_RETRY)], result);
    }

    /** The improving phase and, when it completes, the terminal transition. */
    method RunImproving<T>(operation: nat -> OpOutcome<T>, report: ExecutionReport) returns (value: Option<T>)
      requires Completed(4)
      modifies this`phaseTraces, this`recoveryAttempts, machine
      ensures value == if operation(1).Returned? then Some(operation(1).value) else None
      ensures if operation(1).Returned? then Finished(Some(report)) else FailedIn(4)
      ensures phaseTraces == old(phaseTraces) + [LogOf(4, NeverNone(operation), NO_RETRY).trace]
      ensures recoveryAttempts == old(recoveryAttempts) + LogOf(4, NeverNone(operation), NO_RETRY).attempts
    {
      value := RunOnce(4, operation);
      if value.Some? { Finish(report); }
    }

    /** `run` from the improving phase on. */
    method RunReflected<P(!new), S(!new), I(!new)>(e: Engines<P, S, I>, plan: P, report: ExecutionReport,
      validation: ValidationSummary, reflection: S)
      returns (result: OrchestrationResult<P, S, I>)
      requires Completed(4) && ValidateReport(report) == Returned(validation) && e.reflect(report, 1) == Returned(reflection)
      modifies this`phaseTraces, this`recoveryAttempts, machine
      ensures RunFromReport(e, plan, report, result)
      ensures Logged(old(phaseTraces), old(recoveryAttempts), [LogOf(4, NeverNone(e.improve), NO_RETRY)], result)
    {
      var improvement := RunImproving(e.improve, report);
      result := BuildResult(4, Some(plan), Some(report), Some(validation), Some(reflection), improvement);
      StoppedImproving(e, plan, report, validation, reflection, result);
      LoggedCons(old(phaseTraces), old(recoveryAttempts), LogOf(4, NeverNone(e.improve), NO_RETRY), [], result);
    }

    /** After phase `n` failed or answered None, or after the terminal transition. */
    ghost predicate Over(n: nat, report: Option<ExecutionReport>)
      reads this, machine
    {
      || FailedIn(n)
      || (n < 2 && Completed(n + 1))
      || (n == 4 && Finished(report))
    }

    ghost predicate Finished(report: Option<ExecutionReport>)
      reads this, machine
    {
      && machine.Valid() && |machine.transitions| == PHASE_COUNT + 1
      && AllDone(phaseTraces, recoveryAttempts, PHASE_COUNT)
      && report.Some? && machine.state == (if report.value.status == Failed then FailedState else CompletedState)
    }

    method BuildResult<P, S, I>(ghost n: nat, plan: Option<P>, report: Option<ExecutionReport>,
      validation: Option<ValidationSummary>, reflection: Option<S>, improvement: Option<I>)
      returns (result: OrchestrationResult<P, S, I>)
      requires Over(n, report)
      ensures result == OrchestrationResult(machine.state, machine.transitions, plan, report, validation, reflection,
        improvement, phaseTraces, recoveryAttempts, if improvement.None? then PhaseError(phaseTraces) else "")
      ensures WellEnded(result)
    {
      result := OrchestrationResult(machine.state, machine.transitions, plan, report, validation, reflection,
        improvement, phaseTraces, recoveryAttempts, if improvement.None? then PhaseError(phaseTraces) else "");
    }
  }

  /** A run in which no engine answers None ends in a terminal state; one that ends anywhere else met such an answer. */
  lemma EndsTerminal<P(!new), S(!new), I(!new)>(e: Engines<P, S, I>)
    ensures NonNull(e) ==> Terminal(EndOf(e))
    ensures !Terminal(EndOf(e)) <==>
      || Settle(e.plan, 1, NO_RETRY) == Returned(None)
      || (exists p :: Settle(e.plan, 1, NO_RETRY) == Returned(Some(p)) &&
           Settle(ExecuteOn(e, p), 1, EXECUTION_RETRY) == Returned(None))
  {
  }

  /** A run reports the error of its last phase, a generic one if that has none, and none if it got to the end. */
  lemma ErrorReported<P, S, I>(r: OrchestrationResult<P, S, I>)
    requires WellEnded(r)
    ensures var last := r.phaseTraces[|r.phaseTraces| - 1];
      r.error == if r.improvement.Some? then "" else if last.error != "" then last.error else "orchestration_failed"
    ensures r.error == "" <==> r.improvement.Some?
  {
    var n := |r.phaseTraces|;
    if r.phaseTraces[n - 1].error == "" { NoErrors(r.phaseTraces, n - 1); }
  }

  /** For one, when planning raises, planning is the only phase traced, and its failure is what the run reports. */
  lemma PlanningFailureReported<P(!new), S(!new), I(!new)>(e: Engines<P, S, I>, r: OrchestrationResult<P, S, I>)
    requires RunOf(e, r) && e.plan(1).Raises?
    ensures |r.phaseTraces| == 1 && !r.phaseTraces[0].completed && r.state == FailedState
    ensures r.error == if e.plan(1).error.message != "" then e.plan(1).error.message else "orchestration_failed"
  {
    ErrorReported(r);
    var planning := LogOf(0, e.plan, NO_RETRY);
    assert Phases(e) == [planning] + [];
    PhasesCons(planning, []);
    assert r.phaseTraces == [planning.trace];
  }

  /** When planning fails nothing is retried, whatever it raised. */
  lemma PlanningIsNeverRetried<P(!new), S(!new), I(!new)>(e: Engines<P, S, I>, r: OrchestrationResult<P, S, I>)
    requires RunOf(e, r) && e.plan(1).Raises?
    ensures |r.recoveryAttempts| == 1 && r.recoveryAttempts[0].attemptNumber == 1 && !r.recoveryAttempts[0].willRetry
    ensures r.recoveryAttempts[0].phase == "planning" && r.recoveryAttempts[0].error == e.plan(1).error.message
  {
    var planning := LogOf(0, e.plan, NO_RETRY);
    assert Phases(e) == [planning] + [];
    PhasesCons(planning, []);
    assert r.recoveryAttempts == planning.attempts;
  }

  /** The second phase of a run whose planning answered a plan: what is recorded of it, and what follows. */
  lemma ExecutingIsSecond<P(!new), S(!new), I(!new)>(e: Engines<P, S, I>, p: P, r: OrchestrationResult<P, S, I>)
    requires RunOf(e, r) && e.plan(1) == Returned(Some(p))
    ensures var l := LogOf(1, ExecuteOn(e, p), EXECUTION_RETRY);
      && |r.phaseTraces| >= 2 && r.phaseTraces[1] == l.trace && l.attempts <= r.recoveryAttempts
      && r.report == ValueOf(Settle(ExecuteOn(e, p), 1, EXECUTION_RETRY))
      && (r.report.None? ==> |r.phaseTraces| == 2 && r.recoveryAttempts == l.attempts)
  {
    var l := LogOf(1, ExecuteOn(e, p), EXECUTION_RETRY);
    var report := ValueOf(Settle(ExecuteOn(e, p), 1, EXECUTION_RETRY));
    var later := if report.None? then [] else PhasesWithReport(e, report.value);
    PlannedPhases(e, p);
    assert PhasesWithPlan(e, p) == [l] + later;
    PhasesCons(l, later);
  }

  lemma PlannedPhases<P(!new), S(!new), I(!new)>(e: Engines<P, S, I>, p: P)
    requires e.plan(1) == Returned(Some(p))
    ensures TracesIn(Phases(e)) == [LogOf(0, e.plan, NO_RETRY).trace] + TracesIn(PhasesWithPlan(e, p))
    ensures AttemptsIn(Phases(e)) == AttemptsIn(PhasesWithPlan(e, p))
  {
    PhasesCons(LogOf(0, e.plan, NO_RETRY), PhasesWithPlan(e, p));
  }

  lemma PhasesCons(l: PhaseLog, rest: seq<PhaseLog>)
    ensures TracesIn([l] + rest) == [l.trace] + TracesIn(rest)
    ensures AttemptsIn([l] + rest) == l.attempts + AttemptsIn(rest)
  {
    assert ([l] + rest)[1..] == rest;
  }

  /**
   A transient failure of the execution engine is retried once, and the second call decides: the run goes on
   with what it returned, or executing failed with two attempts.
   */
  lemma TransientFailureIsRetriedOnce<P(!new), S(!new), I(!new)>(e: Engines<P, S, I>, p: P, r: OrchestrationResult<P, S, I>)
    requires RunOf(e, r) && e.plan(1) == Returned(Some(p))
    requires e.execute(p, 1).Raises? && e.execute(p, 1).error.TransientError?
    ensures |r.phaseTraces| >= 2 && r.recoveryAttempts != []
    ensures r.recoveryAttempts[0] == RecoveryAttempt("executing", 1, Transient, e.execute(p, 1).error.message, true)
    ensures e.execute(p, 2).Returned? ==>
      r.report == e.execute(p, 2).value && r.phaseTraces[1].completed && r.phaseTraces[1].failedAttempts == 1
    ensures e.execute(p, 2).Raises? ==>
      && r.report == None && |r.phaseTraces| == 2 && !r.phaseTraces[1].completed && r.phaseTraces[1].failedAttempts == 2
      && r.state == FailedState && |r.recoveryAttempts| == 2 && !r.recoveryAttempts[1].willRetry
  {
    ExecutingIsSecond(e, p, r);
    var operation := ExecuteOn(e, p);
    assert operation(1) == e.execute(p, 1) && operation(2) == e.execute(p, 2);
    assert AttemptsOf(operation, "executing", 2, 0) == [] || |AttemptsOf(operation, "executing", 2, 0)| == 1;
  }

  /** Any other failure of the execution engine ends the run at once. */
  lemma OtherFailureIsNotRetried<P(!new), S(!new), I(!new)>(e: Engines<P, S, I>, p: P, r: OrchestrationResult<P, S, I>)
    requires RunOf(e, r) && e.plan(1) == Returned(Some(p))
    requires e.execute(p, 1).Raises? && !e.execute(p, 1).error.TransientError?
    ensures r.report == None && |r.phaseTraces| == 2 && !r.phaseTraces[1].completed && r.state == FailedState
    ensures |r.recoveryAttempts| == 1 && r.recoveryAttempts[0] == RecoveryAttempt("executing", 1,
      if e.execute(p, 1).error.PolicyViolationError? then PolicyViolation else Deterministic,
      e.execute(p, 1).error.message, false)
  {
    ExecutingIsSecond(e, p, r);
    assert ExecuteOn(e, p)(1) == e.execute(p, 1);
  }

  /** An execution engine that answers at once leaves no attempt, and its report is the run's. */
  lemma FirstAnswerIsUsed<P(!new), S(!new), I(!new)>(e: Engines<P, S, I>, p: P, r: OrchestrationResult<P, S, I>)
    requires RunOf(e, r) && e.plan(1) == Returned(Some(p)) && e.execute(p, 1).Returned?
    ensures r.report == e.execute(p, 1).value
    ensures |r.phaseTraces| >= 2 && r.phaseTraces[1].completed && r.phaseTraces[1].failedAttempts == 0
  {
    ExecutingIsSecond(e, p, r);
    assert ExecuteOn(e, p)(1) == e.execute(p, 1);
  }

  /** An instance of the run that does not end: planning answers None. */
  lemma NoneAnswerEndsPlanning<P(!new), S(!new), I(!new)>(e: Engines<P, S, I>)
    requires e.plan(1) == Returned(None)
    ensures EndOf(e) == Planning && !Terminal(EndOf(e)) && !NonNull(e)
  {
  }

  lemma {:induction false} NoErrors(traces: seq<PhaseTrace>, n: nat)
    requires PhasePrefix(traces) && n < |traces|
    ensures PhaseError(traces[..n]) == "orchestration_failed"
  {
    if n > 0 {
      assert TracesPhase(traces, n - 1);
      assert traces[..n][..n - 1] == traces[..n - 1];
      NoErrors(traces, n - 1);
    }
  }

  /** The traces are those of planning, executing, validating, reflecting and improving, as far as the run got. */
  lemma TracesNamePhases<P, S, I>(r: OrchestrationResult<P, S, I>, i: nat)
    requires WellEnded(r) && i < |r.phaseTraces|
    ensures i < 5 && r.phaseTraces[i].phase == ["planning", "executing", "validating", "reflecting", "improving"][i]
    ensures r.phaseTraces[i].state == [Planning, Executing, Validating, Reflecting, Improving][i]
    ensures i < |r.phaseTraces| - 1 ==> r.phaseTraces[i].completed
  {
    assert TracesPhase(r.phaseTraces, i);
  }

  /** The transitions enter exactly the traced phases in order, then at most the terminal state. */
  lemma TransitionsFollowTraces<P, S, I>(r: OrchestrationResult<P, S, I>)
    requires WellEnded(r)
    ensures forall i :: 0 <= i < |r.phaseTraces| ==> r.history[i].toState == r.phaseTraces[i].state
  {
    forall i | 0 <= i < |r.phaseTraces| ensures r.history[i].toState == r.phaseTraces[i].state {
      assert TracesPhase(r.phaseTraces, i);
      EntersPhase(r.history, i);
    }
  }

  /** A legal history that goes on after transition `i`, or has not failed, entered phase `i` there. */
  lemma {:induction false} EntersPhase(history: seq<StateTransition>, i: nat)
    requires Legal(history) && i < |history| && i < PHASE_COUNT
    requires i < |history| - 1 || history[i].toState != FailedState
    ensures history[i].toState == PhaseState(i)
  {
    assert LegalAt(history, i);
    if i < |history| - 1 { assert LegalAt(history, i + 1); }
    if i > 0 { EntersPhase(history, i - 1); }
  }

  /** A run ends COMPLETED exactly when all five phases completed on a report that is not FAILED. */
  lemma CompletedExactly<P, S, I>(r: OrchestrationResult<P, S, I>)
    requires WellEnded(r)
    ensures r.state == CompletedState <==>
      && |r.phaseTraces| == PHASE_COUNT && (forall t :: t in r.phaseTraces ==> t.completed)
      && !(r.report.Some? && r.report.value.status == Failed)
  {
  }

  /** With the runner as execution engine only planning, reflecting and improving can fail; the rest is the tasks. */
  lemma RunnerBackedRun<P(!new), S(!new), I(!new)>(e: Engines<P, S, I>, plan: P,
    tasks: seq<TaskNode>, h: map<Id, HandlerResult>, stop: bool)
    requires e.plan(1) == Returned(Some(plan))
    requires e.execute(plan, 1) == Returned(Some(BuildReport(Final(tasks, h, stop))))
    ensures EndOf(e) == CompletedState <==>
      && (forall t :: t in Final(tasks, h, stop) ==> t.status == Completed)
      && e.reflect(BuildReport(Final(tasks, h, stop)), 1).Returned? && e.improve(1).Returned?
    ensures Terminal(EndOf(e))
  {
    RunnerReportsValidate(tasks, h, stop);
  }
}
