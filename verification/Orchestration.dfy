/** The orchestration lifecycle: a strict state machine, bounded recovery and the five phases. */
module Orchestration {
  import opened Ordering
  import opened PlanGraph
  import opened Runner

  // ---------- the state machine ----------

  datatype SystemState =
    | Initialized | Planning | Executing | Validating | Reflecting | Improving | CompletedState | FailedState

  function AllowedTransitions(s: SystemState): set<SystemState> {
    match s
    case Initialized => {Planning, FailedState}
    case Planning => {Executing, FailedState}
    case Executing => {Validating, FailedState}
    case Validating => {Reflecting, FailedState}
    case Reflecting => {Improving, FailedState}
    case Improving => {CompletedState, FailedState}
    case CompletedState => {}
    case FailedState => {}
  }

  const LIFECYCLE := [Initialized, Planning, Executing, Validating, Reflecting, Improving, CompletedState]

  predicate NextInLifecycle(i: int, s: SystemState, t: SystemState) {
    0 <= i < |LIFECYCLE| - 1 && LIFECYCLE[i] == s && LIFECYCLE[i + 1] == t
  }

  /** Allowed are the next state of the lifecycle and, from every state that is not terminal, FAILED. */
  lemma AllowedExactly(s: SystemState, t: SystemState)
    ensures t in AllowedTransitions(s) <==> (t == FailedState && !Terminal(s)) || exists i :: NextInLifecycle(i, s, t)
  {
    if t in AllowedTransitions(s) && t != FailedState { assert NextInLifecycle(Progress(s), s, t); }
  }

  predicate Terminal(s: SystemState) {
    s == CompletedState || s == FailedState
  }

  datatype StateTransition = StateTransition(index: nat, fromState: SystemState, toState: SystemState, reason: string)

  /** Transition `i` starts where the one before ended, is numbered from 1 and is allowed. */
  ghost predicate LegalAt(history: seq<StateTransition>, i: int) {
    && 0 <= i < |history|
    && history[i].index == i + 1
    && history[i].fromState == (if i == 0 then Initialized else history[i - 1].toState)
    && history[i].toState in AllowedTransitions(history[i].fromState)
  }

  ghost predicate Legal(history: seq<StateTransition>) {
    forall i :: 0 <= i < |history| ==> LegalAt(history, i)
  }

  function StateAfter(history: seq<StateTransition>): SystemState {
    if history == [] then Initialized else history[|history| - 1].toState
  }

  function Progress(s: SystemState): nat {
    match s
    case Initialized => 0
    case Planning => 1
    case Executing => 2
    case Validating => 3
    case Reflecting => 4
    case Improving => 5
    case CompletedState => 6
    case FailedState => 6
  }

  /** No legal history visits a state twice, leaves a terminal state, or has more than six transitions. */
  lemma LegalHistoriesAreBounded(history: seq<StateTransition>)
    requires Legal(history)
    ensures |history| <= Progress(StateAfter(history)) <= 6
    ensures forall i, j :: 0 <= i < j < |history| ==> history[i].toState != history[j].toState
    ensures forall i :: 0 <= i < |history| ==> history[i].toState != Initialized
    ensures forall i :: 0 <= i < |history| - 1 ==> !Terminal(history[i].toState)
  {
    ProgressGrows(history);
  }

  lemma {:induction false} ProgressGrows(history: seq<StateTransition>)
    requires Legal(history)
    ensures |history| <= Progress(StateAfter(history))
    ensures forall i, j :: 0 <= i < j < |history| ==> Progress(history[i].toState) < Progress(history[j].toState)
    ensures forall i :: 0 <= i < |history| ==> Progress(history[i].toState) > 0
  {
    if history != [] {
      var n := |history| - 1;
      var init := history[..n];
      forall i | 0 <= i < |init| ensures LegalAt(init, i) { assert LegalAt(history, i); }
      ProgressGrows(init);
      assert LegalAt(history, n);
      assert Progress(history[n].toState) > Progress(StateAfter(init));
      forall i, j | 0 <= i < j < |history| ensures Progress(history[i].toState) < Progress(history[j].toState) {
        assert history[i] == init[i];
        if j < n { assert history[j] == init[j]; }
      }
    }
  }

  class SystemStateMachine {
    var state: SystemState
    var transitions: seq<StateTransition>

    ghost predicate Valid()
      reads this
    {
      Legal(transitions) && state == StateAfter(transitions)
    }

    constructor ()
      ensures Valid() && state == Initialized && transitions == []
    {
      state, transitions := Initialized, [];
    }

    predicate CanTransitionTo(newState: SystemState)
      reads this
    {
      newState in AllowedTransitions(state)
    }

    /** An invalid request is refused and changes nothing. */
    method TransitionTo(newState: SystemState, reason: string) returns (accepted: bool)
      requires Valid()
      modifies this
      ensures Valid()
      ensures accepted <==> newState in AllowedTransitions(old(state))
      ensures !accepted ==> state == old(state) && transitions == old(transitions)
      ensures accepted ==>
        && state == newState
        && transitions == old(transitions) + [StateTransition(|old(transitions)| + 1, old(state), newState, reason)]
    {
      if !CanTransitionTo(newState) { return false; }
      ghost var before := transitions;
      transitions := transitions + [StateTransition(|transitions| + 1, state, newState, reason)];
      forall i | 0 <= i < |transitions| ensures LegalAt(transitions, i) {
        if i < |before| { assert LegalAt(before, i); }
      }
      state := newState;
      return true;
    }
  }

  // ---------- recovery ----------

  /** The exception classes the categoriser knows, and every other exception. */
  datatype Error = PolicyViolationError(message: string) | TransientError(message: string)
    | DeterministicError(message: string) | OtherError(message: string)

  datatype FailureCategory = Transient | Deterministic | PolicyViolation

  function CategorizeFailure(e: Error): FailureCategory {
    match e
    case PolicyViolationError(_) => PolicyViolation
    case TransientError(_) => Transient
    case DeterministicError(_) => Deterministic
    case OtherError(_) => Deterministic
  }

  /** Which class of exception is recorded as what; only transient ones may be retried. */
  lemma CategoryOfEachError(message: string)
    ensures CategorizeFailure(PolicyViolationError(message)) == PolicyViolation
    ensures CategorizeFailure(TransientError(message)) == Transient
    ensures CategorizeFailure(DeterministicError(message)) == Deterministic
    ensures CategorizeFailure(OtherError(message)) == Deterministic
  {
  }

  datatype OpOutcome<+T> = Returned(value: T) | Raises(error: Error)

  datatype RecoveryAttempt = RecoveryAttempt(
    phase: string, attemptNumber: nat, category: FailureCategory, error: string, willRetry: bool)

  datatype RecoveryResult<+T> =
    | Recovered(value: T, attempts: seq<RecoveryAttempt>)
    | GaveUp(attempts: seq<RecoveryAttempt>, finalError: string, category: FailureCategory)

  /** Attempt number `k` failed, and is retried exactly when transient and within the limit. */
  ghost predicate FailedAttempt<T>(operation: nat -> OpOutcome<T>, phase: string, maxRetries: nat, a: RecoveryAttempt, k: nat) {
    && operation(k).Raises?
    && a == RecoveryAttempt(phase, k, CategorizeFailure(operation(k).error), operation(k).error.message,
         CategorizeFailure(operation(k).error) == Transient && k <= maxRetries)
  }

  /** The first `n` attempts failed and all were retried. */
  ghost predicate RetriedAll<T>(operation: nat -> OpOutcome<T>, phase: string, maxRetries: nat, attempts: seq<RecoveryAttempt>) {
    forall i :: 0 <= i < |attempts| ==>
      FailedAttempt(operation, phase, maxRetries, attempts[i], i + 1) && attempts[i].willRetry
  }

  /** What `execute` returns: it stops at the first success or at the first failure it may not retry. */
  ghost predicate RecoveryOf<T>(operation: nat -> OpOutcome<T>, phase: string, maxRetries: nat, r: RecoveryResult<T>) {
    match r
    case Recovered(value, attempts) =>
      RetriedAll(operation, phase, maxRetries, attempts) && operation(|attempts| + 1) == Returned(value)
    case GaveUp(attempts, finalError, category) =>
      && attempts != [] && RetriedAll(operation, phase, maxRetries, attempts[..|attempts| - 1])
      && FailedAttempt(operation, phase, maxRetries, attempts[|attempts| - 1], |attempts|)
      && !attempts[|attempts| - 1].willRetry
      && finalError == attempts[|attempts| - 1].error && category == attempts[|attempts| - 1].category
  }

  /** `RecoveryManager.execute`; `operation(k)` is what attempt number `k` does. */
  method Execute<T>(phase: string, operation: nat -> OpOutcome<T>, maxRetries: nat) returns (r: RecoveryResult<T>)
    ensures RecoveryOf(operation, phase, maxRetries, r)
    ensures |r.attempts| <= maxRetries + (if r.Recovered? then 0 else 1)
  {
    var attempts: seq<RecoveryAttempt> := [];
    var attemptNumber := 1;
    while true
      invariant attemptNumber == |attempts| + 1 <= maxRetries + 1
      invariant RetriedAll(operation, phase, maxRetries, attempts)
      decreases maxRetries + 1 - attemptNumber
    {
      var outcome := operation(attemptNumber);
      if outcome.Returned? { return Recovered(outcome.value, attempts); }
      var category := CategorizeFailure(outcome.error);
      var willRetry := category == Transient && attemptNumber <= maxRetries;
      var attempt := RecoveryAttempt(phase, attemptNumber, category, outcome.error.message, willRetry);
      ghost var before := attempts;
      attempts := attempts + [attempt];
      assert attempts[..|attempts| - 1] == before;
      if willRetry {
        attemptNumber := attemptNumber + 1;
        continue;
      }
      return GaveUp(attempts, outcome.error.message, category);
    }
  }

  // ---------- report validation ----------

  datatype ValidationSummary = ValidationSummary(status: Status, total: nat, completed: nat, failed: nat, skipped: nat)

  /** `_validate_execution_report` */
  function ValidateReport(r: ExecutionReport): OpOutcome<ValidationSummary> {
    if |r.tasks| != r.totalTasks then
      Raises(OtherError("execution report task count does not match total_tasks"))
    else if r.completedTasks + r.failedTasks + r.skippedTasks != r.totalTasks then
      Raises(OtherError("execution report counts do not add up to total_tasks"))
    else if r.failedTasks > 0 && r.status != Failed then
      Raises(OtherError("failed execution report must have failed status"))
    else if r.failedTasks == 0 && r.skippedTasks == 0 && r.status != Completed then
      Raises(OtherError("successful execution report must have completed status"))
    else Returned(ValidationSummary(r.status, r.totalTasks, r.completedTasks, r.failedTasks, r.skippedTasks))
  }

  /** A report passes exactly when its counts match its tasks and each other and its status agrees with them. */
  lemma ValidationExactly(r: ExecutionReport)
    ensures ValidateReport(r).Returned? <==>
      && r.totalTasks == |r.tasks| == r.completedTasks + r.failedTasks + r.skippedTasks
      && (r.failedTasks > 0 ==> r.status == Failed)
      && (r.failedTasks == r.skippedTasks == 0 ==> r.status == Completed)
    ensures ValidateReport(r).Returned? ==>
      ValidateReport(r).value == ValidationSummary(r.status, r.totalTasks, r.completedTasks, r.failedTasks, r.skippedTasks)
  {
  }

  /** The first thing that does not match is the error, a deterministic one. */
  lemma ValidationError(r: ExecutionReport)
    requires ValidateReport(r).Raises?
    ensures ValidateReport(r).error == OtherError(
      if |r.tasks| != r.totalTasks then "execution report task count does not match total_tasks"
      else if r.completedTasks + r.failedTasks + r.skippedTasks != r.totalTasks then
        "execution report counts do not add up to total_tasks"
      else if r.failedTasks > 0 then "failed execution report must have failed status"
      else "successful execution report must have completed status")
  {
  }

  /** Every report the runner builds, in either mode and for any plan, passes validation. */
  lemma RunnerReportsValidate(plan: seq<TaskNode>, h: map<Id, HandlerResult>, stop: bool)
    ensures var report := BuildReport(Final(plan, h, stop));
      && ValidateReport(report).Returned?
      && (report.status == Completed <==> forall t :: t in report.tasks ==> t.status == Completed)
  {
    FinalReportsOn(plan, h, stop);
  }
}
