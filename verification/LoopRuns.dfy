/** What holds of every run of the loop controller. */
module LoopRuns {
  import opened Ordering
  import opened Decisions
  import opened LoopControllers

  // ---------- runs are determined ----------

  lemma {:induction false} SameRecords(a: seq<LoopRecord>, b: seq<LoopRecord>, n: nat, world: World, table: Table, s: Settings)
    requires Follows(a, world, table, s) && Follows(b, world, table, s) && n <= |a| && n <= |b|
    ensures a[..n] == b[..n]
  {
    if n > 0 {
      SameRecords(a, b, n - 1, world, table, s);
      assert FollowsAt(a, n - 1, world, table, s) && FollowsAt(b, n - 1, world, table, s);
      PrefixStep(a, n - 1);
      PrefixStep(b, n - 1);
    }
  }

  /** The oracles, the settings and the starting statistics determine what is saved and what is returned. */
  lemma RunsAreDetermined(a: seq<LoopRecord>, b: seq<LoopRecord>, world: World, table: Table, s: Settings)
    requires Follows(a, world, table, s) && Follows(b, world, table, s)
    requires Verdict(a, world, s).Some? && Verdict(b, world, s).Some?
    ensures a == b
  {
    SameRecords(a, b, if |a| < |b| then |a| else |b|, world, table, s);
    assert a[..|a|] == a && b[..|b|] == b;
    if |a| < |b| { Undecided(b, |a|, world, table, s); }
    if |b| < |a| { Undecided(a, |b|, world, table, s); }
  }

  /** A run that wrote more records had not ended before. */
  lemma Undecided(log: seq<LoopRecord>, n: nat, world: World, table: Table, s: Settings)
    requires Follows(log, world, table, s) && n < |log|
    ensures Verdict(log[..n], world, s) == None
  {
    assert FollowsAt(log, n, world, table, s);
  }

  // ---------- statistics and decisions ----------

  /** Whatever happens in a run, its statistics stay valid. */
  lemma {:induction false} StatisticsStayValid(table: Table, log: seq<LoopRecord>)
    requires TableOk(table)
    ensures TableOk(TableAfter(table, log))
  {
    if log != [] {
      var last, init := log[|log| - 1], log[..|log| - 1];
      StatisticsStayValid(table, init);
      UpdateKeepsTable(TableAfter(table, init), last.pattern, last.decision, last.success);
    }
  }

  /** Record `r` reports the executor's answer: its success flag, its error type or the default one; exactly the successes advance. */
  ghost predicate Reports(r: LoopRecord, answer: ExecResult) {
    && (r.success <==> answer.success == Some(true))
    && r.pattern == (if answer.errorType.Some? then answer.errorType.value else if r.success then "none" else "runtime_error")
    && (r.decision == AdvanceStep <==> r.success)
  }

  /** There is one record per executor call, in call order; violations, and only they, are escalated. */
  lemma OneRecordPerCall(log: seq<LoopRecord>, world: World, table: Table, s: Settings, i: nat)
    requires Follows(log, world, table, s) && i < |log|
    ensures Reports(log[i], world.execute(i + 1))
    ensures log[i].decision == Escalate <==>
      !log[i].success && (log[i].pattern == "policy_violation" || log[i].pattern == "security_violation")
  {
    assert FollowsAt(log, i, world, table, s);
  }

  /** While success is only credited to advancing, nothing is aborted, and it stays that way. */
  lemma {:induction false} NothingAborted(log: seq<LoopRecord>, world: World, table: Table, s: Settings)
    requires Follows(log, world, table, s) && TableOk(table) && CreditOnlyAdvance(table)
    ensures CreditOnlyAdvance(TableAfter(table, log))
    ensures forall i :: 0 <= i < |log| ==> log[i].decision != Abort
  {
    if log != [] {
      var n := |log| - 1;
      FollowsPrefix(log, n, world, table, s);
      NothingAborted(log[..n], world, table, s);
      StatisticsStayValid(table, log[..n]);
      NotAbortedAt(log, n, world, table, s);
      UpdateKeepsCredit(TableAfter(table, log[..n]), log[n].pattern, log[n].decision, log[n].success);
      forall i | 0 <= i < n ensures log[i].decision != Abort { assert log[i] == log[..n][i]; }
    }
  }

  lemma NotAbortedAt(log: seq<LoopRecord>, i: nat, world: World, table: Table, s: Settings)
    requires Follows(log, world, table, s) && i < |log|
    requires TableOk(TableAfter(table, log[..i])) && CreditOnlyAdvance(TableAfter(table, log[..i]))
    ensures log[i].decision != Abort && (log[i].success ==> log[i].decision == AdvanceStep)
  {
    assert FollowsAt(log, i, world, table, s);
  }

  /**
   A controller whose statistics credit advancing only, reading a memory that is empty or holds
   controller-written records, keeps both properties and never returns "abort".
   */
  lemma ControllerNeverAborts(known: Table, world: World, table: Table, log: seq<LoopRecord>, s: Settings)
    requires TableOk(known) && CreditOnlyAdvance(known) && ControllerWritten(world.retrieve(0).recent)
    requires table == MergeStats(known, FoldStats(world.retrieve(0).recent)) && Follows(log, world, table, s)
    ensures TableOk(TableAfter(table, log)) && CreditOnlyAdvance(TableAfter(table, log))
    ensures forall i :: 0 <= i < |log| ==> log[i].decision != Abort
    ensures Verdict(log, world, s) != Some(Failure(|log|, Aborted))
  {
    FoldIsValid(world.retrieve(0).recent);
    StatisticsStayValid(table, log);
    NothingAborted(log, world, table, s);
  }

  // ---------- accounting ----------

  lemma {:induction false} BelowThreshold(log: seq<LoopRecord>, world: World, table: Table, s: Settings)
    requires Follows(log, world, table, s)
    requires Verdict(log, world, s).None? || Verdict(log, world, s).value.Stopped? || Verdict(log, world, s).value.Success?
    ensures Failures(log) == 0 || Failures(log) < s.failureThreshold
  {
    if log != [] {
      var n := |log| - 1;
      assert FollowsAt(log, n, world, table, s);
      FollowsPrefix(log, n, world, table, s);
      BelowThreshold(log[..n], world, table, s);
    }
  }

  /** What a result says about the records, of which there is one per executor call. */
  ghost predicate Accounts(log: seq<LoopRecord>, result: LoopResult, s: Settings) {
    && result.iterations == |log|
    && (log != [] ==> |log| <= s.maxIterations)
    && Failures(log) + Successes(log, 0, |log|) == |log|
    && match result
       case Success(_, _) => Failures(log) == 0 || Failures(log) < s.failureThreshold
       case Failure(_, Escalated) => log != [] && log[|log| - 1].decision == Escalate
       case Failure(_, Aborted) => log != [] && log[|log| - 1].decision == Abort
       case Failure(_, FailureThreshold) => log != [] && !log[|log| - 1].success && Failures(log) >= s.failureThreshold
       case Stopped(_) => |log| >= s.maxIterations && (Failures(log) == 0 || Failures(log) < s.failureThreshold)
  }

  lemma RunAccounts(log: seq<LoopRecord>, world: World, table: Table, s: Settings, result: LoopResult)
    requires Follows(log, world, table, s) && Verdict(log, world, s) == Some(result)
    ensures Accounts(log, result, s)
  {
    if log != [] { assert FollowsAt(log, |log| - 1, world, table, s); }
    if result.Success? || result.Stopped? { BelowThreshold(log, world, table, s); }
    FailuresAndSuccesses(log);
  }

  /** The advances among the records from position `a` up to position `b`. */
  function Successes(log: seq<LoopRecord>, a: nat, b: nat): (n: nat)
    requires a <= b <= |log|
    ensures n <= b - a
  {
    if a == b then 0 else Successes(log, a, b - 1) + (if log[b - 1].success then 1 else 0)
  }

  lemma {:induction false} SuccessesPrefix(log: seq<LoopRecord>, n: nat, a: nat, b: nat)
    requires a <= b <= n <= |log|
    ensures Successes(log[..n], a, b) == Successes(log, a, b)
    decreases b
  {
    if a < b { SuccessesPrefix(log, n, a, b - 1); }
  }

  lemma {:induction false} FailuresAndSuccesses(log: seq<LoopRecord>)
    ensures Failures(log) + Successes(log, 0, |log|) == |log|
  {
    if log != [] {
      FailuresAndSuccesses(log[..|log| - 1]);
      SuccessesPrefix(log, |log| - 1, 0, |log| - 1);
    }
  }

  // ---------- steps ----------

  /** The index the recorded step had: an advance has already moved past it. */
  function ExecutedIndex(r: LoopRecord): int {
    if r.success then r.plan.currentStep - 1 else r.plan.currentStep
  }

  /** Two step lists that differ at most in one position. */
  ghost predicate SameExcept(a: seq<Step>, b: seq<Step>, index: int) {
    |a| == |b| && forall k :: 0 <= k < |a| && k != index ==> a[k] == b[k]
  }

  /** Record `i` executed the current step of its plan and edited at most that step. */
  ghost predicate StepTakenAt(log: seq<LoopRecord>, i: int, world: World) {
    && 0 <= i < |log|
    && var plan, index := PlanBefore(log[..i], world), ExecutedIndex(log[i]);
      && PlanOk(plan) && PlanOk(log[i].plan) && plan.currentStep == index < |plan.steps|
      && log[i].step == plan.steps[index] && SameExcept(plan.steps, log[i].plan.steps, index)
  }

  /** Over the whole run, across all plans, repair and adjustment touch the executed step only, never length or index. */
  lemma Stepwise(log: seq<LoopRecord>, world: World, table: Table, s: Settings, i: nat)
    requires Follows(log, world, table, s) && i < |log|
    ensures StepTakenAt(log, i, world)
    ensures var plan := AfterRecord(log[i]);
      plan.currentStep == log[i].plan.currentStep && SameExcept(log[i].plan.steps, plan.steps, ExecutedIndex(log[i]))
  {
    assert FollowsAt(log, i, world, table, s);
    FollowsPrefix(log, i, world, table, s);
    PlansStayOk(log[..i], world, table, s);
  }

  // ---------- the active plan since it was installed ----------

  /** The position at which the plan that is active after `log` was asked for. */
  function Base(log: seq<LoopRecord>): (base: nat)
    ensures base <= |log|
    ensures base > 0 ==> log[base - 1].decision == AdjustPlan
    ensures forall i :: base <= i < |log| ==> log[i].decision != AdjustPlan
  {
    if Installs(log) then |log| else Base(log[..|log| - 1])
  }

  /** That plan, as the planner answered it. */
  function Installed(log: seq<LoopRecord>, world: World): StepPlan {
    PlanBefore(log[..Base(log)], world)
  }

  /** Record `i` executed the installed plan's index after the advances so far; later steps are still the planner's. */
  ghost predicate ExecutedAt(log: seq<LoopRecord>, base: nat, i: nat, installed: StepPlan) {
    && base <= i < |log| && |log[i].plan.steps| == |installed.steps|
    && 0 <= ExecutedIndex(log[i]) == installed.currentStep + Successes(log, base, i) < |installed.steps|
    && (forall k :: ExecutedIndex(log[i]) < k < |installed.steps| ==> log[i].plan.steps[k] == installed.steps[k])
    && (i == base || log[i - 1].success ==> log[i].step == installed.steps[ExecutedIndex(log[i])])
  }

  /** The active plan's index counts the advances since it was installed; all records since then executed it in order. */
  ghost predicate Traced(log: seq<LoopRecord>, world: World) {
    var base, installed, plan := Base(log), Installed(log, world), PlanBefore(log, world);
    && PlanOk(installed) && |plan.steps| == |installed.steps|
    && plan.currentStep == installed.currentStep + Successes(log, base, |log|)
    && forall i: nat :: base <= i < |log| ==> ExecutedAt(log, base, i, installed)
  }

  /** Every state of every run is traced back to the planner's answer. */
  lemma {:induction false} RunsAreTraced(log: seq<LoopRecord>, world: World, table: Table, s: Settings)
    requires Follows(log, world, table, s)
    ensures Traced(log, world)
  {
    assert log[..|log|] == log;
    PlansStayOk(log, world, table, s);
    if !Installs(log) {
      var n := |log| - 1;
      var init := log[..n];
      FollowsPrefix(log, n, world, table, s);
      RunsAreTraced(init, world, table, s);
      Stepwise(log, world, table, s, n);
      assert FollowsAt(log, n, world, table, s);
      TracedStep(log, world);
    }
  }

  lemma {:induction false} TracedStep(log: seq<LoopRecord>, world: World)
    requires !Installs(log) && Traced(log[..|log| - 1], world)
    requires StepTakenAt(log, |log| - 1, world)
    ensures Traced(log, world)
  {
    var n := |log| - 1;
    var init, base, installed := log[..n], Base(log), Installed(log, world);
    assert init[..base] == log[..base];
    SuccessesPrefix(log, n, base, n);
    assert init[..n] == init;
    forall i: nat | base <= i < n ensures ExecutedAt(log, base, i, installed) { ExecutedStays(log, base, i, installed); }
    ExecutedLast(log, world);
  }

  lemma ExecutedStays(log: seq<LoopRecord>, base: nat, i: nat, installed: StepPlan)
    requires log != [] && ExecutedAt(log[..|log| - 1], base, i, installed)
    ensures ExecutedAt(log, base, i, installed)
  {
    SuccessesPrefix(log, |log| - 1, base, i);
  }

  lemma {:induction false} ExecutedLast(log: seq<LoopRecord>, world: World)
    requires !Installs(log) && Traced(log[..|log| - 1], world)
    requires StepTakenAt(log, |log| - 1, world)
    ensures ExecutedAt(log, Base(log), |log| - 1, Installed(log, world))
  {
    var n := |log| - 1;
    var init, base := log[..n], Base(log);
    assert init[..base] == log[..base];
    SuccessesPrefix(log, n, base, n);
    if base < n { assert ExecutedAt(init, base, n - 1, Installed(log, world)); } else { assert init[..n] == init; }
  }

  /** The (m + 1)-th advance since `base`. */
  lemma {:induction false} FindAdvance(log: seq<LoopRecord>, base: nat, n: nat, m: nat) returns (i: nat)
    requires base <= n <= |log| && m < Successes(log, base, n)
    ensures base <= i < n && log[i].success && Successes(log, base, i) == m
    decreases n
  {
    if m < Successes(log, base, n - 1) { i := FindAdvance(log, base, n - 1, m); } else { i := n - 1; }
  }

  lemma {:induction false} SuccessesMonotone(log: seq<LoopRecord>, base: nat, i: nat, j: nat)
    requires base <= i <= j <= |log|
    ensures Successes(log, base, i) <= Successes(log, base, j)
    decreases j
  {
    if i < j { SuccessesMonotone(log, base, i, j - 1); }
  }

  /**
   A "success" result means that the plan the planner answered last is finished: since it was installed the
   executor succeeded on every index from its start index to its end, lower indices before higher ones.
   */
  lemma SuccessMeansExecuted(log: seq<LoopRecord>, world: World, table: Table, s: Settings, completed: nat, k: nat)
    returns (i: nat)
    requires Follows(log, world, table, s) && Verdict(log, world, s) == Some(Success(|log|, completed))
    requires Installed(log, world).currentStep <= k < |Installed(log, world).steps|
    ensures completed == |Installed(log, world).steps|
    ensures Base(log) <= i < |log| && ExecutedIndex(log[i]) == k && world.execute(i + 1).success == Some(true)
    ensures forall j :: Base(log) <= j < |log| && log[j].success && ExecutedIndex(log[j]) < k ==> j < i
    ensures forall j :: Base(log) <= j < |log| && log[j].success && ExecutedIndex(log[j]) > k ==> i < j
  {
    var base, installed := Base(log), Installed(log, world);
    PlansStayOk(log, world, table, s);
    RunsAreTraced(log, world, table, s);
    SuccessIsFinished(log, world, table, s, completed);
    i := FindAdvance(log, base, |log|, k - installed.currentStep);
    assert ExecutedAt(log, base, i, installed);
    OneRecordPerCall(log, world, table, s, i);
    forall j: nat | base <= j < |log| && log[j].success
      ensures ExecutedIndex(log[j]) < k ==> j < i
      ensures ExecutedIndex(log[j]) > k ==> i < j
    {
      assert ExecutedAt(log, base, j, installed);
      if j < i { SuccessesMonotone(log, base, j + 1, i); } else if i < j { SuccessesMonotone(log, base, i + 1, j); }
    }
  }

  /** A run succeeds only on a finished plan, of which it reports the length. */
  lemma SuccessIsFinished(log: seq<LoopRecord>, world: World, table: Table, s: Settings, completed: nat)
    requires Follows(log, world, table, s) && Verdict(log, world, s) == Some(Success(|log|, completed))
    ensures var plan := PlanBefore(log, world); plan.currentStep == |plan.steps| == completed
  {
    PlansStayOk(log, world, table, s);
    if log != [] { OneRecordPerCall(log, world, table, s, |log| - 1); }
  }

  // ---------- what the controller saves ----------

  /** A saved record as `retrieve` hands it back. */
  function AsMemory(r: LoopRecord): MemoryRecord {
    MemoryRecord(r.pattern, r.pattern, Some(r.decision), r.success)
  }

  /** Whatever the controller saved satisfies the hypothesis under which it never aborts. */
  lemma SavedRecordsAreControllerWritten(log: seq<LoopRecord>, world: World, table: Table, s: Settings, recent: seq<MemoryRecord>)
    requires Follows(log, world, table, s)
    requires forall r :: r in recent ==> exists i :: 0 <= i < |log| && r == AsMemory(log[i])
    ensures ControllerWritten(recent)
  {
    forall k | 0 <= k < |recent| && recent[k].success ensures recent[k].decision == Some(AdvanceStep) {
      assert recent[k] in recent;
      var i :| 0 <= i < |log| && recent[k] == AsMemory(log[i]);
      OneRecordPerCall(log, world, table, s, i);
    }
  }
}
