/** What a run means: outcomes in terms of ancestors, the shape of halted runs, and skip reasons. */
module RunOutcomes {
  import opened Ordering
  import opened PlanGraph
  import opened Planner
  import opened Runner

  /** A task without a handler succeeds, as does a text answer; a pair says so itself. */
  predicate HandlerSucceeds(h: map<Id, HandlerResult>, id: Id) {
    id !in h || match h[id] case Pair(success, _) => success case Text(_) => true case Raised(_) => false
  }

  /** Task `j` is a direct dependency of task `i`. */
  predicate DirectDep(plan: seq<TaskNode>, j: int, i: int) {
    0 <= j < |plan| && 0 <= i < |plan| && plan[j].id in plan[i].dependencies
  }

  /** Ids are unique and every dependency inside the plan stands earlier. */
  ghost predicate Ordered(plan: seq<TaskNode>) {
    UniqueIds(plan) && forall i, j :: DirectDep(plan, j, i) ==> j < i
  }

  /** Task `a` is a transitive dependency of task `i`. */
  ghost predicate Ancestor(plan: seq<TaskNode>, a: int, i: int)
    decreases i
  {
    0 <= a < i < |plan| && exists d :: 0 <= d < i && DirectDep(plan, d, i) && (a == d || Ancestor(plan, a, d))
  }

  /** The planner's plans are ordered. */
  lemma PlansAreOrdered(tasks: seq<TaskNode>, p: ExecutionPlan)
    requires Validated(tasks) && PlanOf(tasks, p)
    ensures Ordered(p.orderedTasks)
  {
    var l := Levels(IdsInOrder(p.orderedTasks), GroupIds(p.executionGroups));
    LevelledNodes(Adjacency(tasks), l);
    assert forall i :: 0 <= i < |p.orderedTasks| ==> l.ordered[i] == p.orderedTasks[i].id;
    forall i, j | DirectDep(p.orderedTasks, j, i) ensures j < i {
      PlanRespectsDependencies(tasks, p, i, p.orderedTasks[j].id);
    }
  }

  // ---------- one task of a run ----------

  /** A task's record is final once it is written. */
  lemma {:induction false} PrefixEntry(plan: seq<TaskNode>, h: map<Id, HandlerResult>, stop: bool, i: nat, n: nat)
    requires i < n <= |plan|
    ensures RunPrefix(plan, h, stop, n).done[i] == RunPrefix(plan, h, stop, i + 1).done[i]
    decreases n
  {
    if i + 1 < n {
      PrefixEntry(plan, h, stop, i, n - 1);
      StepKeeps(plan, h, stop, RunPrefix(plan, h, stop, n - 1), i);
    }
  }

  lemma StepKeeps(plan: seq<TaskNode>, h: map<Id, HandlerResult>, stop: bool, s: RunState, i: nat)
    requires i < |s.done| < |plan|
    ensures StepTask(plan, h, stop, s).done[i] == s.done[i]
  {
  }

  lemma PrefixOfFinal(plan: seq<TaskNode>, h: map<Id, HandlerResult>, stop: bool, m: nat)
    requires m <= |plan|
    ensures RunPrefix(plan, h, stop, m).done == Final(plan, h, stop)[..m]
  {
    forall i | 0 <= i < m ensures RunPrefix(plan, h, stop, m).done[i] == Final(plan, h, stop)[i] {
      PrefixEntry(plan, h, stop, i, m);
      PrefixEntry(plan, h, stop, i, |plan|);
    }
  }

  /** A direct dependency that did not complete. */
  ghost predicate Blocked(plan: seq<TaskNode>, done: seq<TaskRecord>, i: nat)
    requires i <= |done| <= |plan|
  {
    exists d :: 0 <= d < i && DirectDep(plan, d, i) && done[d].status != Completed
  }

  lemma UniqueIndex(plan: seq<TaskNode>, d: nat)
    requires UniqueIds(plan) && d < |plan|
    ensures LastIndex(plan, plan[d].id) == d
  {
  }

  lemma BlockingIsBlocked(plan: seq<TaskNode>, done: seq<TaskRecord>, i: nat)
    requires Ordered(plan) && i == |done| < |plan|
    ensures FirstBlocking(plan, done, plan[i].dependencies).Some? <==> Blocked(plan, done, i)
  {
    var b := FirstBlocking(plan, done, plan[i].dependencies);
    if b.Some? {
      var d := LastIndex(plan, b.value);
      assert DirectDep(plan, d, i);
    }
    if d :| 0 <= d < i && DirectDep(plan, d, i) && done[d].status != Completed {
      UniqueIndex(plan, d);
      assert Blocks(plan, done, plan[d].id);
    }
  }

  /** Task `i` of a run is the step taken after the tasks before it. */
  lemma FinalStep(plan: seq<TaskNode>, h: map<Id, HandlerResult>, stop: bool, i: nat)
    requires i < |plan|
    ensures var final, s := Final(plan, h, stop), RunPrefix(plan, h, stop, i);
      && s.done == final[..i]
      && RunPrefix(plan, h, stop, i + 1) == StepTask(plan, h, stop, s)
      && final[i] == StepTask(plan, h, stop, s).done[i]
  {
    PrefixOfFinal(plan, h, stop, i);
    PrefixEntry(plan, h, stop, i, |plan|);
  }

  /** How one step comes out. */
  lemma StepOutcome(plan: seq<TaskNode>, h: map<Id, HandlerResult>, stop: bool, s: RunState)
    requires Ordered(plan) && |s.done| < |plan| && (s.halted ==> stop)
    ensures var i, r := |s.done|, StepTask(plan, h, stop, s);
      && r.halted == (stop && (s.halted || r.done[i].status != Completed))
      && r.done[i].started == (!Blocked(plan, s.done, i) && !s.halted)
      && r.done[i].status ==
        (if !r.done[i].started then Skipped else if HandlerSucceeds(h, plan[i].id) then Completed else Failed)
  {
    BlockingIsBlocked(plan, s.done, |s.done|);
  }

  /** How task `i` of a run came out, in terms of the tasks before it. */
  lemma TaskOutcome(plan: seq<TaskNode>, h: map<Id, HandlerResult>, stop: bool, i: nat)
    requires Ordered(plan) && i < |plan|
    ensures var final, halted := Final(plan, h, stop), RunPrefix(plan, h, stop, i).halted;
      && RunPrefix(plan, h, stop, i + 1).halted == (stop && (halted || final[i].status != Completed))
      && final[i].started == (!Blocked(plan, final, i) && !halted)
      && final[i].status ==
        (if !final[i].started then Skipped else if HandlerSucceeds(h, plan[i].id) then Completed else Failed)
  {
    FinalStep(plan, h, stop, i);
    NeverHaltsInContinueMode(plan, h, stop, i);
    StepOutcome(plan, h, stop, RunPrefix(plan, h, stop, i));
    BlockedPrefix(plan, Final(plan, h, stop), i);
  }

  lemma BlockedPrefix(plan: seq<TaskNode>, final: seq<TaskRecord>, i: nat)
    requires i <= |final| <= |plan|
    ensures Blocked(plan, final, i) <==> Blocked(plan, final[..i], i)
  {
  }

  lemma {:induction false} NeverHaltsInContinueMode(plan: seq<TaskNode>, h: map<Id, HandlerResult>, stop: bool, n: nat)
    requires n <= |plan|
    ensures RunPrefix(plan, h, stop, n).halted ==> stop
  {
    if n > 0 { NeverHaltsInContinueMode(plan, h, stop, n - 1); }
  }

  // ---------- continue mode ----------

  /**
   With stop_on_failure off, a task is skipped exactly when some transitive dependency failed, and its
   handler runs exactly when every transitive dependency completed.
   */
  lemma {:induction false} ContinueMode(plan: seq<TaskNode>, h: map<Id, HandlerResult>, i: nat)
    requires Ordered(plan) && i < |plan|
    ensures var final := Final(plan, h, false);
      && (final[i].status == Skipped <==> exists a :: Ancestor(plan, a, i) && final[a].status == Failed)
      && (final[i].started <==> forall a :: Ancestor(plan, a, i) ==> final[a].status == Completed)
      && (final[i].status == Failed <==> final[i].started && !HandlerSucceeds(h, plan[i].id))
      && (final[i].status == Completed <==> final[i].started && HandlerSucceeds(h, plan[i].id))
    decreases i
  {
    var final := Final(plan, h, false);
    TaskOutcome(plan, h, false, i);
    NeverHaltsInContinueMode(plan, h, false, i);
    forall d | 0 <= d < i
      ensures final[d].status == Skipped ==> exists a :: Ancestor(plan, a, d) && final[a].status == Failed
      ensures final[d].status == Completed ==> forall a :: Ancestor(plan, a, d) ==> final[a].status == Completed
      ensures final[d].status in {Completed, Failed, Skipped}
    {
      ContinueMode(plan, h, d);
      TaskOutcome(plan, h, false, d);
    }
    if final[i].started {
      forall a | Ancestor(plan, a, i) ensures final[a].status == Completed {
        var d :| 0 <= d < i && DirectDep(plan, d, i) && (a == d || Ancestor(plan, a, d));
        assert !Blocked(plan, final, i);
        assert final[d].status == Completed;
      }
    } else {
      var d :| 0 <= d < i && DirectDep(plan, d, i) && final[d].status != Completed;
      var a := d;
      if final[d].status == Skipped { a :| Ancestor(plan, a, d) && final[a].status == Failed; }
      assert Ancestor(plan, a, i) && final[a].status == Failed;
    }
  }

  // ---------- stop mode ----------

  lemma SameStep(plan: seq<TaskNode>, h: map<Id, HandlerResult>, s: RunState)
    requires |s.done| < |plan| && !s.halted
    requires StepTask(plan, h, true, s).done[|s.done|].status == Completed
    ensures StepTask(plan, h, true, s) == StepTask(plan, h, false, s)
    ensures !StepTask(plan, h, true, s).halted
  {
  }

  /** Until a task fails, both modes do the same. */
  lemma {:induction false} SamePrefix(plan: seq<TaskNode>, h: map<Id, HandlerResult>, n: nat)
    requires n <= |plan|
    requires forall i :: 0 <= i < n ==> Final(plan, h, true)[i].status == Completed
    ensures RunPrefix(plan, h, true, n) == RunPrefix(plan, h, false, n)
    ensures !RunPrefix(plan, h, true, n).halted
  {
    if n > 0 {
      SamePrefix(plan, h, n - 1);
      FinalStep(plan, h, true, n - 1);
      SameStep(plan, h, RunPrefix(plan, h, true, n - 1));
    }
  }

  lemma {:induction false} HaltedStays(plan: seq<TaskNode>, h: map<Id, HandlerResult>, m: nat, n: nat)
    requires m <= n <= |plan| && RunPrefix(plan, h, true, m).halted
    ensures RunPrefix(plan, h, true, n).halted
    decreases n
  {
    if m < n { HaltedStays(plan, h, m, n - 1); }
  }

  lemma FirstIncomplete(tasks: seq<TaskRecord>) returns (k: nat)
    ensures k <= |tasks| && forall i :: 0 <= i < k ==> tasks[i].status == Completed
    ensures k < |tasks| ==> tasks[k].status != Completed
  {
    k := 0;
    while k < |tasks| && tasks[k].status == Completed
      invariant k <= |tasks| && forall i :: 0 <= i < k ==> tasks[i].status == Completed
    {
      k := k + 1;
    }
  }

  /**
   With stop_on_failure on, the statuses read COMPLETED* and then nothing, or one FAILED and SKIPPED*; up
   to and including the first failure every task ends exactly as in continue mode.
   */
  lemma StopMode(plan: seq<TaskNode>, h: map<Id, HandlerResult>) returns (k: nat)
    requires Ordered(plan)
    ensures k <= |plan|
    ensures forall i :: 0 <= i < k ==> Final(plan, h, true)[i].status == Completed
    ensures k < |plan| ==> Final(plan, h, true)[k].status == Failed
    ensures forall i :: k < i < |plan| ==> Final(plan, h, true)[i].status == Skipped
    ensures forall i :: 0 <= i < |plan| && i <= k ==> Final(plan, h, true)[i] == Final(plan, h, false)[i]
  {
    k := FirstIncomplete(Final(plan, h, true));
    SamePrefix(plan, h, k);
    if k < |plan| {
      TaskOutcome(plan, h, true, k);
      assert !Blocked(plan, Final(plan, h, true), k);
      forall i | k < i < |plan| ensures Final(plan, h, true)[i].status == Skipped {
        HaltedStays(plan, h, k + 1, i);
        TaskOutcome(plan, h, true, i);
      }
      SameFailure(plan, h, k);
    }
    SameRecords(plan, h, k);
  }

  lemma SameFailure(plan: seq<TaskNode>, h: map<Id, HandlerResult>, k: nat)
    requires Ordered(plan) && k < |plan| && RunPrefix(plan, h, true, k) == RunPrefix(plan, h, false, k)
    ensures Final(plan, h, true)[k] == Final(plan, h, false)[k]
  {
    FinalStep(plan, h, true, k);
    FinalStep(plan, h, false, k);
  }

  lemma SameRecords(plan: seq<TaskNode>, h: map<Id, HandlerResult>, k: nat)
    requires k <= |plan| && RunPrefix(plan, h, true, k) == RunPrefix(plan, h, false, k)
    ensures forall i :: 0 <= i < k ==> Final(plan, h, true)[i] == Final(plan, h, false)[i]
  {
    forall i | 0 <= i < k ensures Final(plan, h, true)[i] == Final(plan, h, false)[i] {
      PrefixEntry(plan, h, true, i, |plan|);
      PrefixEntry(plan, h, true, i, k);
      PrefixEntry(plan, h, false, i, |plan|);
      PrefixEntry(plan, h, false, i, k);
    }
  }

  /** Every task stop mode completes, continue mode completes. */
  lemma StopRefinesContinue(plan: seq<TaskNode>, h: map<Id, HandlerResult>, i: nat)
    requires Ordered(plan) && i < |plan|
    requires Final(plan, h, true)[i].status == Completed
    ensures Final(plan, h, false)[i] == Final(plan, h, true)[i]
  {
    var k := StopMode(plan, h);
  }
}
