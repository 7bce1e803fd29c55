/** Following skip reasons back to the task that caused them, and the skip-propagation depth. */
module SkipChains {
  import opened Ordering
  import opened PlanGraph
  import opened Runner
  import opened RunOutcomes

  // ---------- parsing a skip reason ----------

  /** `s.split(":", 1)[1]` */
  function AfterColon(s: string): string {
    if s == "" then "" else if s[0] == ':' then s[1..] else AfterColon(s[1..])
  }

  /** The id in a `dependency_failed:` reason. */
  function BlockingId(reason: Option<string>): Option<string> {
    if reason.Some? && DEPENDENCY_FAILED <= reason.value then Some(AfterColon(reason.value)) else None
  }

  lemma {:induction false} AfterColonSkips(p: string, s: string)
    requires ':' !in p
    ensures AfterColon(p + ":" + s) == s
  {
    if p != "" {
      assert (p + ":" + s)[1..] == p[1..] + ":" + s;
      AfterColonSkips(p[1..], s);
    }
  }

  /** The text the runner writes parses back to the id it was written for. */
  lemma SkipReasonRoundTrip(id: Id)
    ensures BlockingId(Some(DEPENDENCY_FAILED + id)) == Some(id)
    ensures BlockingId(Some(RUN_HALTED)) == None
  {
    var word := "dependency_failed";
    assert ':' !in word;
    AfterColonSkips(word, id);
    assert DEPENDENCY_FAILED == word + ":";
    assert DEPENDENCY_FAILED + id == word + ":" + id;
    assert DEPENDENCY_FAILED[0] != RUN_HALTED[0];
  }

  // ---------- chains ----------

  predicate DependencySkipped(t: TaskRecord) {
    t.status == Skipped && BlockingId(t.skipReason).Some?
  }

  /** The position a dependency-skipped task points to; -1 for the others. */
  function SkipParent(plan: seq<TaskNode>, t: TaskRecord): (j: int)
    ensures -1 <= j < |plan|
  {
    if DependencySkipped(t) then LastIndex(plan, BlockingId(t.skipReason).value) else -1
  }

  /** The positions met when following `dependency_failed:` reasons from task `i`. */
  function SkipChain(plan: seq<TaskNode>, final: seq<TaskRecord>, i: nat): (c: seq<nat>)
    requires i < |final| == |plan|
    ensures |c| > 0 && c[0] == i
  {
    var j := SkipParent(plan, final[i]);
    if 0 <= j < i then [i] + SkipChain(plan, final, j) else [i]
  }

  /** What a skipped task's reason says. */
  lemma SkipReason(plan: seq<TaskNode>, h: map<Id, HandlerResult>, stop: bool, i: nat)
    requires Ordered(plan) && i < |plan|
    ensures var final := Final(plan, h, stop); var j := SkipParent(plan, final[i]);
      && (final[i].status == Skipped && Blocked(plan, final, i) ==>
        DependencySkipped(final[i]) && 0 <= j < i && DirectDep(plan, j, i) && final[j].status in {Failed, Skipped}
        && BlockingId(final[i].skipReason) == Some(plan[j].id))
      && (final[i].status == Skipped && !Blocked(plan, final, i) ==> stop && final[i].skipReason == Some("run_halted_after_failure"))
      && (DependencySkipped(final[i]) ==> Blocked(plan, final, i))
  {
    FinalStep(plan, h, stop, i);
    NeverHaltsInContinueMode(plan, h, stop, i);
    BlockedPrefix(plan, Final(plan, h, stop), i);
    var s := RunPrefix(plan, h, stop, i);
    BlockingIsBlocked(plan, s.done, i);
    StepReason(plan, h, stop, s);
    var b := FirstBlocking(plan, s.done, plan[i].dependencies);
    if b.Some? {
      var j := LastIndex(plan, b.value);
      assert DirectDep(plan, j, i);
      TaskOutcome(plan, h, stop, j);
    }
  }

  lemma StepReason(plan: seq<TaskNode>, h: map<Id, HandlerResult>, stop: bool, s: RunState)
    requires |s.done| < |plan|
    ensures var t, b := StepTask(plan, h, stop, s).done[|s.done|], FirstBlocking(plan, s.done, plan[|s.done|].dependencies);
      && (b.Some? ==> t.status == Skipped && BlockingId(t.skipReason) == b)
      && (b.None? ==> !DependencySkipped(t) && (t.status == Skipped ==> s.halted && t.skipReason == Some(RUN_HALTED)))
  {
    var b := FirstBlocking(plan, s.done, plan[|s.done|].dependencies);
    SkipReasonRoundTrip(if b.Some? then b.value else "");
  }

  /** Each position of the chain is an earlier direct dependency of the one before. */
  ghost predicate Descends(plan: seq<TaskNode>, c: seq<nat>) {
    forall k :: 0 <= k < |c| - 1 ==> c[k + 1] < c[k] < |plan| && DirectDep(plan, c[k + 1], c[k])
  }

  lemma DescendsStep(plan: seq<TaskNode>, i: nat, c: seq<nat>)
    requires c != [] && Descends(plan, c) && c[0] < i < |plan| && DirectDep(plan, c[0], i)
    ensures Descends(plan, [i] + c)
  {
  }

  /** A failed task, or one skipped because the run had halted, which only stop mode does. */
  predicate IsSource(t: TaskRecord, stop: bool) {
    t.status == Failed || (stop && t.status == Skipped && t.skipReason == Some("run_halted_after_failure"))
  }

  /**
   From any skipped task the chain moves strictly earlier along direct dependencies; it ends at a failed
   task, or, in stop mode only, at a task skipped because the run had halted.
   */
  lemma {:induction false} ChainEnds(plan: seq<TaskNode>, h: map<Id, HandlerResult>, stop: bool, i: nat)
    requires Ordered(plan) && i < |plan| && Final(plan, h, stop)[i].status in {Failed, Skipped}
    ensures var final := Final(plan, h, stop); var c := SkipChain(plan, final, i);
      Descends(plan, c) && c[|c| - 1] < |plan| && IsSource(final[c[|c| - 1]], stop)
    decreases i
  {
    var final := Final(plan, h, stop);
    SkipReason(plan, h, stop, i);
    var j := SkipParent(plan, final[i]);
    if 0 <= j < i {
      var c, rest := SkipChain(plan, final, i), SkipChain(plan, final, j);
      assert c == [i] + rest && c[|c| - 1] == rest[|rest| - 1];
      ChainEnds(plan, h, stop, j);
      DescendsStep(plan, i, rest);
    }
  }
}
