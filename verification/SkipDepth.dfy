/** The skip-propagation depth: a memoised recursion over parsed skip reasons. */
module SkipDepth {
  import opened Ordering
  import opened PlanGraph
  import opened Runner
  import opened RunOutcomes
  import opened SkipChains

  /** The records of a plan in which every dependency-skipped task points to an earlier task. */
  ghost predicate Linked(plan: seq<TaskNode>, tasks: seq<TaskRecord>) {
    && |tasks| == |plan| && UniqueIds(plan)
    && (forall i :: 0 <= i < |plan| ==> tasks[i].id == plan[i].id && plan[i].id != "")
    && (forall i :: 0 <= i < |plan| && DependencySkipped(tasks[i]) ==> ParentEarlier(plan, tasks, i))
  }

  ghost predicate ParentEarlier(plan: seq<TaskNode>, tasks: seq<TaskRecord>, i: int)
    requires 0 <= i < |tasks|
  {
    var j := SkipParent(plan, tasks[i]);
    0 <= j < i && BlockingId(tasks[i].skipReason) == Some(plan[j].id)
  }

  /** Every report of an ordered plan is linked; task ids are non-empty by their type. */
  lemma RunsAreLinked(plan: seq<TaskNode>, h: map<Id, HandlerResult>, stop: bool)
    requires Ordered(plan) && forall i :: 0 <= i < |plan| ==> plan[i].id != ""
    ensures Linked(plan, Final(plan, h, stop))
  {
    forall i | 0 <= i < |plan|
      ensures Final(plan, h, stop)[i].id == plan[i].id
      ensures DependencySkipped(Final(plan, h, stop)[i]) ==> ParentEarlier(plan, Final(plan, h, stop), i)
    {
      FinalStep(plan, h, stop, i);
      StepId(plan, h, stop, RunPrefix(plan, h, stop, i));
      SkipReason(plan, h, stop, i);
    }
  }

  lemma StepId(plan: seq<TaskNode>, h: map<Id, HandlerResult>, stop: bool, s: RunState)
    requires |s.done| < |plan|
    ensures StepTask(plan, h, stop, s).done[|s.done|].id == plan[|s.done|].id
  {
  }

  /** Record `i` is a dependency-skipped task `id` waiting for `parent`. */
  ghost predicate WaitsFor(tasks: seq<TaskRecord>, i: int, id: Id, parent: string) {
    && 0 <= i < |tasks| && tasks[i].id == id
    && DependencySkipped(tasks[i]) && parent == BlockingId(tasks[i].skipReason).value
  }

  /** `skipped_by_id` holds exactly the dependency-skipped tasks, with the id each waits for. */
  ghost predicate ParentsOf(parents: map<Id, string>, tasks: seq<TaskRecord>) {
    && (forall i :: 0 <= i < |tasks| && DependencySkipped(tasks[i]) ==> tasks[i].id in parents)
    && (forall id :: id in parents ==> exists i :: WaitsFor(tasks, i, id, parents[id]))
  }

  method SkippedById(tasks: seq<TaskRecord>) returns (parents: map<Id, string>)
    ensures ParentsOf(parents, tasks)
  {
    parents := map[];
    for k := 0 to |tasks|
      invariant ParentsOf(parents, tasks[..k])
    {
      var task := tasks[k];
      PrefixStep(tasks, k);
      ghost var before := parents;
      if DependencySkipped(task) {
        parents := parents[task.id := BlockingId(task.skipReason).value];
      }
      ParentsStep(before, tasks[..k], task, parents);
    }
    assert tasks[..|tasks|] == tasks;
  }

  lemma ParentsStep(before: map<Id, string>, tasks: seq<TaskRecord>, task: TaskRecord, after: map<Id, string>)
    requires ParentsOf(before, tasks)
    requires after == if DependencySkipped(task) then before[task.id := BlockingId(task.skipReason).value] else before
    ensures ParentsOf(after, tasks + [task])
  {
    var grown := tasks + [task];
    forall id | id in after ensures exists i :: WaitsFor(grown, i, id, after[id]) {
      if DependencySkipped(task) && id == task.id {
        assert WaitsFor(grown, |tasks|, id, after[id]);
      } else {
        var i :| WaitsFor(tasks, i, id, before[id]);
        assert WaitsFor(grown, i, id, after[id]);
      }
    }
  }

  /** In a linked run a task's parent entry is the id of its skip parent. */
  lemma ParentEntry(parents: map<Id, string>, plan: seq<TaskNode>, tasks: seq<TaskRecord>, i: nat)
    requires Linked(plan, tasks) && ParentsOf(parents, tasks) && i < |plan|
    ensures plan[i].id in parents <==> DependencySkipped(tasks[i])
    ensures plan[i].id in parents ==> ParentEarlier(plan, tasks, i) && parents[plan[i].id] == plan[SkipParent(plan, tasks[i])].id
  {
    if plan[i].id in parents {
      var k :| WaitsFor(tasks, k, plan[i].id, parents[plan[i].id]);
      assert plan[k].id == plan[i].id;
      assert k == i;
    }
  }

  /** `id` is task `i` of the run, and the ids in `stack` belong to later tasks. */
  ghost predicate Below(plan: seq<TaskNode>, i: int, id: Id, stack: set<Id>) {
    && 0 <= i < |plan| && plan[i].id == id
    && forall s :: s in stack ==> exists k :: i < k < |plan| && plan[k].id == s
  }

  lemma {:induction false} BelowParent(parents: map<Id, string>, plan: seq<TaskNode>, tasks: seq<TaskRecord>, i: nat, stack: set<Id>)
    requires Linked(plan, tasks) && ParentsOf(parents, tasks) && i < |plan| && Below(plan, i, plan[i].id, stack)
    ensures plan[i].id !in stack
    ensures plan[i].id !in parents ==> |SkipChain(plan, tasks, i)| == 1
    ensures plan[i].id in parents ==> var j := SkipParent(plan, tasks[i]);
      && parents[plan[i].id] != "" && Below(plan, j, parents[plan[i].id], stack + {plan[i].id})
      && |SkipChain(plan, tasks, i)| == 1 + |SkipChain(plan, tasks, j)|
  {
    ParentEntry(parents, plan, tasks, i);
    if plan[i].id in parents {
      var j := SkipParent(plan, tasks[i]);
      forall s | s in stack + {plan[i].id} ensures exists k :: j < k < |plan| && plan[k].id == s {
        if s == plan[i].id { assert j < i < |plan|; }
      }
    }
  }

  /** The cached depths are the lengths of the skip chains. */
  ghost predicate Cached(cache: map<Id, nat>, plan: seq<TaskNode>, tasks: seq<TaskRecord>) {
    Linked(plan, tasks) ==> forall i :: 0 <= i < |plan| && plan[i].id in cache ==>
      cache[plan[i].id] == |SkipChain(plan, tasks, i)|
  }

  lemma CacheStep(cache: map<Id, nat>, plan: seq<TaskNode>, tasks: seq<TaskRecord>, i: int, id: Id, depth: nat)
    requires Cached(cache, plan, tasks)
    requires Linked(plan, tasks) ==> 0 <= i < |plan| && plan[i].id == id && depth == |SkipChain(plan, tasks, i)|
    ensures Cached(cache[id := depth], plan, tasks)
  {
  }

  /** The nested `depth` function with its cache. */
  class SkipDepthSearch {
    const parents: map<Id, string>
    var depthCache: map<Id, nat>

    constructor (parents: map<Id, string>)
      ensures this.parents == parents && depthCache == map[]
    {
      this.parents, depthCache := parents, map[];
    }

    /**
     Terminates on every input. When `taskId` is task `i` of a linked run and `stack` holds later tasks
     only, the guard does not fire and the result is the number of tasks on the skip chain.
     */
    method Depth(taskId: Id, stack: set<Id>, ghost plan: seq<TaskNode>, ghost tasks: seq<TaskRecord>, ghost i: int)
      returns (depth: nat)
      requires ParentsOf(parents, tasks) && Cached(depthCache, plan, tasks) && stack <= parents.Keys
      requires Linked(plan, tasks) ==> Below(plan, i, taskId, stack)
      modifies this
      ensures Cached(depthCache, plan, tasks)
      ensures Linked(plan, tasks) ==> depth == |SkipChain(plan, tasks, i)|
      decreases parents.Keys - stack
    {
      if Linked(plan, tasks) { BelowParent(parents, plan, tasks, i, stack); }
      if taskId in depthCache { return depthCache[taskId]; }
      if taskId in stack { return 1; }
      if taskId !in parents || parents[taskId] == "" {
        depth := 1;
      } else {
        ghost var j := if Linked(plan, tasks) then SkipParent(plan, tasks[i]) else 0;
        var above := Depth(parents[taskId], stack + {taskId}, plan, tasks, j);
        depth := 1 + above;
      }
      CacheStep(depthCache, plan, tasks, i, taskId, depth);
      depthCache := depthCache[taskId := depth];
    }
  }

  /** `depth` is the greatest chain length among the dependency-skipped tasks with an id in `ids`. */
  ghost predicate IsDepthOf(plan: seq<TaskNode>, tasks: seq<TaskRecord>, ids: seq<Id>, depth: nat)
    requires |plan| == |tasks|
  {
    && (forall i :: 0 <= i < |tasks| && DependencySkipped(tasks[i]) && tasks[i].id in ids ==>
        |SkipChain(plan, tasks, i)| <= depth)
    && (depth > 0 ==> exists i :: 0 <= i < |tasks| && DependencySkipped(tasks[i]) && |SkipChain(plan, tasks, i)| == depth)
  }

  lemma DepthStep(plan: seq<TaskNode>, tasks: seq<TaskRecord>, ids: seq<Id>, depth: nat, id: Id, i: nat)
    requires Linked(plan, tasks) && IsDepthOf(plan, tasks, ids, depth)
    requires i < |tasks| && DependencySkipped(tasks[i]) && tasks[i].id == id
    ensures var d := |SkipChain(plan, tasks, i)|; IsDepthOf(plan, tasks, ids + [id], if d > depth then d else depth)
  {
    forall k | 0 <= k < |tasks| && tasks[k].id == id ensures k == i {
      assert plan[k].id == plan[i].id;
    }
  }

  /** The length of the longest skip chain, in tasks; 0 when no task was skipped for a dependency. */
  ghost predicate IsSkipDepth(plan: seq<TaskNode>, tasks: seq<TaskRecord>, depth: nat)
    requires |plan| == |tasks|
  {
    && (forall i :: 0 <= i < |tasks| && DependencySkipped(tasks[i]) ==> |SkipChain(plan, tasks, i)| <= depth)
    && (depth > 0 ==> exists i :: 0 <= i < |tasks| && DependencySkipped(tasks[i]) && |SkipChain(plan, tasks, i)| == depth)
  }

  /** `_compute_skip_propagation_depth` on the records of a run. */
  method ComputeSkipPropagationDepth(tasks: seq<TaskRecord>, ghost plan: seq<TaskNode>) returns (depth: nat)
    ensures Linked(plan, tasks) ==> IsSkipDepth(plan, tasks, depth)
  {
    var parents := SkippedById(tasks);
    if parents == map[] { return 0; }
    var ids := SortIds(parents.Keys);
    var search := new SkipDepthSearch(parents);
    depth := 0;
    for k := 0 to |ids|
      invariant search.parents == parents && Cached(search.depthCache, plan, tasks)
      invariant Linked(plan, tasks) ==> IsDepthOf(plan, tasks, ids[..k], depth)
    {
      assert ids[k] in parents;
      ghost var i :| WaitsFor(tasks, i, ids[k], parents[ids[k]]);
      var d := search.Depth(ids[k], {}, plan, tasks, i);
      PrefixStep(ids, k);
      if Linked(plan, tasks) { DepthStep(plan, tasks, ids[..k], depth, ids[k], i); }
      if d > depth { depth := d; }
    }
    assert ids[..|ids|] == ids;
  }
}
