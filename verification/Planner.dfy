/** The planning engine's front door: validation, plan building, and what a plan guarantees. */
module Planner {
  import opened Ordering
  import opened Digraph
  import opened PlanGraph

  datatype ExecutionGroup = ExecutionGroup(groupId: nat, taskIds: seq<Id>)

  datatype ExecutionPlan = ExecutionPlan(
    orderedTasks: seq<TaskNode>, executionGroups: seq<ExecutionGroup>, totalTasks: nat, hasCycles: bool)

  // ---------- validation ----------

  /** `i` is the first position whose id was seen before. */
  ghost predicate FirstDuplicate(tasks: seq<TaskNode>, i: nat) {
    && i < |tasks| && UniqueIds(tasks[..i])
    && exists j :: 0 <= j < i && tasks[j].id == tasks[i].id
  }

  method CheckNoDuplicateIds(tasks: seq<TaskNode>) returns (r: Option<PlanError>)
    ensures r.None? <==> UniqueIds(tasks)
    ensures r.Some? ==> exists i: nat :: FirstDuplicate(tasks, i) && r.value == DuplicateId(tasks[i].id)
  {
    var seen: set<Id> := {};
    for i := 0 to |tasks|
      invariant forall v :: v in seen <==> exists j :: 0 <= j < i && tasks[j].id == v
      invariant UniqueIds(tasks[..i])
    {
      if tasks[i].id in seen {
        assert FirstDuplicate(tasks, i);
        return Some(DuplicateId(tasks[i].id));
      }
      seen := seen + {tasks[i].id};
    }
    assert tasks[..|tasks|] == tasks;
    return None;
  }

  ghost predicate AllKnown(deps: seq<Id>, known: set<Id>) {
    forall d :: d in deps ==> d in known
  }

  /** Dependency `j` of task `i` is the first unknown id in list order. */
  ghost predicate FirstUnknown(tasks: seq<TaskNode>, i: nat, j: nat) {
    && i < |tasks| && j < |tasks[i].dependencies|
    && (forall k :: 0 <= k < i ==> AllKnown(tasks[k].dependencies, Ids(tasks)))
    && AllKnown(tasks[i].dependencies[..j], Ids(tasks))
    && tasks[i].dependencies[j] !in Ids(tasks)
  }

  method CheckDependenciesExist(tasks: seq<TaskNode>) returns (r: Option<PlanError>)
    ensures r.None? <==> KnownDependencies(tasks)
    ensures r.Some? ==> exists i: nat, j: nat ::
      FirstUnknown(tasks, i, j) && r.value == UnknownDependency(tasks[i].id, tasks[i].dependencies[j])
  {
    var known := Ids(tasks);
    for i := 0 to |tasks|
      invariant forall k :: 0 <= k < i ==> AllKnown(tasks[k].dependencies, known)
    {
      var deps := tasks[i].dependencies;
      for j := 0 to |deps|
        invariant AllKnown(deps[..j], known)
      {
        if deps[j] !in known {
          assert FirstUnknown(tasks, i, j);
          return Some(UnknownDependency(tasks[i].id, deps[j]));
        }
        assert deps[..j + 1] == deps[..j] + [deps[j]];
      }
      assert deps[..|deps|] == deps;
    }
    return None;
  }

  /** The error a list that yields no plan is rejected with: duplicates first, then unknown dependencies, then cycles. */
  ghost predicate RejectedFor(tasks: seq<TaskNode>, e: PlanError) {
    if !UniqueIds(tasks) then exists i: nat :: FirstDuplicate(tasks, i) && e == DuplicateId(tasks[i].id)
    else if !KnownDependencies(tasks) then exists i: nat, j: nat ::
      FirstUnknown(tasks, i, j) && e == UnknownDependency(tasks[i].id, tasks[i].dependencies[j])
    else e == CycleDetected
  }

  method Validate(tasks: seq<TaskNode>) returns (r: Option<PlanError>)
    ensures r.None? <==> Validated(tasks)
    ensures r.Some? ==> RejectedFor(tasks, r.value)
  {
    r := CheckNoDuplicateIds(tasks);
    if r.None? { r := CheckDependenciesExist(tasks); }
  }

  // ---------- plans ----------

  function IdsInOrder(tasks: seq<TaskNode>): (ids: seq<Id>)
    ensures |ids| == |tasks|
    ensures forall i :: 0 <= i < |ids| ==> ids[i] == tasks[i].id
  {
    seq(|tasks|, i requires 0 <= i < |tasks| => tasks[i].id)
  }

  function GroupIds(groups: seq<ExecutionGroup>): (ids: seq<seq<Id>>)
    ensures |ids| == |groups|
    ensures forall i :: 0 <= i < |ids| ==> ids[i] == groups[i].taskIds
  {
    seq(|groups|, i requires 0 <= i < |groups| => groups[i].taskIds)
  }

  /** `p` is the level plan of the task list `tasks`. */
  ghost predicate PlanOf(tasks: seq<TaskNode>, p: ExecutionPlan) {
    && Levelled(Adjacency(tasks), Levels(IdsInOrder(p.orderedTasks), GroupIds(p.executionGroups)))
    && (forall t :: t in p.orderedTasks ==> t in tasks)
    && (forall k :: 0 <= k < |p.executionGroups| ==> p.executionGroups[k].groupId == k)
    && p.totalTasks == |tasks| && !p.hasCycles
  }

  lemma {:induction false} ChainEdgesExists(g: Graph, v: Id, n: nat) returns (k: nat)
    requires v in g && Within(g, v, n)
    ensures k < n && ChainEdges(g, v, k)
  {
    WithinPositive(g, v);
    if n > 0 && Within(g, v, n - 1) {
      k := ChainEdgesExists(g, v, n - 1);
    } else {
      k := n - 1;
    }
  }

  lemma {:induction false} InFlatten(groups: seq<seq<Id>>, k: nat, v: Id)
    requires k < |groups| && v in groups[k]
    ensures v in Flatten(groups)
  {
    if k < |groups| - 1 { InFlatten(groups[..|groups| - 1], k, v); }
  }

  lemma {:induction false} FromFlatten(groups: seq<seq<Id>>, v: Id) returns (k: nat)
    requires v in Flatten(groups)
    ensures k < |groups| && v in groups[k]
    decreases |groups|
  {
    var n := |groups| - 1;
    if v in groups[n] { k := n; } else { k := FromFlatten(groups[..n], v); }
  }

  /** A dependency's longest chain is shorter. */
  lemma DependencyShallower(g: Graph, u: Id, v: Id, k: nat) returns (j: nat)
    requires v in g && ChainEdges(g, v, k) && u in Preds(g, v)
    ensures j < k && ChainEdges(g, u, j)
  {
    WithinStep(g, v, k);
    j := ChainEdgesExists(g, u, k);
  }

  lemma AppendRespects(g: Graph, order: seq<Id>, group: seq<Id>)
    requires Respects(g, order)
    requires forall u, v :: v in group && u in Preds(g, v) ==> u in order
    ensures Respects(g, order + group)
  {
    var grown := order + group;
    forall i, u | 0 <= i < |grown| && u in Preds(g, grown[i]) ensures u in grown[..i] {
      if i < |order| {
        assert grown[..i] == order[..i];
      } else {
        assert grown[i] in group;
        assert grown[..i] == order + group[..i - |order|];
      }
    }
  }

  lemma {:induction false} GroupedRespects(g: Graph, groups: seq<seq<Id>>)
    requires Grouped(g, groups)
    ensures Respects(g, Flatten(groups))
  {
    if groups != [] {
      var n := |groups| - 1;
      var init := groups[..n];
      GroupedRespects(g, init);
      forall u, v | v in groups[n] && u in Preds(g, v) ensures u in Flatten(init) {
        var j := DependencyShallower(g, u, v, n);
        assert u in groups[j] && init[j] == groups[j];
        InFlatten(init, j, u);
      }
      AppendRespects(g, Flatten(init), groups[n]);
    }
  }

  /** `ordered` is the nodes of `g`, each once. */
  lemma LevelledNodes(g: Graph, l: Levels)
    requires Levelled(g, l)
    ensures forall v :: v in l.ordered <==> v in g
    ensures NoRepeats(l.ordered)
  {
    forall v ensures v in l.ordered <==> v in g {
      if v in l.ordered { var k := FromFlatten(l.groups, v); }
      if v in g {
        var k := ChainEdgesExists(g, v, |l.groups|);
        InFlatten(l.groups, k, v);
      }
    }
    GroupedNoRepeats(g, l.groups);
  }

  lemma {:induction false} GroupedNoRepeats(g: Graph, groups: seq<seq<Id>>)
    requires Grouped(g, groups)
    ensures NoRepeats(Flatten(groups))
  {
    if groups != [] {
      var n := |groups| - 1;
      GroupedNoRepeats(g, groups[..n]);
      AscendingNoRepeats(groups[n]);
      forall v | v in Flatten(groups[..n]) ensures v !in groups[n] {
        var k := FromFlatten(groups[..n], v);
        if v in groups[n] { ChainEdgesUnique(g, v, k, n); }
      }
      AppendNoRepeats(Flatten(groups[..n]), groups[n]);
    }
  }

  /** A plan schedules exactly the given tasks. */
  lemma PlanPermutation(tasks: seq<TaskNode>, p: ExecutionPlan)
    requires Validated(tasks) && PlanOf(tasks, p)
    ensures multiset(p.orderedTasks) == multiset(tasks)
  {
    var l := Levels(IdsInOrder(p.orderedTasks), GroupIds(p.executionGroups));
    LevelledNodes(Adjacency(tasks), l);
    forall t ensures t in p.orderedTasks <==> t in tasks {
      if t in tasks { Scheduled(tasks, p, t); }
    }
    assert NoRepeats(p.orderedTasks) by {
      assert forall i, j :: 0 <= i < j < |p.orderedTasks| ==> l.ordered[i] != l.ordered[j];
    }
    NoRepeatsMultiset(p.orderedTasks, tasks);
  }

  lemma Scheduled(tasks: seq<TaskNode>, p: ExecutionPlan, t: TaskNode)
    requires Validated(tasks) && PlanOf(tasks, p) && t in tasks
    ensures t in p.orderedTasks
  {
    var l := Levels(IdsInOrder(p.orderedTasks), GroupIds(p.executionGroups));
    LevelledNodes(Adjacency(tasks), l);
    assert t.id in Ids(tasks);
    assert t.id in l.ordered;
    var i :| 0 <= i < |l.ordered| && l.ordered[i] == t.id;
    assert p.orderedTasks[i] in p.orderedTasks;
    UniqueByKey(tasks, IdOf, p.orderedTasks[i], t);
  }

  /** Every dependency is scheduled in a strictly earlier group and at an earlier position. */
  lemma PlanRespectsDependencies(tasks: seq<TaskNode>, p: ExecutionPlan, i: nat, d: Id)
    requires Validated(tasks) && PlanOf(tasks, p)
    requires i < |p.orderedTasks| && d in p.orderedTasks[i].dependencies
    ensures exists j :: 0 <= j < i && p.orderedTasks[j].id == d
    ensures exists a, b ::
      && 0 <= a < b < |p.executionGroups|
      && d in p.executionGroups[a].taskIds && p.orderedTasks[i].id in p.executionGroups[b].taskIds
  {
    var g, t := Adjacency(tasks), p.orderedTasks[i];
    var l := Levels(IdsInOrder(p.orderedTasks), GroupIds(p.executionGroups));
    AdjacencyPreds(tasks, t);
    GroupedRespects(g, l.groups);
    assert d in l.ordered[..i];
    var b := FromFlatten(l.groups, l.ordered[i]);
    var a := DependencyShallower(g, d, t.id, b);
    assert d in l.groups[a];
  }

  lemma GroupWitness(g: Graph, l: Levels, k: nat) returns (v: Id)
    requires Levelled(g, l) && k < |l.groups|
    ensures v in g && !Within(g, v, k)
  {
    v := l.groups[k][0];
    assert v in l.groups[k];
  }

  /** There is one level traversal. */
  lemma LevelledUnique(g: Graph, a: Levels, b: Levels)
    requires Levelled(g, a) && Levelled(g, b)
    ensures a == b
  {
    if |a.groups| < |b.groups| { var v := GroupWitness(g, b, |a.groups|); }
    if |b.groups| < |a.groups| { var v := GroupWitness(g, a, |b.groups|); }
    forall k | 0 <= k < |a.groups| ensures a.groups[k] == b.groups[k] {
      StrLtTotal();
      assert forall v :: v in a.groups[k] <==> v in g && ChainEdges(g, v, k);
      assert forall v :: v in b.groups[k] <==> v in g && ChainEdges(g, v, k);
      AscendingUnique(a.groups[k], b.groups[k], StrLt);
    }
    assert a.groups == b.groups;
  }

  /** When `build_plan` succeeds. */
  ghost predicate Plannable(tasks: seq<TaskNode>) {
    Validated(tasks) && !Cyclic(Adjacency(tasks)) && RepeatFree(tasks)
  }

  lemma AdjacencyIgnoresInputOrder(tasks: seq<TaskNode>, permuted: seq<TaskNode>)
    requires multiset(tasks) == multiset(permuted)
    ensures forall t :: t in tasks <==> t in permuted
    ensures |tasks| == |permuted| && Adjacency(tasks) == Adjacency(permuted)
  {
    SameElements(tasks, permuted);
    assert |multiset(tasks)| == |tasks| && |multiset(permuted)| == |permuted|;
    assert Ids(tasks) == Ids(permuted);
    forall d | d in Ids(tasks) ensures Adjacency(tasks)[d] == Adjacency(permuted)[d] {
    }
  }

  lemma PlannableIgnoresInputOrder(tasks: seq<TaskNode>, permuted: seq<TaskNode>)
    requires multiset(tasks) == multiset(permuted) && Plannable(tasks)
    ensures Plannable(permuted)
  {
    AdjacencyIgnoresInputOrder(tasks, permuted);
    PermutedDistinctBy(tasks, permuted, IdOf);
    assert Ids(tasks) == Ids(permuted);
  }

  /** A permuted list has a plan exactly when the list has one, and then it is the same plan. */
  lemma PlanIgnoresInputOrder(tasks: seq<TaskNode>, permuted: seq<TaskNode>)
    requires multiset(tasks) == multiset(permuted)
    ensures Plannable(tasks) <==> Plannable(permuted)
    ensures Plannable(tasks) ==> forall p, q :: PlanOf(tasks, p) && PlanOf(permuted, q) ==> p == q
  {
    if Plannable(tasks) { PlannableIgnoresInputOrder(tasks, permuted); }
    if Plannable(permuted) { PlannableIgnoresInputOrder(permuted, tasks); }
    if Plannable(tasks) {
      forall p, q | PlanOf(tasks, p) && PlanOf(permuted, q) ensures p == q { SamePlan(tasks, permuted, p, q); }
    }
  }

  lemma SamePlan(tasks: seq<TaskNode>, permuted: seq<TaskNode>, p: ExecutionPlan, q: ExecutionPlan)
    requires Validated(tasks) && multiset(tasks) == multiset(permuted)
    requires PlanOf(tasks, p) && PlanOf(permuted, q)
    ensures p == q
  {
    AdjacencyIgnoresInputOrder(tasks, permuted);
    var a := Levels(IdsInOrder(p.orderedTasks), GroupIds(p.executionGroups));
    var b := Levels(IdsInOrder(q.orderedTasks), GroupIds(q.executionGroups));
    LevelledUnique(Adjacency(tasks), a, b);
    SameTasks(tasks, p.orderedTasks, q.orderedTasks);
    assert |GroupIds(p.executionGroups)| == |GroupIds(q.executionGroups)|;
    forall k | 0 <= k < |p.executionGroups| ensures p.executionGroups[k] == q.executionGroups[k] {
      assert a.groups[k] == b.groups[k];
    }
  }

  /** An acyclic plan is rejected as cyclic because a task lists the same dependency twice. */
  lemma RepeatedDependencyRejected(tasks: seq<TaskNode>)
    requires tasks == [TaskNode("a", "x", []), TaskNode("b", "x", ["a", "a"])]
    ensures Validated(tasks) && !Cyclic(Adjacency(tasks)) && !Plannable(tasks)
    ensures RejectedFor(tasks, CycleDetected)
  {
    var g, b := Adjacency(tasks), tasks[1];
    assert Ids(tasks) == {"a", "b"} by { assert tasks[0] in tasks && b in tasks; }
    RankedAcyclic(g, map["a" := 1, "b" := 0]);
    assert b in tasks && b.dependencies[0] == b.dependencies[1];
  }

  lemma SameTasks(tasks: seq<TaskNode>, a: seq<TaskNode>, b: seq<TaskNode>)
    requires UniqueIds(tasks) && IdsInOrder(a) == IdsInOrder(b)
    requires forall t :: t in a || t in b ==> t in tasks
    ensures a == b
  {
    assert |a| == |IdsInOrder(a)| == |b|;
    forall i | 0 <= i < |a| ensures a[i] == b[i] {
      assert IdsInOrder(a)[i] == IdsInOrder(b)[i];
      assert a[i] in tasks && b[i] in tasks;
    }
  }

  /** Looks the ordered ids up and numbers the groups. */
  function Assemble(nodes: map<Id, TaskNode>, l: Levels, total: nat): ExecutionPlan
    requires forall v :: v in l.ordered ==> v in nodes
  {
    ExecutionPlan(
      seq(|l.ordered|, i requires 0 <= i < |l.ordered| => nodes[l.ordered[i]]),
      seq(|l.groups|, i requires 0 <= i < |l.groups| => ExecutionGroup(i, l.groups[i])),
      total, false)
  }

  lemma AssembledPlan(tasks: seq<TaskNode>, nodes: map<Id, TaskNode>, l: Levels)
    requires Levelled(Adjacency(tasks), l)
    requires forall v :: v in l.ordered ==> v in nodes
    requires forall v :: v in nodes ==> nodes[v] in tasks && nodes[v].id == v
    ensures PlanOf(tasks, Assemble(nodes, l, |tasks|))
  {
    var p := Assemble(nodes, l, |tasks|);
    assert IdsInOrder(p.orderedTasks) == l.ordered;
    assert GroupIds(p.executionGroups) == l.groups;
  }

  method BuildPlan(tasks: seq<TaskNode>) returns (r: Result<ExecutionPlan, PlanError>)
    ensures r.Ok? <==> Plannable(tasks)
    ensures r.Ok? ==> PlanOf(tasks, r.value)
    ensures r.Err? ==> RejectedFor(tasks, r.error)
  {
    var invalid := Validate(tasks);
    if invalid.Some? { return Err(invalid.value); }
    var graph := new DependencyGraph();
    graph.Build(tasks);
    var traversal := graph.TraverseLevels();
    if traversal.Err? { return Err(traversal.error); }
    LevelledNodes(graph.adjacency, traversal.value);
    AssembledPlan(tasks, graph.nodes, traversal.value);
    return Ok(Assemble(graph.nodes, traversal.value, |tasks|));
  }
}
