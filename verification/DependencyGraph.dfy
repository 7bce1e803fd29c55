/** The planning engine's graph: construction from task nodes and level-order traversal. */
module PlanGraph {
  import opened Ordering
  import opened Digraph
  import opened Kahn

  datatype TaskNode = TaskNode(id: Id, description: string, dependencies: seq<Id>)

  datatype PlanError =
    | DuplicateId(id: Id)
    | UnknownDependency(task: Id, dependency: Id)
    | CycleDetected

  datatype Levels = Levels(ordered: seq<Id>, groups: seq<seq<Id>>)

  function IdOf(t: TaskNode): Id { t.id }

  ghost predicate UniqueIds(tasks: seq<TaskNode>) {
    DistinctBy(tasks, IdOf)
  }

  function Ids(tasks: seq<TaskNode>): set<Id> {
    set t | t in tasks :: t.id
  }

  ghost predicate KnownDependencies(tasks: seq<TaskNode>) {
    forall t, d :: t in tasks && d in t.dependencies ==> d in Ids(tasks)
  }

  /** What `PlanValidator.validate` establishes. */
  ghost predicate Validated(tasks: seq<TaskNode>) {
    UniqueIds(tasks) && KnownDependencies(tasks)
  }

  /** No task lists the same dependency twice. */
  ghost predicate RepeatFree(tasks: seq<TaskNode>) {
    forall t :: t in tasks ==> NoRepeats(t.dependencies)
  }

  /** The forward adjacency over the nodes `ids` that the dependency lists in `tasks` describe. */
  function EdgesFrom(ids: set<Id>, tasks: seq<TaskNode>): Graph {
    map d | d in ids :: set t | t in tasks && d in t.dependencies :: t.id
  }

  function Adjacency(tasks: seq<TaskNode>): Graph {
    EdgesFrom(Ids(tasks), tasks)
  }

  function Flatten(groups: seq<seq<Id>>): seq<Id> {
    if groups == [] then [] else Flatten(groups[..|groups| - 1]) + groups[|groups| - 1]
  }

  /**
   Group k holds, in ascending order, exactly the nodes whose longest dependency chain has k edges,
   and no group is empty.
   */
  ghost predicate Grouped(g: Graph, groups: seq<seq<Id>>) {
    && (forall k :: 0 <= k < |groups| ==> groups[k] != [] && Ascending(groups[k], StrLt))
    && (forall k, v :: 0 <= k < |groups| ==> (v in groups[k] <==> v in g && ChainEdges(g, v, k)))
  }

  /** The level traversal of `g`: its groups hold every node, and `ordered` concatenates them. */
  ghost predicate Levelled(g: Graph, l: Levels) {
    && l.ordered == Flatten(l.groups)
    && Grouped(g, l.groups)
    && forall v :: v in g ==> Within(g, v, |l.groups|)
  }

  // ---------- facts about construction ----------

  lemma EdgesStep(ids: set<Id>, tasks: seq<TaskNode>, t: TaskNode, d: Id)
    requires d in ids
    ensures EdgesFrom(ids, tasks + [t])[d] ==
      EdgesFrom(ids, tasks)[d] + (if d in t.dependencies then {t.id} else {})
  {
  }

  lemma EdgesGrow(ids: set<Id>, tasks: seq<TaskNode>, i: nat, after: Graph)
    requires i < |tasks| && after.Keys == ids
    requires forall d :: d in ids ==>
      after[d] == EdgesFrom(ids, tasks[..i])[d] + (if d in tasks[i].dependencies then {tasks[i].id} else {})
    ensures after == EdgesFrom(ids, tasks[..i + 1])
  {
    assert tasks[..i + 1] == tasks[..i] + [tasks[i]];
    forall d | d in ids ensures after[d] == EdgesFrom(ids, tasks[..i + 1])[d] {
      EdgesStep(ids, tasks[..i], tasks[i], d);
    }
  }

  lemma AdjacencyClosed(tasks: seq<TaskNode>)
    ensures Closed(Adjacency(tasks))
  {
  }

  /** The distinct dependencies of a task are the ids it lists. */
  lemma AdjacencyPreds(tasks: seq<TaskNode>, t: TaskNode)
    requires Validated(tasks) && t in tasks
    ensures Preds(Adjacency(tasks), t.id) == set d | d in t.dependencies
  {
  }

  /** Listed in-degrees cover the distinct dependencies, exactly so when no list repeats an id. */
  lemma InDegreesCover(tasks: seq<TaskNode>, inDegree: map<Id, int>)
    requires Validated(tasks) && inDegree.Keys == Ids(tasks)
    requires forall t :: t in tasks ==> inDegree[t.id] == |t.dependencies|
    ensures Covers(Adjacency(tasks), inDegree)
    ensures Exact(Adjacency(tasks), inDegree) <==> RepeatFree(tasks)
  {
    var g := Adjacency(tasks);
    forall t | t in tasks
      ensures |Preds(g, t.id)| <= inDegree[t.id]
      ensures |Preds(g, t.id)| == inDegree[t.id] <==> NoRepeats(t.dependencies)
    {
      AdjacencyPreds(tasks, t);
      RepeatsCounted(t.dependencies);
    }
    assert forall v :: v in g ==> exists t :: t in tasks && t.id == v;
  }

  // ---------- facts about the level loop ----------

  /** `goal` is what the nodes in `below` unlock. */
  ghost predicate Unlocked(g: Graph, inDegree: map<Id, int>, below: set<Id>, goal: set<Id>) {
    forall v :: v in goal <==> Unlocks(g, inDegree, below, v)
  }

  /** After the nodes in `done` were popped, `next` holds the freed nodes beyond the current level. */
  ghost predicate Frontier(g: Graph, inDegree: map<Id, int>, goal: set<Id>, done: set<Id>, degree: map<Id, int>, next: set<Id>) {
    && Remaining(g, inDegree, done, degree)
    && (forall v :: v in next <==> Unlocks(g, inDegree, done, v) && v !in goal)
  }

  /** The neighbours a popped node frees are new to the next level, and nothing else is. */
  lemma FreedStep(g: Graph, inDegree: map<Id, int>, below: set<Id>, goal: set<Id>, done: set<Id>, node: Id,
      after: map<Id, int>, v: Id)
    requires Covers(g, inDegree) && v in g && node in g
    requires Unlocked(g, inDegree, below, goal) && node !in below
    requires Remaining(g, inDegree, done + {node}, after)
    ensures v in g[node] && after[v] == 0 ==> v !in goal
    ensures Unlocks(g, inDegree, done + {node}, v) <==>
      Unlocks(g, inDegree, done, v) || (v in g[node] && after[v] == 0)
  {
    ReadyIff(g, inDegree, done + {node}, after, v);
    assert node in Preds(g, v) <==> v in g[node];
  }

  lemma FrontierStep(g: Graph, inDegree: map<Id, int>, below: set<Id>, goal: set<Id>, done: set<Id>, degree: map<Id, int>,
      next: set<Id>, node: Id, after: map<Id, int>, freed: set<Id>)
    requires Covers(g, inDegree) && Closed(g) && Unlocked(g, inDegree, below, goal)
    requires Frontier(g, inDegree, goal, done, degree, next)
    requires node in g && node !in done && node !in below
    requires after.Keys == g.Keys
    requires forall v :: v in g ==> after[v] == degree[v] - (if v in g[node] then 1 else 0)
    requires forall v :: v in freed <==> v in g[node] && after[v] == 0
    ensures Frontier(g, inDegree, goal, done + {node}, after, next + freed)
  {
    RemainingStep(g, inDegree, done, degree, node, after);
    forall v ensures v in next + freed <==> Unlocks(g, inDegree, done + {node}, v) && v !in goal {
      if v in g { FreedStep(g, inDegree, below, goal, done, node, after, v); }
    }
  }

  lemma AppendNoRepeats(a: seq<Id>, b: seq<Id>)
    requires NoRepeats(a) && NoRepeats(b) && forall v :: v in a ==> v !in b
    ensures NoRepeats(a + b)
  {
    var c := a + b;
    forall i, j | 0 <= i < j < |c| ensures c[i] != c[j] {
      assert i < |a| ==> c[i] in a;
      assert j >= |a| ==> c[j] in b;
    }
  }

  lemma AscendingNoRepeats(xs: seq<Id>)
    requires Ascending(xs, StrLt)
    ensures NoRepeats(xs)
  {
    forall i, j | 0 <= i < j < |xs| ensures xs[i] != xs[j] {
      StrLtAsymmetric(xs[i], xs[j]);
    }
  }

  /** When in-degrees are exact, `below` is the chain-length class of the passes made so far. */
  ghost predicate Classified(g: Graph, below: set<Id>, groups: seq<seq<Id>>) {
    Grouped(g, groups) && forall v :: v in g ==> (v in below <==> Within(g, v, |groups|))
  }

  /** The state of the level loop: `below` was scheduled, `ready` is what it newly unlocks. */
  ghost predicate AtLevel(g: Graph, inDegree: map<Id, int>, degree: map<Id, int>, below: set<Id>, ready: set<Id>, l: Levels) {
    && Remaining(g, inDegree, below, degree)
    && Unlocked(g, inDegree, below, below + ready) && below !! ready
    && l.ordered == Flatten(l.groups) && NoRepeats(l.ordered)
    && (forall v :: v in l.ordered <==> v in below)
    && (Exact(g, inDegree) ==> Classified(g, below, l.groups))
  }

  lemma FirstLevel(g: Graph, inDegree: map<Id, int>, ready: set<Id>)
    requires Covers(g, inDegree)
    requires forall v :: v in ready <==> v in g && inDegree[v] == 0
    ensures AtLevel(g, inDegree, inDegree, {}, ready, Levels([], []))
  {
    RemainingStart(g, inDegree);
    forall v | v in g ensures v in ready <==> Unlocks(g, inDegree, {}, v) {
      ReadyIff(g, inDegree, {}, inDegree, v);
    }
    forall v | v in g ensures !Within(g, v, 0) { WithinPositive(g, v); }
  }

  lemma ClassifiedStep(g: Graph, inDegree: map<Id, int>, below: set<Id>, goal: set<Id>, groups: seq<seq<Id>>, group: seq<Id>)
    requires Exact(g, inDegree) && Classified(g, below, groups)
    requires Unlocked(g, inDegree, below, goal) && below <= goal
    requires group != [] && Ascending(group, StrLt) && forall v :: v in group <==> v in goal && v !in below
    ensures Classified(g, goal, groups + [group])
  {
    forall v | v in g
      ensures v in goal <==> Within(g, v, |groups| + 1)
      ensures v in group <==> ChainEdges(g, v, |groups|)
    {
      WithinStep(g, v, |groups|);
      WithinMonotone(g, v, |groups|, |groups| + 1);
      assert forall u :: u in Preds(g, v) ==> u in g;
    }
  }

  lemma AtLevelStep(g: Graph, inDegree: map<Id, int>, degree: map<Id, int>, below: set<Id>, ready: set<Id>, l: Levels,
      group: seq<Id>, after: map<Id, int>, next: set<Id>)
    requires AtLevel(g, inDegree, degree, below, ready, l) && ready != {}
    requires Ascending(group, StrLt) && forall v :: v in group <==> v in ready
    requires Frontier(g, inDegree, below + ready, below + ready, after, next)
    ensures AtLevel(g, inDegree, after, below + ready, next, Levels(l.ordered + group, l.groups + [group]))
  {
    var grown := l.groups + [group];
    assert grown[..|l.groups|] == l.groups;
    AscendingNoRepeats(group);
    AppendNoRepeats(l.ordered, group);
    forall v ensures v in below + ready + next <==> Unlocks(g, inDegree, below + ready, v) {
      assert Unlocks(g, inDegree, below, v) ==> Unlocks(g, inDegree, below + ready, v);
    }
    if Exact(g, inDegree) { ClassifiedStep(g, inDegree, below, below + ready, l.groups, group); }
  }

  /** Once nothing is ready, every node was scheduled exactly when no in-degree over-counts. */
  lemma AllScheduled(g: Graph, inDegree: map<Id, int>, below: set<Id>)
    requires Covers(g, inDegree) && !Cyclic(g) && Unlocked(g, inDegree, below, below)
    ensures below <= g.Keys
    ensures below == g.Keys <==> Exact(g, inDegree)
  {
    if Exact(g, inDegree) {
      assert Stuck(g, below);
      if v :| v in g && v !in below { StuckCycle(g, below, v); }
    } else {
      var v :| v in g && inDegree[v] != |Preds(g, v)|;
      assert v !in below;
    }
  }

  /** The closing length check passes exactly when no in-degree over-counts. */
  lemma AtLevelEnd(g: Graph, inDegree: map<Id, int>, degree: map<Id, int>, below: set<Id>, l: Levels)
    requires Covers(g, inDegree) && !Cyclic(g) && AtLevel(g, inDegree, degree, below, {}, l)
    ensures |l.ordered| == |g| <==> Exact(g, inDegree)
    ensures |l.ordered| == |g| ==> Levelled(g, l)
  {
    assert below + {} == below;
    AllScheduled(g, inDegree, below);
    OrderedSize(g, below, l.ordered);
  }

  lemma OrderedSize(g: Graph, below: set<Id>, ordered: seq<Id>)
    requires NoRepeats(ordered) && (forall v :: v in ordered <==> v in below) && below <= g.Keys
    ensures |ordered| == |g| <==> below == g.Keys
  {
    RepeatsCounted(ordered);
    assert (set v | v in ordered) == below;
    assert |g.Keys| == |g|;
    assert g.Keys == below + (g.Keys - below);
  }

  class DependencyGraph {
    var nodes: map<Id, TaskNode>
    var adjacency: Graph
    var inDegree: map<Id, int>

    ghost predicate Valid()
      reads this
    {
      nodes.Keys == adjacency.Keys && Closed(adjacency) && Covers(adjacency, inDegree)
    }

    constructor ()
      ensures Valid() && nodes == map[]
    {
      nodes, adjacency, inDegree := map[], map[], map[];
    }

    /** The first loop of `build`: one bare node per task. */
    method AddNodes(tasks: seq<TaskNode>)
      modifies this
      ensures nodes.Keys == adjacency.Keys == inDegree.Keys == Ids(tasks)
      ensures forall v :: v in nodes ==> nodes[v] in tasks && nodes[v].id == v
      ensures forall v :: v in adjacency ==> adjacency[v] == {} && inDegree[v] == 0
    {
      nodes, adjacency, inDegree := map[], map[], map[];
      for i := 0 to |tasks|
        invariant nodes.Keys == adjacency.Keys == inDegree.Keys
        invariant forall k :: 0 <= k < i ==> tasks[k].id in nodes
        invariant forall v :: v in nodes ==> nodes[v] in tasks && nodes[v].id == v
        invariant forall v :: v in nodes ==> adjacency[v] == {} && inDegree[v] == 0
      {
        var task := tasks[i];
        nodes := nodes[task.id := task];
        adjacency := adjacency[task.id := {}];
        inDegree := inDegree[task.id := 0];
      }
    }

    /** The inner loop of `build`: one edge and one count per listed dependency. */
    method AddDependencies(task: TaskNode)
      requires task.id in inDegree
      requires forall d :: d in task.dependencies ==> d in adjacency
      modifies this`adjacency, this`inDegree
      ensures adjacency.Keys == old(adjacency.Keys) && inDegree.Keys == old(inDegree.Keys)
      ensures forall d :: d in adjacency ==>
        adjacency[d] == old(adjacency)[d] + (if d in task.dependencies then {task.id} else {})
      ensures inDegree == old(inDegree)[task.id := old(inDegree)[task.id] + |task.dependencies|]
    {
      for j := 0 to |task.dependencies|
        invariant adjacency.Keys == old(adjacency.Keys)
        invariant forall d :: d in adjacency ==>
          adjacency[d] == old(adjacency)[d] + (if d in task.dependencies[..j] then {task.id} else {})
        invariant inDegree == old(inDegree)[task.id := old(inDegree)[task.id] + j]
      {
        var dep := task.dependencies[j];
        assert task.dependencies[..j + 1] == task.dependencies[..j] + [dep];
        adjacency := adjacency[dep := adjacency[dep] + {task.id}];
        inDegree := inDegree[task.id := inDegree[task.id] + 1];
      }
      assert task.dependencies[..|task.dependencies|] == task.dependencies;
    }

    /** The second loop of `build`. */
    method AddEdges(tasks: seq<TaskNode>)
      requires UniqueIds(tasks) && adjacency.Keys == inDegree.Keys
      requires forall v :: v in adjacency ==> adjacency[v] == {} && inDegree[v] == 0
      requires forall k :: 0 <= k < |tasks| ==> tasks[k].id in adjacency
      requires forall k, d :: 0 <= k < |tasks| && d in tasks[k].dependencies ==> d in adjacency
      modifies this`adjacency, this`inDegree
      ensures adjacency == EdgesFrom(old(adjacency.Keys), tasks)
      ensures inDegree.Keys == old(inDegree.Keys)
      ensures forall k :: 0 <= k < |tasks| ==> inDegree[tasks[k].id] == |tasks[k].dependencies|
    {
      ghost var ids := adjacency.Keys;
      assert adjacency == EdgesFrom(ids, tasks[..0]) by {
        assert forall d :: d in ids ==> EdgesFrom(ids, tasks[..0])[d] == {};
      }
      for i := 0 to |tasks|
        invariant inDegree.Keys == ids
        invariant adjacency == EdgesFrom(ids, tasks[..i])
        invariant forall k :: 0 <= k < |tasks| ==>
          inDegree[tasks[k].id] == if k < i then |tasks[k].dependencies| else 0
      {
        AddDependencies(tasks[i]);
        EdgesGrow(ids, tasks, i, adjacency);
      }
      assert tasks[..|tasks|] == tasks;
    }

    method Build(tasks: seq<TaskNode>)
      requires Validated(tasks)
      modifies this
      ensures Valid()
      ensures nodes.Keys == Ids(tasks) && forall v :: v in nodes ==> nodes[v] in tasks && nodes[v].id == v
      ensures adjacency == Adjacency(tasks)
      ensures Exact(adjacency, inDegree) <==> RepeatFree(tasks)
    {
      AddNodes(tasks);
      AddEdges(tasks);
      AdjacencyClosed(tasks);
      InDegreesCover(tasks, inDegree);
    }

    method HasCycle() returns (found: bool)
      requires Valid()
      ensures found <==> Cyclic(adjacency)
    {
      StrLtTotal();
      var search := new DepthFirstSearch(adjacency, StrLt);
      found := search.Search();
    }

    /** The body of the inner loop, for the popped `node`: release its neighbours. */
    method ReleaseNode(node: Id, degree: map<Id, int>, next: set<Id>, ghost below: set<Id>, ghost goal: set<Id>, ghost done: set<Id>)
      returns (after: map<Id, int>, grown: set<Id>)
      requires Valid() && Unlocked(adjacency, inDegree, below, goal)
      requires node in goal && node !in done && node !in below
      requires Frontier(adjacency, inDegree, goal, done, degree, next)
      ensures Frontier(adjacency, inDegree, goal, done + {node}, after, grown)
    {
      var neighbors := SortIds(adjacency[node]);
      var freed;
      after, freed := Release(neighbors, degree);
      grown := next + freed;
      FrontierStep(adjacency, inDegree, below, goal, done, degree, next, node, after, freed);
    }

    /** One pass of the level loop; `heap` is the level's heap in pop order. */
    method DrainLevel(heap: seq<Id>, degree: map<Id, int>, ghost below: set<Id>, ghost goal: set<Id>)
      returns (group: seq<Id>, after: map<Id, int>, next: set<Id>)
      requires Valid() && Unlocked(adjacency, inDegree, below, goal)
      requires NoRepeats(heap) && forall v :: v in goal <==> v in below || v in heap
      requires forall v :: v in heap ==> v !in below
      requires Remaining(adjacency, inDegree, below, degree)
      ensures group == heap
      ensures Frontier(adjacency, inDegree, goal, goal, after, next)
    {
      group, after, next := [], degree, {};
      ghost var done := below;
      for i := 0 to |heap|
        invariant group == heap[..i] && forall v :: v in done <==> v in below || v in group
        invariant Frontier(adjacency, inDegree, goal, done, after, next)
      {
        var node := heap[i];
        after, next := ReleaseNode(node, after, next, below, goal, done);
        PrefixStep(heap, i);
        group, done := group + [node], done + {node};
      }
      assert done == goal;
    }

    /** The body of the level loop. */
    method NextLevel(degree: map<Id, int>, ready: set<Id>, l: Levels, ghost below: set<Id>)
      returns (after: map<Id, int>, next: set<Id>, grown: Levels)
      requires Valid() && AtLevel(adjacency, inDegree, degree, below, ready, l) && ready != {}
      ensures AtLevel(adjacency, inDegree, after, below + ready, next, grown)
    {
      var heap := SortIds(ready);
      var group;
      group, after, next := DrainLevel(heap, degree, below, below + ready);
      AtLevelStep(adjacency, inDegree, degree, below, ready, l, group, after, next);
      grown := Levels(l.ordered + group, l.groups + [group]);
    }

    /** The level loop itself, run once the cycle check has passed. */
    method DrainAll() returns (l: Levels)
      requires Valid() && !Cyclic(adjacency)
      ensures |l.ordered| == |nodes| <==> Exact(adjacency, inDegree)
      ensures |l.ordered| == |nodes| ==> Levelled(adjacency, l)
    {
      var degree := inDegree;
      var ready := set v | v in degree && degree[v] == 0;
      ghost var below: set<Id> := {};
      l := Levels([], []);
      FirstLevel(adjacency, inDegree, ready);
      while ready != {}
        invariant AtLevel(adjacency, inDegree, degree, below, ready, l)
        decreases adjacency.Keys - below
      {
        assert ready <= adjacency.Keys by { assert forall v :: v in ready ==> v in below + ready; }
        ghost var level := ready;
        degree, ready, l := NextLevel(degree, ready, l, below);
        below := below + level;
      }
      AtLevelEnd(adjacency, inDegree, degree, below, l);
      assert |nodes.Keys| == |nodes| && |adjacency.Keys| == |adjacency|;
    }

    method TraverseLevels() returns (r: Result<Levels, PlanError>)
      requires Valid()
      ensures r.Ok? <==> !Cyclic(adjacency) && Exact(adjacency, inDegree)
      ensures r.Ok? ==> Levelled(adjacency, r.value)
      ensures r.Err? ==> r.error == CycleDetected
    {
      var cyclic := HasCycle();
      if cyclic { return Err(CycleDetected); }
      var l := DrainAll();
      if |l.ordered| != |nodes| { return Err(CycleDetected); }
      return Ok(l);
    }
  }
}
