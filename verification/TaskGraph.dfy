/** The agent's task graph: incremental construction and the priority topological sort. */
module TaskGraphs {
  import opened Ordering
  import opened Digraph
  import opened Kahn

  datatype Task = Task(id: Id, name: string, priority: int, dependencies: seq<Id>)

  datatype GraphError =
    | TaskExists(id: Id)
    | TaskNotFound(id: Id)
    | DependencyNotFound(id: Id)
    | SelfDependency
    | HasCycles
    | SortIncomplete

  // ---------- the sort key ----------

  datatype SortKey = SortKey(negPriority: int, name: string, id: Id)

  predicate KeyLt(a: SortKey, b: SortKey) {
    || a.negPriority < b.negPriority
    || (a.negPriority == b.negPriority && StrLt(a.name, b.name))
    || (a.negPriority == b.negPriority && a.name == b.name && StrLt(a.id, b.id))
  }

  /** `_task_sort_key`: higher priority first, then lowered name, then id. `lower` is `str.lower`. */
  function KeyOf(tasks: map<Id, Task>, lower: string -> string, id: Id): SortKey {
    if id in tasks then SortKey(-tasks[id].priority, lower(tasks[id].name), id) else SortKey(0, "", id)
  }

  function KeyOrder(tasks: map<Id, Task>, lower: string -> string): (Id, Id) -> bool {
    (a, b) => KeyLt(KeyOf(tasks, lower, a), KeyOf(tasks, lower, b))
  }

  lemma KeyLtTransitive(a: SortKey, b: SortKey, c: SortKey)
    requires KeyLt(a, b) && KeyLt(b, c)
    ensures KeyLt(a, c)
  {
    StrLtTotal();
  }

  lemma KeyLtConnected(a: SortKey, b: SortKey)
    ensures a == b || KeyLt(a, b) || KeyLt(b, a)
    ensures !(KeyLt(a, b) && KeyLt(b, a))
  {
    StrLtTotal();
  }

  /** The key order is total on ids, because the id is its last component. */
  lemma KeyOrderTotal(tasks: map<Id, Task>, lower: string -> string)
    ensures StrictTotal(KeyOrder(tasks, lower))
  {
    var lt := KeyOrder(tasks, lower);
    forall a, b | lt(a, b) ensures !lt(b, a) {
      KeyLtConnected(KeyOf(tasks, lower, a), KeyOf(tasks, lower, b));
    }
    forall a, b, c | lt(a, b) && lt(b, c) ensures lt(a, c) {
      KeyLtTransitive(KeyOf(tasks, lower, a), KeyOf(tasks, lower, b), KeyOf(tasks, lower, c));
    }
    forall a, b ensures a == b || lt(a, b) || lt(b, a) {
      KeyLtConnected(KeyOf(tasks, lower, a), KeyOf(tasks, lower, b));
    }
  }

  // ---------- topological orders ----------

  /** Every node once, each after all its dependencies. */
  ghost predicate Topological(g: Graph, order: seq<Id>) {
    NoRepeats(order) && (forall v :: v in order <==> v in g) && Respects(g, order)
  }

  /** `a` comes before `b` in the lexicographic order that `lt` induces. */
  ghost predicate LexBefore(a: seq<Id>, b: seq<Id>, lt: (Id, Id) -> bool) {
    exists i :: 0 <= i < |a| && i < |b| && a[..i] == b[..i] && lt(a[i], b[i])
  }

  /** `v` is unscheduled and all its dependencies are in `prefix`. */
  ghost predicate IsReady(g: Graph, prefix: seq<Id>, v: Id) {
    v in g && v !in prefix && forall u :: u in Preds(g, v) ==> u in prefix
  }

  /** Each entry is the least of the nodes that are ready after the entries before it. */
  ghost predicate Greedy(g: Graph, order: seq<Id>, lt: (Id, Id) -> bool) {
    forall i :: 0 <= i < |order| ==>
      IsReady(g, order[..i], order[i]) && forall v :: IsReady(g, order[..i], v) ==> v == order[i] || lt(order[i], v)
  }

  /** Higher priority, then smaller lowered name, then smaller id. */
  predicate GoesFirst(tasks: map<Id, Task>, lower: string -> string, a: Id, b: Id)
    requires a in tasks && b in tasks
  {
    var x, y := tasks[a], tasks[b];
    || x.priority > y.priority
    || (x.priority == y.priority && StrLt(lower(x.name), lower(y.name)))
    || (x.priority == y.priority && lower(x.name) == lower(y.name) && StrLt(x.id, y.id))
  }

  /** The key order is just that. */
  lemma KeyOrderMeaning(tasks: map<Id, Task>, lower: string -> string, a: Id, b: Id)
    requires a in tasks && b in tasks && tasks[a].id == a && tasks[b].id == b
    ensures KeyOrder(tasks, lower)(a, b) <==> GoesFirst(tasks, lower, a, b)
  {
  }

  /** A task that stands earlier although the later one was free by then goes first by priority, name and id. */
  ghost predicate HighestFirst(tasks: map<Id, Task>, lower: string -> string, g: Graph, order: seq<Id>)
    requires forall v :: v in order ==> v in tasks
  {
    forall i, j :: 0 <= i < j < |order| && Preds(g, order[j]) <= Elements(order[..i]) ==>
      GoesFirst(tasks, lower, order[i], order[j])
  }

  function Elements(order: seq<Id>): set<Id> {
    set v | v in order
  }

  lemma GreedyIsHighestFirst(tasks: map<Id, Task>, lower: string -> string, g: Graph, order: seq<Id>)
    requires Topological(g, order) && Greedy(g, order, KeyOrder(tasks, lower))
    requires g.Keys == tasks.Keys && forall v :: v in tasks ==> tasks[v].id == v
    ensures forall v :: v in order ==> v in tasks
    ensures HighestFirst(tasks, lower, g, order)
  {
    forall i, j | 0 <= i < j < |order| && Preds(g, order[j]) <= Elements(order[..i])
      ensures GoesFirst(tasks, lower, order[i], order[j])
    {
      assert order[i] in order && order[j] in order;
      assert order[j] !in order[..i];
      assert IsReady(g, order[..i], order[j]);
      KeyOrderMeaning(tasks, lower, order[i], order[j]);
    }
  }

  lemma GreedyStep(g: Graph, order: seq<Id>, lt: (Id, Id) -> bool, node: Id)
    requires Greedy(g, order, lt) && IsReady(g, order, node)
    requires forall v :: IsReady(g, order, v) ==> v == node || lt(node, v)
    ensures Greedy(g, order + [node], lt)
  {
    var grown := order + [node];
    forall i | 0 <= i < |grown|
      ensures IsReady(g, grown[..i], grown[i])
      ensures forall v :: IsReady(g, grown[..i], v) ==> v == grown[i] || lt(grown[i], v)
    {
      assert grown[..i] == order[..i];
      assert i == |order| ==> order[..i] == order;
    }
  }

  lemma GreedyTopological(g: Graph, order: seq<Id>, lt: (Id, Id) -> bool)
    requires Greedy(g, order, lt) && forall v :: v in g ==> v in order
    ensures Topological(g, order)
  {
  }

  lemma TopologicalReady(g: Graph, order: seq<Id>, i: nat)
    requires Topological(g, order) && i < |order|
    ensures IsReady(g, order[..i], order[i])
  {
  }

  lemma TopologicalLength(g: Graph, order: seq<Id>)
    requires Topological(g, order)
    ensures |order| == |g|
  {
    RepeatsCounted(order);
    assert (set v | v in order) == g.Keys;
    assert |g.Keys| == |g|;
  }

  /** A greedy order is the lexicographically least topological order. */
  lemma GreedyIsLeast(g: Graph, order: seq<Id>, other: seq<Id>, lt: (Id, Id) -> bool)
    requires Topological(g, order) && Greedy(g, order, lt) && Topological(g, other)
    ensures other == order || LexBefore(order, other, lt)
  {
    TopologicalLength(g, order);
    TopologicalLength(g, other);
    if order != other {
      var i := FirstDifference(order, other);
      TopologicalReady(g, other, i);
      assert lt(order[i], other[i]);
    }
  }

  lemma {:induction false} FirstDifference(a: seq<Id>, b: seq<Id>) returns (i: nat)
    requires |a| == |b| && a != b
    ensures i < |a| && a[..i] == b[..i] && a[i] != b[i]
    decreases |a|
  {
    if a[0] != b[0] {
      i := 0;
    } else {
      assert a == [a[0]] + a[1..] && b == [b[0]] + b[1..];
      var k := FirstDifference(a[1..], b[1..]);
      i := k + 1;
      assert a[..i] == [a[0]] + a[1..][..k] && b[..i] == [b[0]] + b[1..][..k];
    }
  }

  /** `inDegree` counts distinct predecessors; every edge is listed by its task; no self-edges. */
  ghost predicate Consistent(tasks: map<Id, Task>, adjacency: Graph, inDegree: map<Id, int>) {
    && tasks.Keys == adjacency.Keys && Closed(adjacency)
    && Exact(adjacency, inDegree)
    && (forall v :: v in tasks ==> tasks[v].id == v)
    && (forall u, v :: u in adjacency && v in adjacency[u] ==> u != v && u in tasks[v].dependencies)
  }

  lemma AddNodePreds(g: Graph, u: Id, w: Id)
    requires Closed(g) && u !in g
    ensures Preds(g[u := {}], w) == Preds(g, w)
    ensures w == u ==> Preds(g, w) == {}
  {
  }

  lemma AddNodeConsistent(tasks: map<Id, Task>, adjacency: Graph, inDegree: map<Id, int>, task: Task)
    requires Consistent(tasks, adjacency, inDegree) && task.id !in tasks
    ensures Consistent(tasks[task.id := task], adjacency[task.id := {}], inDegree[task.id := 0])
  {
    var after, counts := adjacency[task.id := {}], inDegree[task.id := 0];
    forall v | v in after ensures |Preds(after, v)| == counts[v] {
      AddNodePreds(adjacency, task.id, v);
    }
  }

  lemma AddEdgePreds(g: Graph, u: Id, v: Id, w: Id)
    requires u in g && v in g && v !in g[u]
    ensures u !in Preds(g, v)
    ensures Preds(g[u := g[u] + {v}], w) == Preds(g, w) + (if w == v then {u} else {})
  {
  }

  lemma AddEdgeExact(g: Graph, inDegree: map<Id, int>, u: Id, v: Id)
    requires Exact(g, inDegree) && u in g && v in g && v !in g[u]
    ensures Exact(g[u := g[u] + {v}], inDegree[v := inDegree[v] + 1])
  {
    forall w | w in g ensures |Preds(g[u := g[u] + {v}], w)| == |Preds(g, w)| + (if w == v then 1 else 0) {
      AddEdgePreds(g, u, v, w);
    }
  }

  lemma AddEdgeConsistent(tasks: map<Id, Task>, adjacency: Graph, inDegree: map<Id, int>, u: Id, v: Id, task: Task)
    requires Consistent(tasks, adjacency, inDegree)
    requires u in tasks && v in tasks && u != v && v !in adjacency[u]
    requires task.id == v && u in task.dependencies && forall d :: d in tasks[v].dependencies ==> d in task.dependencies
    ensures Consistent(tasks[v := task], adjacency[u := adjacency[u] + {v}], inDegree[v := inDegree[v] + 1])
  {
    AddEdgeExact(adjacency, inDegree, u, v);
  }

  // ---------- the priority Kahn loop ----------

  /** The queue holds exactly the ready nodes; `done` is the scheduled ones. */
  ghost predicate Scheduling(g: Graph, inDegree: map<Id, int>, lt: (Id, Id) -> bool,
      order: seq<Id>, done: set<Id>, queue: set<Id>, degree: map<Id, int>)
  {
    && Greedy(g, order, lt)
    && done <= g.Keys && (forall v :: v in done <==> v in order)
    && (forall v :: v in queue <==> IsReady(g, order, v))
    && Remaining(g, inDegree, done, degree)
  }

  lemma SchedulingStart(g: Graph, inDegree: map<Id, int>, lt: (Id, Id) -> bool, queue: set<Id>)
    requires Exact(g, inDegree)
    requires forall v :: v in queue <==> v in g && inDegree[v] == 0
    ensures Scheduling(g, inDegree, lt, [], {}, queue, inDegree)
  {
  }

  /** A scheduled node has no unscheduled dependency. */
  lemma ScheduledBefore(g: Graph, order: seq<Id>, lt: (Id, Id) -> bool, u: Id, v: Id)
    requires Greedy(g, order, lt) && v in order && u in Preds(g, v)
    ensures u in order
  {
  }

  lemma QueueStep(g: Graph, inDegree: map<Id, int>, lt: (Id, Id) -> bool, order: seq<Id>, done: set<Id>, node: Id,
      after: map<Id, int>, v: Id)
    requires Exact(g, inDegree) && Greedy(g, order, lt) && IsReady(g, order, node) && v in g
    requires forall w :: w in done <==> w in order
    requires Remaining(g, inDegree, done + {node}, after)
    ensures IsReady(g, order + [node], v) <==>
      (IsReady(g, order, v) && v != node) || (v in g[node] && after[v] == 0)
  {
    assert node in Preds(g, v) <==> v in g[node];
    if v in order {
      if v in g[node] { ScheduledBefore(g, order, lt, node, v); }
    } else if v != node {
      ReadyIff(g, inDegree, done + {node}, after, v);
    }
  }

  lemma SchedulingStep(g: Graph, inDegree: map<Id, int>, lt: (Id, Id) -> bool, order: seq<Id>, done: set<Id>,
      queue: set<Id>, degree: map<Id, int>, node: Id, after: map<Id, int>, freed: set<Id>)
    requires Exact(g, inDegree) && Closed(g) && Scheduling(g, inDegree, lt, order, done, queue, degree)
    requires IsLeast(node, queue, lt)
    requires after.Keys == g.Keys
    requires forall v :: v in g ==> after[v] == degree[v] - (if v in g[node] then 1 else 0)
    requires forall v :: v in freed <==> v in g[node] && after[v] == 0
    ensures Scheduling(g, inDegree, lt, order + [node], done + {node}, queue - {node} + freed, after)
  {
    assert IsReady(g, order, node);
    RemainingStep(g, inDegree, done, degree, node, after);
    GreedyStep(g, order, lt, node);
    forall v ensures v in queue - {node} + freed <==> IsReady(g, order + [node], v) {
      if v in g { QueueStep(g, inDegree, lt, order, done, node, after, v); }
    }
  }

  /** An empty queue means every node was scheduled, unless the graph has a cycle. */
  lemma SchedulingEnd(g: Graph, inDegree: map<Id, int>, lt: (Id, Id) -> bool, order: seq<Id>, done: set<Id>,
      degree: map<Id, int>)
    requires Scheduling(g, inDegree, lt, order, done, {}, degree) && !Cyclic(g)
    ensures Topological(g, order) && |order| == |g|
  {
    forall v | v in g && v !in done ensures exists u :: u in Preds(g, v) && u !in done {
      assert !IsReady(g, order, v);
    }
    if v :| v in g && v !in done { StuckCycle(g, done, v); }
    GreedyTopological(g, order, lt);
    TopologicalLength(g, order);
  }

  /** Appends a dependency id unless the task already lists it. */
  function WithDependency(task: Task, d: Id): Task {
    if d in task.dependencies then task else task.(dependencies := task.dependencies + [d])
  }

  function DependencyError(tasks: map<Id, Task>, taskId: Id, dependsOn: Id): Option<GraphError> {
    if taskId !in tasks then Some(TaskNotFound(taskId))
    else if dependsOn !in tasks then Some(DependencyNotFound(dependsOn))
    else if taskId == dependsOn then Some(SelfDependency)
    else None
  }

  class TaskGraph {
    const lower: string -> string
    var tasks: map<Id, Task>
    var adjacency: Graph
    var inDegree: map<Id, int>

    ghost predicate Valid()
      reads this
    {
      Consistent(tasks, adjacency, inDegree)
    }

    constructor (lower: string -> string)
      ensures Valid() && tasks == map[] && this.lower == lower
    {
      this.lower := lower;
      tasks, adjacency, inDegree := map[], map[], map[];
    }

    method AddTask(task: Task) returns (error: Option<GraphError>)
      requires Valid()
      modifies this
      ensures Valid()
      ensures error == if task.id in old(tasks) then Some(TaskExists(task.id)) else None
      ensures error.Some? ==> tasks == old(tasks) && adjacency == old(adjacency) && inDegree == old(inDegree)
      ensures error.None? ==> tasks == old(tasks)[task.id := task] && adjacency == old(adjacency)[task.id := {}]
    {
      if task.id in tasks { return Some(TaskExists(task.id)); }
      AddNodeConsistent(tasks, adjacency, inDegree, task);
      tasks := tasks[task.id := task];
      adjacency := adjacency[task.id := {}];
      inDegree := inDegree[task.id := 0];
      return None;
    }

    /** Records a new edge. */
    method Link(taskId: Id, dependsOn: Id)
      requires Valid() && taskId in tasks && dependsOn in tasks && taskId != dependsOn
      requires taskId !in adjacency[dependsOn]
      modifies this
      ensures Valid()
      ensures adjacency == old(adjacency)[dependsOn := old(adjacency)[dependsOn] + {taskId}]
      ensures tasks == old(tasks)[taskId := WithDependency(old(tasks)[taskId], dependsOn)]
    {
      var task := WithDependency(tasks[taskId], dependsOn);
      AddEdgeConsistent(tasks, adjacency, inDegree, dependsOn, taskId, task);
      adjacency := adjacency[dependsOn := adjacency[dependsOn] + {taskId}];
      inDegree := inDegree[taskId := inDegree[taskId] + 1];
      tasks := tasks[taskId := task];
    }

    /** Repeating a dependency changes nothing, so the in-degrees keep counting distinct predecessors. */
    method AddDependency(taskId: Id, dependsOn: Id) returns (error: Option<GraphError>)
      requires Valid()
      modifies this
      ensures Valid()
      ensures error == DependencyError(old(tasks), taskId, dependsOn)
      ensures error.Some? || taskId in old(adjacency)[dependsOn] ==>
        tasks == old(tasks) && adjacency == old(adjacency) && inDegree == old(inDegree)
      ensures error.None? && taskId !in old(adjacency)[dependsOn] ==>
        && adjacency == old(adjacency)[dependsOn := old(adjacency)[dependsOn] + {taskId}]
        && tasks == old(tasks)[taskId := old(tasks)[taskId].(dependencies :=
             if dependsOn in old(tasks)[taskId].dependencies then old(tasks)[taskId].dependencies
             else old(tasks)[taskId].dependencies + [dependsOn])]
    {
      if taskId !in tasks { return Some(TaskNotFound(taskId)); }
      if dependsOn !in tasks { return Some(DependencyNotFound(dependsOn)); }
      if taskId == dependsOn { return Some(SelfDependency); }
      if taskId !in adjacency[dependsOn] {
        Link(taskId, dependsOn);
      }
      return None;
    }

    method ValidateNoCycles() returns (ok: bool)
      requires Valid()
      ensures ok <==> !Cyclic(adjacency)
    {
      KeyOrderTotal(tasks, lower);
      var search := new DepthFirstSearch(adjacency, KeyOrder(tasks, lower));
      var found := search.Search();
      ok := !found;
    }

    method PopFirst(queue: set<Id>) returns (node: Id)
      requires queue != {}
      ensures IsLeast(node, queue, KeyOrder(tasks, lower))
    {
      KeyOrderTotal(tasks, lower);
      node := Least(queue, KeyOrder(tasks, lower));
    }

    /** `sorted(self.adjacency[node], key=self._task_sort_key)` */
    method SortedNeighbors(node: Id) returns (r: seq<Id>)
      requires node in adjacency
      ensures NoRepeats(r) && forall v :: v in r <==> v in adjacency[node]
    {
      KeyOrderTotal(tasks, lower);
      r := SortSet(adjacency[node], KeyOrder(tasks, lower));
    }

    /** The Kahn loop over the priority queue. */
    method Schedule() returns (order: seq<Id>)
      requires Valid() && !Cyclic(adjacency)
      ensures |order| == |tasks| && Topological(adjacency, order) && Greedy(adjacency, order, KeyOrder(tasks, lower))
    {
      var degree := inDegree;
      var queue := set v | v in degree && degree[v] == 0;
      ghost var lt, done: set<Id> := KeyOrder(tasks, lower), {};
      order := [];
      SchedulingStart(adjacency, inDegree, lt, queue);
      while queue != {}
        invariant Scheduling(adjacency, inDegree, lt, order, done, queue, degree)
        decreases adjacency.Keys - done
      {
        var node := PopFirst(queue);
        assert IsReady(adjacency, order, node);
        var neighbors := SortedNeighbors(node);
        var after, freed := Release(neighbors, degree);
        SchedulingStep(adjacency, inDegree, lt, order, done, queue, degree, node, after, freed);
        order, queue, degree, done := order + [node], queue - {node} + freed, after, done + {node};
      }
      SchedulingEnd(adjacency, inDegree, lt, order, done, degree);
      assert |tasks.Keys| == |tasks| && |adjacency.Keys| == |adjacency|;
    }

    method TopologicalSort() returns (r: Result<seq<Id>, GraphError>)
      requires Valid()
      ensures r.Ok? <==> !Cyclic(adjacency)
      ensures r.Err? ==> r.error == HasCycles
      ensures r.Ok? ==> Topological(adjacency, r.value)
      ensures r.Ok? ==> forall other :: Topological(adjacency, other) ==>
        other == r.value || LexBefore(r.value, other, KeyOrder(tasks, lower))
      ensures r.Ok? ==> (forall v :: v in r.value ==> v in tasks) && HighestFirst(tasks, lower, adjacency, r.value)
    {
      var acyclic := ValidateNoCycles();
      if !acyclic { return Err(HasCycles); }
      var order := Schedule();
      r := if |order| == |tasks| then Ok(order) else Err(SortIncomplete);
      GreedyIsHighestFirst(tasks, lower, adjacency, order);
      forall other | Topological(adjacency, other)
        ensures other == order || LexBefore(order, other, KeyOrder(tasks, lower))
      {
        GreedyIsLeast(adjacency, order, other, KeyOrder(tasks, lower));
      }
    }
  }
}
