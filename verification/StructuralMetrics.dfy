/** The self-improvement loop's structural metrics: memoised dependency levels and their width. */
module StructuralMetrics {
  import opened Ordering
  import opened Digraph
  import opened PlanGraph
  import opened Planner

  /** `task_map`: dependency lists by id. */
  type TaskMap = map<Id, seq<Id>>

  /** The edges a task map describes; dependencies outside it are ignored. */
  function EdgesOf(taskMap: TaskMap): Graph {
    map d | d in taskMap :: set t | t in taskMap && d in taskMap[t]
  }

  lemma EdgesPreds(taskMap: TaskMap, t: Id, d: Id)
    requires t in taskMap
    ensures d in Preds(EdgesOf(taskMap), t) <==> d in taskMap && d in taskMap[t]
  {
  }

  /** A dependency chain of at least one edge leads from `u` to `v`. */
  ghost predicate Precedes(g: Graph, u: Id, v: Id) {
    exists p :: PathTo(g, p, v) && p[0] == u && |p| > 1
  }

  lemma PrecedesStep(g: Graph, d: Id, u: Id, v: Id)
    requires d in Preds(g, u) && u in g
    ensures Precedes(g, d, u)
    ensures Precedes(g, u, v) ==> Precedes(g, d, v)
  {
    assert PathTo(g, [d, u], u);
    if Precedes(g, u, v) {
      var p :| PathTo(g, p, v) && p[0] == u && |p| > 1;
      assert PathTo(g, [d] + p, v);
    }
  }

  lemma PrecedesItself(g: Graph, v: Id)
    requires Precedes(g, v, v)
    ensures Cyclic(g)
  {
    var p :| PathTo(g, p, v) && p[0] == v && |p| > 1;
    assert IsCycle(g, p);
  }

  /** `level` is the number of tasks on the longest chain ending in `v`. */
  ghost predicate IsLevel(g: Graph, v: Id, level: nat) {
    level > 0 && ChainEdges(g, v, level - 1)
  }

  /** One more than the deepest dependency; one when there is none. */
  lemma LevelStep(g: Graph, v: Id, best: nat)
    requires v in g
    requires forall d :: d in Preds(g, v) ==> Within(g, d, best)
    requires best > 0 ==> exists d :: d in Preds(g, v) && IsLevel(g, d, best)
    ensures IsLevel(g, v, best + 1)
  {
    WithinStep(g, v, best);
    if best > 0 { WithinStep(g, v, best - 1); }
    WithinPositive(g, v);
  }

  /** The nested `level` function with its cache; `stack` is the set it pushes to and pops from. */
  class LevelSearch {
    const taskMap: TaskMap
    var levelCache: map<Id, nat>

    ghost predicate Valid()
      reads this
    {
      && levelCache.Keys <= taskMap.Keys
      && (!Cyclic(EdgesOf(taskMap)) ==> forall v :: v in levelCache ==> IsLevel(EdgesOf(taskMap), v, levelCache[v]))
    }

    constructor (taskMap: TaskMap)
      ensures Valid() && this.taskMap == taskMap && levelCache == map[]
    {
      this.taskMap := taskMap;
      levelCache := map[];
    }

    /** Terminates on every task map; on an acyclic one the guard on `stack` never fires. */
    method Level(taskId: Id, stack: set<Id>) returns (level: nat)
      requires Valid() && taskId in taskMap && stack <= taskMap.Keys
      requires forall s :: s in stack ==> Precedes(EdgesOf(taskMap), taskId, s)
      modifies this
      ensures Valid() && old(levelCache.Keys) <= levelCache.Keys
      ensures taskId !in stack ==> taskId in levelCache
      ensures !Cyclic(EdgesOf(taskMap)) ==> IsLevel(EdgesOf(taskMap), taskId, level)
      decreases taskMap.Keys - stack
    {
      ghost var g := EdgesOf(taskMap);
      if taskId in levelCache { return levelCache[taskId]; }
      if taskId in stack {
        PrecedesItself(g, taskId);
        return 0;
      }
      var best := 0;
      var deps := taskMap[taskId];
      for i := 0 to |deps|
        invariant Valid() && old(levelCache.Keys) <= levelCache.Keys
        invariant !Cyclic(g) ==> forall j :: 0 <= j < i && deps[j] in taskMap ==> Within(g, deps[j], best)
        invariant !Cyclic(g) && best > 0 ==> exists d :: d in Preds(g, taskId) && IsLevel(g, d, best)
      {
        var dep := deps[i];
        if dep in taskMap {
          EdgesPreds(taskMap, taskId, dep);
          forall s | s in stack + {taskId} ensures Precedes(g, dep, s) { PrecedesStep(g, dep, taskId, s); }
          var depLevel := Level(dep, stack + {taskId});
          if depLevel > best { best := depLevel; }
        }
      }
      if !Cyclic(g) {
        forall d | d in Preds(g, taskId) ensures Within(g, d, best) { EdgesPreds(taskMap, taskId, d); }
        LevelStep(g, taskId, best);
      }
      level := best + 1;
      levelCache := levelCache[taskId := level];
    }
  }

  // ---------- depth and width ----------

  /** The nodes on one level. */
  ghost function LevelClass(g: Graph, level: nat): set<Id> {
    set v | v in g && IsLevel(g, v, level)
  }

  /** `depth` is the greatest level and `width` the size of the largest level. */
  ghost predicate DepthAndWidth(g: Graph, depth: nat, width: nat) {
    && (forall v :: v in g ==> Within(g, v, depth))
    && (exists v :: v in g && IsLevel(g, v, depth))
    && (forall level: nat :: |LevelClass(g, level)| <= width)
    && (exists level: nat :: level > 0 && |LevelClass(g, level)| == width > 0)
  }

  /** The empty graph has depth and width 0. */
  ghost predicate IsDepthAndWidth(g: Graph, depth: nat, width: nat) {
    if g == map[] then depth == width == 0 else DepthAndWidth(g, depth, width)
  }

  function CountLevel(ids: seq<Id>, levels: map<Id, nat>, level: nat): nat
    requires forall v :: v in ids ==> v in levels
  {
    if ids == [] then 0
    else CountLevel(ids[..|ids| - 1], levels, level) + (if levels[ids[|ids| - 1]] == level then 1 else 0)
  }

  lemma {:induction false} CountIsClass(ids: seq<Id>, levels: map<Id, nat>, level: nat, members: set<Id>)
    requires NoRepeats(ids) && (forall v :: v in ids ==> v in levels)
    requires forall v :: v in members <==> v in ids && levels[v] == level
    ensures CountLevel(ids, levels, level) == |members|
  {
    if ids == [] {
      assert members == {};
    } else {
      var init, last := ids[..|ids| - 1], ids[|ids| - 1];
      LastIsNew(ids);
      CountIsClass(init, levels, level, members - {last});
      if levels[last] == level { assert |members| == |members - {last}| + 1; } else { assert members - {last} == members; }
    }
  }

  lemma LastIsNew(ids: seq<Id>)
    requires NoRepeats(ids) && ids != []
    ensures forall v :: v in ids[..|ids| - 1] <==> v in ids && v != ids[|ids| - 1]
  {
    assert ids == ids[..|ids| - 1] + [ids[|ids| - 1]];
  }

  lemma {:induction false} CountedLevel(ids: seq<Id>, levels: map<Id, nat>, level: nat)
    requires (forall v :: v in ids ==> v in levels) && CountLevel(ids, levels, level) > 0
    ensures exists v :: v in ids && levels[v] == level
  {
    if levels[ids[|ids| - 1]] != level { CountedLevel(ids[..|ids| - 1], levels, level); }
  }

  /** `max(levels)` */
  method MaxLevel(ids: seq<Id>, levels: map<Id, nat>) returns (depth: nat)
    requires ids != [] && forall v :: v in ids ==> v in levels
    ensures forall v :: v in ids ==> levels[v] <= depth
    ensures exists v :: v in ids && levels[v] == depth
  {
    depth := levels[ids[0]];
    for i := 1 to |ids|
      invariant forall j :: 0 <= j < i ==> levels[ids[j]] <= depth
      invariant exists j :: 0 <= j < i && levels[ids[j]] == depth
    {
      if levels[ids[i]] > depth { depth := levels[ids[i]]; }
    }
  }

  /** The `width_counter` loop and the maximum over its values. */
  method MaxCount(ids: seq<Id>, levels: map<Id, nat>) returns (width: nat)
    requires ids != [] && forall v :: v in ids ==> v in levels
    ensures forall level: nat :: CountLevel(ids, levels, level) <= width
    ensures exists level: nat :: CountLevel(ids, levels, level) == width > 0
  {
    var counter: map<nat, nat> := map[];
    width := 0;
    ghost var widest := 0;
    for i := 0 to |ids|
      invariant forall level: nat :: CountLevel(ids[..i], levels, level) == if level in counter then counter[level] else 0
      invariant forall level: nat :: CountLevel(ids[..i], levels, level) <= width
      invariant CountLevel(ids[..i], levels, widest) == width
      invariant i > 0 ==> width > 0
    {
      var current := levels[ids[i]];
      assert ids[..i + 1][..i] == ids[..i];
      counter := counter[current := (if current in counter then counter[current] else 0) + 1];
      if counter[current] > width { width, widest := counter[current], current; }
    }
    assert ids[..|ids|] == ids;
  }

  lemma LevelsGiveMetrics(g: Graph, ids: seq<Id>, levels: map<Id, nat>, depth: nat, width: nat)
    requires NoRepeats(ids) && (forall v :: v in ids <==> v in g) && levels.Keys == g.Keys
    requires forall v :: v in levels ==> IsLevel(g, v, levels[v])
    requires forall v :: v in ids ==> levels[v] <= depth
    requires exists v :: v in ids && levels[v] == depth
    requires forall level: nat :: CountLevel(ids, levels, level) <= width
    requires exists level: nat :: CountLevel(ids, levels, level) == width > 0
    ensures DepthAndWidth(g, depth, width)
  {
    forall v | v in g ensures Within(g, v, depth) { WithinMonotone(g, v, levels[v], depth); }
    forall level: nat ensures CountLevel(ids, levels, level) == |LevelClass(g, level)| {
      forall v ensures v in LevelClass(g, level) <==> v in ids && levels[v] == level {
        if v in g && IsLevel(g, v, level) { ChainEdgesUnique(g, v, level - 1, levels[v] - 1); }
      }
      CountIsClass(ids, levels, level, LevelClass(g, level));
    }
    var level: nat :| CountLevel(ids, levels, level) == width > 0;
    CountedLevel(ids, levels, level);
  }

  /** The loop that computes every task's level. */
  method FillCache(taskMap: TaskMap) returns (ids: seq<Id>, levels: map<Id, nat>)
    ensures NoRepeats(ids) && (forall v :: v in ids <==> v in taskMap) && levels.Keys == taskMap.Keys
    ensures !Cyclic(EdgesOf(taskMap)) ==> forall v :: v in levels ==> IsLevel(EdgesOf(taskMap), v, levels[v])
  {
    var search := new LevelSearch(taskMap);
    ids := SortIds(taskMap.Keys);
    for i := 0 to |ids|
      invariant search.Valid() && search.taskMap == taskMap
      invariant forall j :: 0 <= j < i ==> ids[j] in search.levelCache
    {
      var level := search.Level(ids[i], {});
    }
    levels := search.levelCache;
    assert forall v :: v in taskMap ==> v in ids;
  }

  /** `_compute_structural_metrics`: depth and width of the dependency graph. */
  method ComputeStructuralMetrics(taskMap: TaskMap) returns (depth: nat, width: nat)
    ensures !Cyclic(EdgesOf(taskMap)) ==> IsDepthAndWidth(EdgesOf(taskMap), depth, width)
  {
    if |taskMap| == 0 { return 0, 0; }
    var ids, levels := FillCache(taskMap);
    assert ids != [] by {
      assert |taskMap.Keys| == |taskMap|;
      var v :| v in taskMap.Keys;
      assert v in ids;
    }
    depth := MaxLevel(ids, levels);
    width := MaxCount(ids, levels);
    if !Cyclic(EdgesOf(taskMap)) { LevelsGiveMetrics(EdgesOf(taskMap), ids, levels, depth, width); }
  }

  // ---------- agreement with the planner ----------

  /** The task map of reported tasks; `_normalize_dependencies` hands the dependency lists over sorted. */
  function TaskMapOf(tasks: seq<TaskNode>): TaskMap {
    if tasks == [] then map[] else
    var last := tasks[|tasks| - 1];
    TaskMapOf(tasks[..|tasks| - 1])[last.id := Sort(last.dependencies, StrLt)]
  }

  /** The map lists, in any order and with any repetition, the dependencies of exactly the given tasks. */
  ghost predicate Describes(taskMap: TaskMap, tasks: seq<TaskNode>) {
    taskMap.Keys == Ids(tasks) && forall t, d :: t in tasks ==> (d in taskMap[t.id] <==> d in t.dependencies)
  }

  lemma {:induction false} TaskMapDescribes(tasks: seq<TaskNode>)
    requires UniqueIds(tasks)
    ensures Describes(TaskMapOf(tasks), tasks)
  {
    if tasks != [] {
      var init, last := tasks[..|tasks| - 1], tasks[|tasks| - 1];
      TaskMapDescribes(init);
      SortMembers(last.dependencies, StrLt);
      assert tasks == init + [last];
      assert forall t :: t in init ==> t.id != last.id;
    }
  }

  /** The task map of a validated task list describes the planner's graph. */
  lemma SameGraph(tasks: seq<TaskNode>, taskMap: TaskMap)
    requires Validated(tasks) && Describes(taskMap, tasks)
    ensures EdgesOf(taskMap) == Adjacency(tasks)
  {
    forall d | d in taskMap ensures EdgesOf(taskMap)[d] == Adjacency(tasks)[d] {
      forall v ensures v in EdgesOf(taskMap)[d] <==> v in Adjacency(tasks)[d] {
        if v in taskMap {
          var t :| t in tasks && t.id == v;
          assert d in taskMap[v] <==> d in t.dependencies;
        }
      }
    }
  }

  /** The recursive metrics agree with the iterative planner: depth counts its groups, width is its largest. */
  lemma MetricsMatchLevels(g: Graph, l: Levels, depth: nat, width: nat)
    requires Levelled(g, l) && DepthAndWidth(g, depth, width)
    ensures depth == |l.groups|
    ensures forall k :: 0 <= k < |l.groups| ==> |l.groups[k]| <= width
    ensures exists k :: 0 <= k < |l.groups| && |l.groups[k]| == width
    ensures |l.ordered| <= depth * width
  {
    var n := |l.groups|;
    var v :| v in g && IsLevel(g, v, depth);
    assert Within(g, v, n);
    LevelBound(g, v, n, depth - 1);
    if n > 0 {
      var u := GroupWitness(g, l, n - 1);
      LevelBound(g, u, depth, n - 1);
    }
    forall k | 0 <= k < n ensures |l.groups[k]| == |LevelClass(g, k + 1)| { GroupIsClass(g, l, k); }
    var level: nat :| level > 0 && |LevelClass(g, level)| == width > 0;
    var w :| w in LevelClass(g, level);
    assert Within(g, w, n);
    LevelBound(g, w, n, level - 1);
    assert |l.groups[level - 1]| == width;
    FlattenBound(l.groups, width);
  }

  lemma LevelBound(g: Graph, v: Id, j: nat, k: nat)
    requires Within(g, v, j) && !Within(g, v, k)
    ensures k < j
  {
  }

  lemma GroupIsClass(g: Graph, l: Levels, k: nat)
    requires Levelled(g, l) && k < |l.groups|
    ensures |l.groups[k]| == |LevelClass(g, k + 1)|
  {
    AscendingNoRepeats(l.groups[k]);
    RepeatsCounted(l.groups[k]);
    assert (set v | v in l.groups[k]) == LevelClass(g, k + 1);
  }

  lemma {:induction false} FlattenBound(groups: seq<seq<Id>>, width: nat)
    requires forall k :: 0 <= k < |groups| ==> |groups[k]| <= width
    ensures |Flatten(groups)| <= |groups| * width
  {
    if groups != [] {
      var init := groups[..|groups| - 1];
      FlattenBound(init, width);
      assert |groups| * width == |init| * width + width;
    }
  }

  lemma NoGroups(g: Graph, l: Levels)
    requires Levelled(g, l) && g == map[]
    ensures l.groups == []
  {
    if l.groups != [] { var v := GroupWitness(g, l, 0); }
  }

  /** For a planned task list: depth is the number of execution groups, width the largest, tasks <= depth * width. */
  lemma MetricsMatchPlan(tasks: seq<TaskNode>, p: ExecutionPlan, taskMap: TaskMap, depth: nat, width: nat)
    requires Validated(tasks) && PlanOf(tasks, p) && Describes(taskMap, tasks)
    requires IsDepthAndWidth(EdgesOf(taskMap), depth, width)
    ensures depth == |p.executionGroups|
    ensures forall k :: 0 <= k < depth ==> |p.executionGroups[k].taskIds| <= width
    ensures if tasks == [] then depth == width == 0 else exists k :: 0 <= k < depth && |p.executionGroups[k].taskIds| == width
    ensures |tasks| <= depth * width
  {
    SameGraph(tasks, taskMap);
    var l := Levels(IdsInOrder(p.orderedTasks), GroupIds(p.executionGroups));
    if tasks == [] {
      NoGroups(Adjacency(tasks), l);
      assert |l.groups| == |p.executionGroups|;
    } else {
      assert tasks[0].id in Adjacency(tasks);
      MetricsMatchLevels(Adjacency(tasks), l, depth, width);
      forall k | 0 <= k < depth ensures l.groups[k] == p.executionGroups[k].taskIds { }
      PlanPermutation(tasks, p);
      assert |multiset(p.orderedTasks)| == |p.orderedTasks| && |multiset(tasks)| == |tasks|;
    }
  }
}
