/**
 Directed graphs as adjacency maps, paths, cycles and chain lengths. An edge u -> v says that
 task v depends on task u, as in the forward adjacency the planners keep.
 */
module Digraph {
  import opened Ordering

  type Graph = map<Id, set<Id>>

  /** Every neighbour is itself a node. */
  ghost predicate Closed(g: Graph) {
    forall u, v :: u in g && v in g[u] ==> v in g
  }

  ghost predicate IsPath(g: Graph, p: seq<Id>) {
    && p != []
    && (forall i :: 0 <= i < |p| ==> p[i] in g)
    && (forall i :: 0 <= i < |p| - 1 ==> p[i + 1] in g[p[i]])
  }

  ghost predicate PathTo(g: Graph, p: seq<Id>, v: Id) {
    IsPath(g, p) && p[|p| - 1] == v
  }

  ghost predicate IsCycle(g: Graph, p: seq<Id>) {
    IsPath(g, p) && |p| > 1 && p[0] == p[|p| - 1]
  }

  ghost predicate Cyclic(g: Graph) {
    exists p :: IsCycle(g, p)
  }

  ghost predicate Reaches(g: Graph, u: Id, v: Id) {
    exists p :: PathTo(g, p, v) && p[0] == u
  }

  /** The distinct direct dependencies of `v`. */
  function Preds(g: Graph, v: Id): set<Id> {
    set u | u in g && v in g[u]
  }

  /** Every dependency chain that ends in `v` has at most `k` tasks. */
  ghost predicate Within(g: Graph, v: Id, k: nat) {
    forall p :: PathTo(g, p, v) ==> |p| <= k
  }

  /** The longest dependency chain that ends in `v` has exactly `k` edges. */
  ghost predicate ChainEdges(g: Graph, v: Id, k: nat) {
    Within(g, v, k + 1) && !Within(g, v, k)
  }

  /** Each dependency of a node stands earlier in `order`. */
  ghost predicate Respects(g: Graph, order: seq<Id>) {
    forall i, u :: 0 <= i < |order| && u in Preds(g, order[i]) ==> u in order[..i]
  }

  lemma {:induction false} RepeatsCounted(xs: seq<Id>)
    ensures |set x | x in xs| <= |xs|
    ensures |set x | x in xs| == |xs| <==> NoRepeats(xs)
  {
    if xs != [] {
      var init, last := xs[..|xs| - 1], xs[|xs| - 1];
      RepeatsCounted(init);
      assert xs == init + [last];
      assert (set x | x in xs) == (set x | x in init) + {last};
      if last in init {
        assert (set x | x in xs) == (set x | x in init);
        var i :| 0 <= i < |init| && init[i] == last;
        assert xs[i] == xs[|xs| - 1];
      } else {
        assert NoRepeats(init) ==> NoRepeats(xs);
        assert NoRepeats(xs) ==> NoRepeats(init) by {
          assert forall i :: 0 <= i < |init| ==> init[i] == xs[i];
        }
      }
    }
  }

  // ---------- paths ----------

  lemma ExtendPath(g: Graph, p: seq<Id>, u: Id, v: Id)
    requires PathTo(g, p, u) && v in g && v in g[u]
    ensures PathTo(g, p + [v], v)
  {
  }

  lemma ReachesStep(g: Graph, s: Id, u: Id, v: Id)
    requires Reaches(g, s, u) && u in g && v in g && v in g[u]
    ensures Reaches(g, s, v)
  {
    var p :| PathTo(g, p, u) && p[0] == s;
    ExtendPath(g, p, u, v);
  }

  lemma ReachesSelf(g: Graph, v: Id)
    requires v in g
    ensures Reaches(g, v, v)
  {
    assert PathTo(g, [v], v);
  }

  lemma BackEdgeCycle(g: Graph, u: Id, v: Id)
    requires Reaches(g, v, u) && u in g && v in g && v in g[u]
    ensures Cyclic(g)
  {
    var p :| PathTo(g, p, u) && p[0] == v;
    ExtendPath(g, p, u, v);
    assert IsCycle(g, p + [v]);
  }

  // ---------- chain lengths ----------

  lemma WithinStep(g: Graph, v: Id, k: nat)
    requires v in g
    ensures Within(g, v, k + 1) <==> forall u :: u in Preds(g, v) ==> Within(g, u, k)
  {
    if Within(g, v, k + 1) {
      forall u, p | u in Preds(g, v) && PathTo(g, p, u) ensures |p| <= k {
        ExtendPath(g, p, u, v);
      }
    }
    if forall u :: u in Preds(g, v) ==> Within(g, u, k) {
      forall p | PathTo(g, p, v) ensures |p| <= k + 1 {
        if |p| > 1 {
          var q := p[..|p| - 1];
          var u := q[|q| - 1];
          assert PathTo(g, q, u) && u in Preds(g, v);
        }
      }
    }
  }

  lemma WithinPositive(g: Graph, v: Id)
    requires v in g
    ensures !Within(g, v, 0)
  {
    assert PathTo(g, [v], v);
  }

  lemma WithinMonotone(g: Graph, v: Id, j: nat, k: nat)
    requires j <= k
    ensures Within(g, v, j) ==> Within(g, v, k)
  {
  }

  lemma ChainEdgesUnique(g: Graph, v: Id, j: nat, k: nat)
    requires ChainEdges(g, v, j) && ChainEdges(g, v, k)
    ensures j == k
  {
  }

  // ---------- cycles and unbounded chains ----------

  lemma RepetitionExists(g: Graph, p: seq<Id>)
    requires (forall i :: 0 <= i < |p| ==> p[i] in g) && |p| > |g|
    ensures exists i, j :: 0 <= i < j < |p| && p[i] == p[j]
  {
    assert |g.Keys| == |g|;
    if forall i, j :: 0 <= i < j < |p| ==> p[i] != p[j] {
      DistinctFit(p, g.Keys);
    }
  }

  lemma {:induction false} DistinctFit(p: seq<Id>, s: set<Id>)
    requires forall i :: 0 <= i < |p| ==> p[i] in s
    requires forall i, j :: 0 <= i < j < |p| ==> p[i] != p[j]
    ensures |p| <= |s|
  {
    if p != [] {
      var last := p[|p| - 1];
      DistinctFit(p[..|p| - 1], s - {last});
    }
  }

  /** A path with more tasks than the graph has nodes runs through a cycle. */
  lemma LongPathCycles(g: Graph, p: seq<Id>)
    requires IsPath(g, p) && |p| > |g|
    ensures Cyclic(g)
  {
    RepetitionExists(g, p);
    var i, j :| 0 <= i < j < |p| && p[i] == p[j];
    assert IsCycle(g, p[i..j + 1]);
  }

  /** Every node outside `s` still waits for a dependency outside `s`. */
  ghost predicate Stuck(g: Graph, s: set<Id>) {
    forall v {:trigger Preds(g, v)} :: v in g && v !in s ==> exists u :: u in Preds(g, v) && u !in s
  }

  /** Nodes left over when nothing can be released lie on or behind a cycle. */
  lemma StuckCycle(g: Graph, s: set<Id>, v: Id)
    requires Stuck(g, s) && v in g && v !in s
    ensures Cyclic(g)
  {
    var p := ChainOutside(g, s, v, |g| + 1);
    LongPathCycles(g, p);
  }

  lemma {:induction false} ChainOutside(g: Graph, s: set<Id>, v: Id, n: nat) returns (p: seq<Id>)
    requires Stuck(g, s) && v in g && v !in s && n > 0
    ensures PathTo(g, p, v) && |p| == n && p[0] !in s
    decreases n
  {
    if n == 1 {
      p := [v];
    } else {
      var q := ChainOutside(g, s, v, n - 1);
      var u :| u in Preds(g, q[0]) && u !in s;
      p := [u] + q;
    }
  }

  // ---------- depth-first search ----------

  /** `rank` numbers a set of nodes closed under edges so that every edge goes down. */
  ghost predicate Ranked(g: Graph, rank: map<Id, nat>) {
    forall u, v :: u in rank && u in g && v in g[u] ==> v in rank && rank[v] < rank[u]
  }

  lemma {:induction false} RankFalls(g: Graph, rank: map<Id, nat>, p: seq<Id>)
    requires Ranked(g, rank) && IsPath(g, p) && p[0] in rank
    ensures p[|p| - 1] in rank && (|p| > 1 ==> rank[p[|p| - 1]] < rank[p[0]])
  {
    if |p| > 1 {
      assert p[1] in g[p[0]];
      RankFalls(g, rank, p[1..]);
    }
  }

  lemma RankedAcyclic(g: Graph, rank: map<Id, nat>)
    requires Ranked(g, rank) && g.Keys <= rank.Keys
    ensures !Cyclic(g)
  {
    forall p | IsCycle(g, p) ensures false {
      RankFalls(g, rank, p);
    }
  }

  /**
   The recursive search both graph classes use: `visited` and `recStack` are the two sets the
   nested function captures. The search numbers nodes in finishing order for its proof.
   */
  class DepthFirstSearch {
    const g: Graph
    const lt: (Id, Id) -> bool
    var visited: set<Id>
    var recStack: set<Id>
    ghost var rank: map<Id, nat>
    ghost var clock: nat

    ghost predicate Valid()
      reads this
    {
      && Closed(g) && StrictTotal(lt)
      && recStack <= visited <= g.Keys
      && rank.Keys == visited - recStack
      && Ranked(g, rank)
      && (forall u :: u in rank ==> rank[u] < clock)
    }

    constructor (g: Graph, lt: (Id, Id) -> bool)
      requires Closed(g) && StrictTotal(lt)
      ensures Valid() && this.g == g && this.lt == lt && visited == {} && recStack == {}
    {
      this.g, this.lt := g, lt;
      visited, recStack, rank, clock := {}, {}, map[], 0;
    }

    method InOrder(s: set<Id>) returns (r: seq<Id>)
      requires StrictTotal(lt)
      ensures forall x :: x in r <==> x in s
    {
      r := SortSet(s, lt);
    }

    method Visit(node: Id) returns (found: bool)
      requires Valid() && node in g && node !in visited
      requires forall s :: s in recStack ==> Reaches(g, s, node)
      modifies this
      ensures found ==> Cyclic(g)
      ensures !found ==> Valid() && recStack == old(recStack) && old(visited) <= visited && node in visited
      decreases g.Keys - visited
    {
      visited := visited + {node};
      recStack := recStack + {node};
      ReachesSelf(g, node);
      var neighbors := InOrder(g[node]);
      for i := 0 to |neighbors|
        invariant Valid() && recStack == old(recStack) + {node}
        invariant old(visited) <= visited
        invariant forall j :: 0 <= j < i ==> neighbors[j] in rank
      {
        var neighbor := neighbors[i];
        assert neighbor in g[node];
        if neighbor !in visited {
          forall s | s in recStack ensures Reaches(g, s, neighbor) { ReachesStep(g, s, node, neighbor); }
          var deeper := Visit(neighbor);
          if deeper { return true; }
        } else if neighbor in recStack {
          BackEdgeCycle(g, node, neighbor);
          return true;
        }
      }
      assert forall v :: v in g[node] ==> v in neighbors;
      recStack := recStack - {node};
      rank, clock := rank[node := clock], clock + 1;
      return false;
    }

    /** The outer loop over the sorted nodes. */
    method Search() returns (found: bool)
      requires Valid() && visited == {} && recStack == {}
      modifies this
      ensures found <==> Cyclic(g)
    {
      var nodes := InOrder(g.Keys);
      for i := 0 to |nodes|
        invariant Valid() && recStack == {}
        invariant forall j :: 0 <= j < i ==> nodes[j] in visited
      {
        if nodes[i] !in visited {
          assert nodes[i] in g.Keys;
          var cyclic := Visit(nodes[i]);
          if cyclic { return true; }
        }
      }
      assert forall v :: v in g ==> v in nodes;
      RankedAcyclic(g, rank);
      return false;
    }
  }
}
