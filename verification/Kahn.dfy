/**
 The in-degree bookkeeping that both schedulers share. A node whose recorded in-degree exceeds its
 number of distinct dependencies can never be released.
 */
module Kahn {
  import opened Ordering
  import opened Digraph

  /** The recorded in-degree counts every distinct dependency at least once. */
  ghost predicate Covers(g: Graph, inDegree: map<Id, int>) {
    inDegree.Keys == g.Keys && forall v :: v in g ==> |Preds(g, v)| <= inDegree[v]
  }

  /** The recorded in-degree counts every distinct dependency exactly once. */
  ghost predicate Exact(g: Graph, inDegree: map<Id, int>) {
    inDegree.Keys == g.Keys && forall v :: v in g ==> inDegree[v] == |Preds(g, v)|
  }

  /** `degree` is the recorded in-degree after the nodes in `done` released their neighbours. */
  ghost predicate Remaining(g: Graph, inDegree: map<Id, int>, done: set<Id>, degree: map<Id, int>) {
    && inDegree.Keys == g.Keys == degree.Keys
    && forall v :: v in g ==> degree[v] == inDegree[v] - |Preds(g, v) * done|
  }

  lemma MeetAll(a: set<Id>, b: set<Id>)
    ensures |a * b| <= |a|
    ensures |a * b| == |a| <==> a <= b
  {
    assert a == (a * b) + (a - b);
    assert |a| == |a * b| + |a - b|;
  }

  lemma MeetAdd(a: set<Id>, b: set<Id>, x: Id)
    requires x !in b
    ensures |a * (b + {x})| == |a * b| + (if x in a then 1 else 0)
  {
    if x in a {
      assert a * (b + {x}) == a * b + {x};
    } else {
      assert a * (b + {x}) == a * b;
    }
  }

  /** All dependencies of `v` are in `s`, and its recorded in-degree does not over-count them. */
  ghost predicate Unlocks(g: Graph, inDegree: map<Id, int>, s: set<Id>, v: Id) {
    v in g && v in inDegree && inDegree[v] == |Preds(g, v)| && Preds(g, v) <= s
  }

  /** A node's counter is zero exactly when all its dependencies are done and none was over-counted. */
  lemma ReadyIff(g: Graph, inDegree: map<Id, int>, done: set<Id>, degree: map<Id, int>, v: Id)
    requires Covers(g, inDegree) && Remaining(g, inDegree, done, degree) && v in g
    ensures degree[v] == 0 <==> Unlocks(g, inDegree, done, v)
  {
    MeetAll(Preds(g, v), done);
  }

  lemma RemainingStart(g: Graph, inDegree: map<Id, int>)
    requires inDegree.Keys == g.Keys
    ensures Remaining(g, inDegree, {}, inDegree)
  {
  }

  lemma RemainingStep(g: Graph, inDegree: map<Id, int>, done: set<Id>, degree: map<Id, int>, node: Id, after: map<Id, int>)
    requires Remaining(g, inDegree, done, degree) && node in g && node !in done
    requires after.Keys == g.Keys
    requires forall v :: v in g ==> after[v] == degree[v] - (if v in g[node] then 1 else 0)
    ensures Remaining(g, inDegree, done + {node}, after)
  {
    forall v | v in g
      ensures after[v] == inDegree[v] - |Preds(g, v) * (done + {node})|
    {
      MeetAdd(Preds(g, v), done, node);
    }
  }

  /** The inner loop of both schedulers: decrement each neighbour once and collect those that reach zero. */
  method Release(neighbors: seq<Id>, degree: map<Id, int>) returns (after: map<Id, int>, freed: set<Id>)
    requires forall v :: v in neighbors ==> v in degree
    requires forall i, j :: 0 <= i < j < |neighbors| ==> neighbors[i] != neighbors[j]
    ensures after.Keys == degree.Keys
    ensures forall v :: v in degree ==> after[v] == degree[v] - (if v in neighbors then 1 else 0)
    ensures forall v :: v in freed <==> v in neighbors && after[v] == 0
  {
    after, freed := degree, {};
    for i := 0 to |neighbors|
      invariant after.Keys == degree.Keys
      invariant forall j :: 0 <= j < i ==> after[neighbors[j]] == degree[neighbors[j]] - 1
      invariant forall v :: v in degree && v !in neighbors[..i] ==> after[v] == degree[v]
      invariant forall v :: v in freed <==> v in neighbors[..i] && after[v] == 0
    {
      var neighbor := neighbors[i];
      assert neighbors[..i + 1] == neighbors[..i] + [neighbor];
      assert neighbor !in neighbors[..i];
      after := after[neighbor := after[neighbor] - 1];
      if after[neighbor] == 0 {
        freed := freed + {neighbor};
      }
    }
    assert neighbors[..|neighbors|] == neighbors;
  }
}
