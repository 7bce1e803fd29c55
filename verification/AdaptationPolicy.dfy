/** Filters on proposed self-improvements: the best per target survive, everything else is rejected. */
module AdaptationPolicies {
  import opened Ordering

  type Key = (string, string)

  /** `actionType` as its string value; the payload the policies do not look at is left out. */
  datatype Adaptation = Adaptation(id: string, actionType: string, target: string, confidence: real, description: string)

  datatype AdaptationPolicy = AdaptationPolicy(threshold: real, forbidden: seq<string>)

  datatype Split = Split(approved: seq<Adaptation>, rejected: seq<Adaptation>)

  function KeyOf(a: Adaptation): Key { (a.actionType, a.target) }

  predicate Eligible(p: AdaptationPolicy, a: Adaptation) {
    a.confidence >= p.threshold && a.target !in p.forbidden
  }

  /** The sort key (action type, target, id). */
  predicate Before(a: Adaptation, b: Adaptation) {
    if a.actionType != b.actionType then StrLt(a.actionType, b.actionType)
    else if a.target != b.target then StrLt(a.target, b.target)
    else StrLt(a.id, b.id)
  }

  lemma BeforeIsWeak()
    ensures StrictWeak(Before)
  {
    StrLtTotal();
    TotalIsWeak(StrLt);
    forall a, b | Before(a, b) ensures !Before(b, a) {
      StrOrder(a.actionType, b.actionType, b.actionType);
      StrOrder(a.target, b.target, b.target);
      StrOrder(a.id, b.id, b.id);
    }
    forall a, b, c | Before(a, c) ensures Before(a, b) || Before(b, c) {
      StrOrder(a.actionType, b.actionType, c.actionType);
      StrOrder(a.target, b.target, c.target);
      StrOrder(a.id, b.id, c.id);
    }
  }

  lemma StrOrder(a: string, b: string, c: string)
    ensures StrLt(a, b) ==> !StrLt(b, a)
    ensures StrLt(a, c) ==> StrLt(a, b) || StrLt(b, c)
    ensures a == b || StrLt(a, b) || StrLt(b, a)
    ensures StrLt(a, c) ==> !StrLt(c, a)
  {
    StrLtTotal();
    TotalIsWeak(StrLt);
  }

  // ---------- what a split means ----------

  /** `a` outdoes `b`: higher confidence, or the same and a smaller id. */
  predicate Outdoes(a: Adaptation, b: Adaptation) {
    a.confidence > b.confidence || (a.confidence == b.confidence && StrLt(a.id, b.id))
  }

  /** An eligible element of `xs` that no other eligible one with its action type and target outdoes. */
  ghost predicate Best(p: AdaptationPolicy, xs: seq<Adaptation>, a: Adaptation) {
    a in xs && Eligible(p, a) && forall b :: b in xs && Eligible(p, b) && KeyOf(b) == KeyOf(a) ==> !Outdoes(b, a)
  }

  /** Nothing is lost or duplicated; approved are exactly one best for each key with an eligible candidate; both sorted. */
  ghost predicate Splits(p: AdaptationPolicy, xs: seq<Adaptation>, s: Split) {
    && multiset(s.approved) + multiset(s.rejected) == multiset(xs)
    && (forall a :: a in s.approved ==> Best(p, xs, a))
    && (forall a :: a in xs && Eligible(p, a) ==> HasKey(s.approved, KeyOf, KeyOf(a)))
    && DistinctBy(s.approved, KeyOf)
    && SortedBy(s.approved, Before) && SortedBy(s.rejected, Before)
  }

  // ---------- the validator ----------

  ghost predicate Covers(p: AdaptationPolicy, done: seq<Adaptation>, seen: map<Key, Adaptation>) {
    forall a :: a in done && Eligible(p, a) ==> KeyOf(a) in seen
  }

  ghost predicate AllBest(p: AdaptationPolicy, done: seq<Adaptation>, seen: map<Key, Adaptation>) {
    forall k :: k in seen ==> KeyOf(seen[k]) == k && Best(p, done, seen[k])
  }

  /** After the prefix `done`: `seen` holds the best of each key, everything else is rejected. */
  ghost predicate Progress(p: AdaptationPolicy, done: seq<Adaptation>, keys: seq<Key>, seen: map<Key, Adaptation>, rejected: seq<Adaptation>) {
    && Dictionary(keys, seen) && AllBest(p, done, seen) && Covers(p, done, seen)
    && multiset(Values(keys, seen)) + multiset(rejected) == multiset(done)
  }

  /** Rejecting the next candidate. */
  lemma RejectStep(p: AdaptationPolicy, done: seq<Adaptation>, keys: seq<Key>, seen: map<Key, Adaptation>, rejected: seq<Adaptation>, c: Adaptation)
    requires Progress(p, done, keys, seen, rejected)
    requires Eligible(p, c) ==> KeyOf(c) in seen && !Outdoes(c, seen[KeyOf(c)])
    ensures Progress(p, done + [c], keys, seen, rejected + [c])
  {
  }

  /** The first eligible candidate of a key. */
  lemma InsertStep(p: AdaptationPolicy, done: seq<Adaptation>, keys: seq<Key>, seen: map<Key, Adaptation>, rejected: seq<Adaptation>, c: Adaptation)
    requires Progress(p, done, keys, seen, rejected)
    requires Eligible(p, c) && KeyOf(c) !in seen && !Outdoes(c, c)
    ensures Progress(p, done + [c], keys + [KeyOf(c)], seen[KeyOf(c) := c], rejected)
  {
    InsertedValues(keys, seen, c);
    FirstBest(p, done, seen, c);
    BestAfter(p, done, seen, c);
    CoversAfter(p, done, seen, c);
    assert multiset(done + [c]) == multiset(done) + multiset{c};
  }

  /** A more confident candidate supersedes the one seen before. */
  lemma ReplaceStep(p: AdaptationPolicy, done: seq<Adaptation>, keys: seq<Key>, seen: map<Key, Adaptation>, rejected: seq<Adaptation>, c: Adaptation)
    requires Progress(p, done, keys, seen, rejected)
    requires Eligible(p, c) && KeyOf(c) in seen && c.confidence > seen[KeyOf(c)].confidence && !Outdoes(c, c)
    ensures Progress(p, done + [c], keys, seen[KeyOf(c) := c], rejected + [seen[KeyOf(c)]])
  {
    ReplacedValues(keys, seen, c);
    NowBest(p, done, seen[KeyOf(c)], c);
    BestAfter(p, done, seen, c);
    CoversAfter(p, done, seen, c);
    assert multiset(done + [c]) == multiset(done) + multiset{c};
    var before, after, prior := Values(keys, seen), Values(keys, seen[KeyOf(c) := c]), seen[KeyOf(c)];
    assert multiset(rejected + [prior]) == multiset(rejected) + multiset{prior};
    assert multiset(after) + multiset(rejected + [prior]) == multiset(before) + multiset{c} + multiset(rejected);
  }

  lemma BestAfter(p: AdaptationPolicy, done: seq<Adaptation>, seen: map<Key, Adaptation>, c: Adaptation)
    requires AllBest(p, done, seen) && Best(p, done + [c], c)
    ensures AllBest(p, done + [c], seen[KeyOf(c) := c])
  {
  }

  lemma CoversAfter(p: AdaptationPolicy, done: seq<Adaptation>, seen: map<Key, Adaptation>, c: Adaptation)
    requires Covers(p, done, seen)
    ensures Covers(p, done + [c], seen[KeyOf(c) := c])
  {
  }

  lemma InsertedValues(keys: seq<Key>, seen: map<Key, Adaptation>, c: Adaptation)
    requires Dictionary(keys, seen) && KeyOf(c) !in seen
    ensures Dictionary(keys + [KeyOf(c)], seen[KeyOf(c) := c])
    ensures Values(keys + [KeyOf(c)], seen[KeyOf(c) := c]) == Values(keys, seen) + [c]
  {
  }

  lemma FirstBest(p: AdaptationPolicy, done: seq<Adaptation>, seen: map<Key, Adaptation>, c: Adaptation)
    requires Covers(p, done, seen) && Eligible(p, c) && KeyOf(c) !in seen && !Outdoes(c, c)
    ensures Best(p, done + [c], c)
  {
  }

  lemma NowBest(p: AdaptationPolicy, done: seq<Adaptation>, prior: Adaptation, c: Adaptation)
    requires Best(p, done, prior) && Eligible(p, c) && KeyOf(prior) == KeyOf(c) && c.confidence > prior.confidence && !Outdoes(c, c)
    ensures Best(p, done + [c], c)
  {
  }

  lemma ReplacedValues(keys: seq<Key>, seen: map<Key, Adaptation>, c: Adaptation)
    requires Dictionary(keys, seen) && KeyOf(c) in seen
    ensures Dictionary(keys, seen[KeyOf(c) := c])
    ensures multiset(Values(keys, seen[KeyOf(c) := c])) + multiset{seen[KeyOf(c)]} == multiset(Values(keys, seen)) + multiset{c}
  {
    var values := Values(keys, seen);
    var i :| 0 <= i < |keys| && keys[i] == KeyOf(c);
    assert Values(keys, seen[KeyOf(c) := c]) == values[i := c];
    ReplacedValue(values, i, c);
  }

  lemma ReplacedValue(xs: seq<Adaptation>, i: nat, c: Adaptation)
    requires i < |xs|
    ensures multiset(xs[i := c]) + multiset{xs[i]} == multiset(xs) + multiset{c}
  {
  }

  method Validate(p: AdaptationPolicy, xs: seq<Adaptation>) returns (s: Split)
    ensures Splits(p, xs, s)
  {
    BeforeIsWeak();
    SortSorts(xs, Before);
    var ordered := Sort(xs, Before);
    var keys: seq<Key>, seen: map<Key, Adaptation>, rejected := [], map[], [];
    for i := 0 to |ordered|
      invariant Progress(p, ordered[..i], keys, seen, rejected)
    {
      var candidate := ordered[i];
      PrefixStep(ordered, i);
      StrOrder(candidate.id, candidate.id, candidate.id);
      if candidate.confidence < p.threshold || candidate.target in p.forbidden {
        RejectStep(p, ordered[..i], keys, seen, rejected, candidate);
        rejected := rejected + [candidate];
        continue;
      }
      var key := KeyOf(candidate);
      if key !in seen {
        InsertStep(p, ordered[..i], keys, seen, rejected, candidate);
        keys, seen := keys + [key], seen[key := candidate];
      } else if candidate.confidence > seen[key].confidence {
        ReplaceStep(p, ordered[..i], keys, seen, rejected, candidate);
        rejected := rejected + [seen[key]];
        seen := seen[key := candidate];
      } else {
        LaterIsNotSmaller(ordered, i, seen[key]);
        RejectStep(p, ordered[..i], keys, seen, rejected, candidate);
        rejected := rejected + [candidate];
      }
    }
    assert ordered[..|ordered|] == ordered;
    SplitOf(p, xs, ordered, keys, seen, rejected);
    s := Split(Sort(Values(keys, seen), Before), Sort(rejected, Before));
  }

  lemma LaterIsNotSmaller(ordered: seq<Adaptation>, i: nat, earlier: Adaptation)
    requires SortedBy(ordered, Before) && i < |ordered| && earlier in ordered[..i] && KeyOf(earlier) == KeyOf(ordered[i])
    ensures !StrLt(ordered[i].id, earlier.id)
  {
  }

  /** At the end of the loop the sorted dictionary values and the sorted rejections are the split. */
  lemma SplitOf(p: AdaptationPolicy, xs: seq<Adaptation>, ordered: seq<Adaptation>, keys: seq<Key>, seen: map<Key, Adaptation>, rejected: seq<Adaptation>)
    requires Progress(p, ordered, keys, seen, rejected) && multiset(ordered) == multiset(xs)
    ensures Splits(p, xs, Split(Sort(Values(keys, seen), Before), Sort(rejected, Before)))
  {
    var values := Values(keys, seen);
    var s := Split(Sort(values, Before), Sort(rejected, Before));
    BeforeIsWeak();
    SortSorts(values, Before);
    SortSorts(rejected, Before);
    SortMembers(values, Before);
    SameElements(ordered, xs);
    forall a | a in s.approved ensures Best(p, xs, a) {
      var i :| 0 <= i < |values| && values[i] == a;
      BestTransfers(p, ordered, xs, seen[keys[i]]);
    }
    forall a | a in xs && Eligible(p, a) ensures HasKey(s.approved, KeyOf, KeyOf(a)) {
      var i :| 0 <= i < |keys| && keys[i] == KeyOf(a);
      assert values[i] in s.approved;
    }
    PermutedDistinctBy(values, s.approved, KeyOf);
  }

  lemma BestTransfers(p: AdaptationPolicy, xs: seq<Adaptation>, ys: seq<Adaptation>, a: Adaptation)
    requires Best(p, xs, a) && forall x :: x in xs <==> x in ys
    ensures Best(p, ys, a)
  {
  }

  // ---------- consequences ----------

  /** No two different candidates have the same action type, target and id; one may be listed repeatedly. */
  ghost predicate IdsTellApart(xs: seq<Adaptation>) {
    forall a, b :: a in xs && b in xs && KeyOf(a) == KeyOf(b) && a.id == b.id ==> a == b
  }

  lemma BestUnique(p: AdaptationPolicy, xs: seq<Adaptation>, a: Adaptation, b: Adaptation)
    requires IdsTellApart(xs) && Best(p, xs, a) && Best(p, xs, b) && KeyOf(a) == KeyOf(b)
    ensures a == b
  {
    StrOrder(a.id, b.id, b.id);
  }

  /** The approved are exactly the best. */
  lemma ApprovedAreBest(p: AdaptationPolicy, xs: seq<Adaptation>, s: Split, a: Adaptation)
    requires IdsTellApart(xs) && Splits(p, xs, s)
    ensures a in s.approved <==> Best(p, xs, a)
  {
    if Best(p, xs, a) {
      var i :| 0 <= i < |s.approved| && KeyOf(s.approved[i]) == KeyOf(a);
      BestUnique(p, xs, a, s.approved[i]);
    }
  }

  /** The split is determined by the input's elements and how often each occurs, whatever their order. */
  lemma SplitIgnoresOrder(p: AdaptationPolicy, xs: seq<Adaptation>, ys: seq<Adaptation>, s: Split, t: Split)
    requires IdsTellApart(xs) && multiset(xs) == multiset(ys)
    requires Splits(p, xs, s) && Splits(p, ys, t)
    ensures s == t
  {
    SameElements(xs, ys);
    forall a ensures a in s.approved <==> a in t.approved {
      ApprovedAreBest(p, xs, s, a);
      ApprovedAreBest(p, ys, t, a);
      if Best(p, xs, a) { BestTransfers(p, xs, ys, a); }
      if Best(p, ys, a) { BestTransfers(p, ys, xs, a); }
    }
    NoRepeatsMultiset(s.approved, t.approved);
    SortedSame(xs, s.approved, t.approved);
    assert multiset(s.rejected) == multiset(xs) - multiset(s.approved);
    assert multiset(t.rejected) == multiset(xs) - multiset(t.approved);
    SortedSame(xs, s.rejected, t.rejected);
  }

  lemma SortedSame(xs: seq<Adaptation>, a: seq<Adaptation>, b: seq<Adaptation>)
    requires IdsTellApart(xs) && multiset(a) <= multiset(xs) && multiset(a) == multiset(b)
    requires SortedBy(a, Before) && SortedBy(b, Before)
    ensures a == b
  {
    BeforeIsWeak();
    forall x, y | x in a && y in a && x != y ensures Before(x, y) || Before(y, x) {
      assert x in multiset(a) && y in multiset(a);
      assert x in multiset(xs) && y in multiset(xs);
      StrOrder(x.actionType, y.actionType, y.actionType);
      StrOrder(x.target, y.target, y.target);
      StrOrder(x.id, y.id, y.id);
    }
    SortedUnique(a, b, Before);
  }

  /** Confident enough, and not for a forbidden target. */
  predicate Permitted(p: AdaptationPolicy, a: Adaptation) {
    a.confidence >= p.threshold && forall i :: 0 <= i < |p.forbidden| ==> p.forbidden[i] != a.target
  }

  predicate SamePlace(a: Adaptation, b: Adaptation) {
    a.actionType == b.actionType && a.target == b.target
  }

  /**
   What is approved is permitted and has, among the permitted candidates with its action type and target, the
   highest confidence and then the smallest id; every permitted candidate's place is taken.
   */
  lemma ApprovedMeaning(p: AdaptationPolicy, xs: seq<Adaptation>, s: Split)
    requires Splits(p, xs, s)
    ensures forall a :: a in s.approved ==> a in xs && Permitted(p, a)
    ensures forall a, b :: a in s.approved && b in xs && Permitted(p, b) && SamePlace(a, b) ==>
      a.confidence > b.confidence || (a.confidence == b.confidence && (a.id == b.id || StrLt(a.id, b.id)))
    ensures forall b :: b in xs && Permitted(p, b) ==> exists i :: 0 <= i < |s.approved| && SamePlace(s.approved[i], b)
  {
    forall a | a in xs ensures Permitted(p, a) <==> Eligible(p, a) { }
    forall a | a in s.approved ensures a in xs && Permitted(p, a) { assert Best(p, xs, a); }
    forall a, b | a in s.approved && b in xs && Permitted(p, b) && SamePlace(a, b)
      ensures a.confidence > b.confidence || (a.confidence == b.confidence && (a.id == b.id || StrLt(a.id, b.id)))
    {
      assert Best(p, xs, a);
      StrOrder(a.id, b.id, b.id);
    }
    forall b | b in xs && Permitted(p, b) ensures exists i :: 0 <= i < |s.approved| && SamePlace(s.approved[i], b) {
      assert HasKey(s.approved, KeyOf, KeyOf(b));
      var i :| 0 <= i < |s.approved| && KeyOf(s.approved[i]) == KeyOf(b);
      assert SamePlace(s.approved[i], b);
    }
  }

  /** Both lists ascend by action type, then target, then id. */
  lemma ListedInOrder(p: AdaptationPolicy, xs: seq<Adaptation>, s: Split, i: nat, j: nat)
    requires Splits(p, xs, s)
    ensures i < j < |s.approved| ==> ListedBefore(s.approved[i], s.approved[j])
    ensures i < j < |s.rejected| ==> ListedBefore(s.rejected[i], s.rejected[j])
  {
    if i < j < |s.approved| { NotLater(s.approved[i], s.approved[j]); }
    if i < j < |s.rejected| { NotLater(s.rejected[i], s.rejected[j]); }
  }

  predicate ListedBefore(a: Adaptation, b: Adaptation) {
    || StrLt(a.actionType, b.actionType)
    || (a.actionType == b.actionType && StrLt(a.target, b.target))
    || (SamePlace(a, b) && (a.id == b.id || StrLt(a.id, b.id)))
  }

  lemma NotLater(a: Adaptation, b: Adaptation)
    requires !Before(b, a)
    ensures ListedBefore(a, b)
  {
    StrOrder(a.actionType, b.actionType, b.actionType);
    StrOrder(a.target, b.target, b.target);
    StrOrder(a.id, b.id, b.id);
  }

  /** Validating what was approved approves all of it again; ids need not be unique. */
  lemma SplitIdempotent(p: AdaptationPolicy, xs: seq<Adaptation>, s: Split, t: Split)
    requires Splits(p, xs, s) && Splits(p, s.approved, t)
    ensures t == Split(s.approved, [])
  {
    forall a ensures a in s.approved <==> a in t.approved {
      if a in s.approved { ApprovedAgain(p, xs, s, t, a); }
      if a in t.approved { assert Best(p, s.approved, a); }
    }
    NoRepeatsMultiset(s.approved, t.approved);
    assert |multiset(t.rejected)| == |t.rejected|;
    SortedSameKeys(s.approved, t.approved);
  }

  lemma ApprovedAgain(p: AdaptationPolicy, xs: seq<Adaptation>, s: Split, t: Split, a: Adaptation)
    requires Splits(p, xs, s) && Splits(p, s.approved, t) && a in s.approved
    ensures a in t.approved
  {
    assert Best(p, xs, a);
    var i :| 0 <= i < |t.approved| && KeyOf(t.approved[i]) == KeyOf(a);
    assert t.approved[i] in t.approved;
    assert Best(p, s.approved, t.approved[i]);
    UniqueByKey(s.approved, KeyOf, a, t.approved[i]);
  }

  lemma SortedSameKeys(a: seq<Adaptation>, b: seq<Adaptation>)
    requires DistinctBy(a, KeyOf) && multiset(a) == multiset(b) && SortedBy(a, Before) && SortedBy(b, Before)
    ensures a == b
  {
    BeforeIsWeak();
    forall x, y | x in a && y in a && x != y ensures Before(x, y) || Before(y, x) {
      if KeyOf(x) == KeyOf(y) { UniqueByKey(a, KeyOf, x, y); }
      StrOrder(x.actionType, y.actionType, y.actionType);
      StrOrder(x.target, y.target, y.target);
    }
    SortedUnique(a, b, Before);
  }

  /** Everything ineligible is rejected, and rejected eligible candidates are outdone or tied by an approved one. */
  lemma RejectedForAReason(p: AdaptationPolicy, xs: seq<Adaptation>, s: Split, a: Adaptation)
    requires Splits(p, xs, s) && a in s.rejected
    ensures Eligible(p, a) ==> exists b :: b in s.approved && KeyOf(b) == KeyOf(a) && !Outdoes(a, b)
  {
    assert a in multiset(s.rejected);
    assert a in multiset(xs);
    if Eligible(p, a) {
      var i :| 0 <= i < |s.approved| && KeyOf(s.approved[i]) == KeyOf(a);
      assert s.approved[i] in s.approved;
      assert Best(p, xs, s.approved[i]);
    }
  }
}
