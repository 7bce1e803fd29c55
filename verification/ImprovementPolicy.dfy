/** Approval of improvement actions: one highest-confidence action per target. */
module ImprovementPolicies {
  import opened Ordering

  /** `payload` stands for the value itself, of any type; `text` is what `str` makes of it, which is all the keys see. */
  datatype ImprovementAction = ImprovementAction(
    actionType: string, target: string, payload: int, text: string, confidence: real)

  /** The order (type, target, text) both sort keys contain. */
  predicate TextLess(a: ImprovementAction, b: ImprovementAction) {
    if a.actionType != b.actionType then StrLt(a.actionType, b.actionType)
    else if a.target != b.target then StrLt(a.target, b.target)
    else StrLt(a.text, b.text)
  }

  predicate SameText(a: ImprovementAction, b: ImprovementAction) {
    a.actionType == b.actionType && a.target == b.target && a.text == b.text
  }

  /** The key (-confidence, type, target, text). */
  predicate Preferred(a: ImprovementAction, b: ImprovementAction) {
    a.confidence > b.confidence || (a.confidence == b.confidence && TextLess(a, b))
  }

  /** The key (type, target, text, -confidence). */
  predicate Listed(a: ImprovementAction, b: ImprovementAction) {
    if SameText(a, b) then a.confidence > b.confidence else TextLess(a, b)
  }

  lemma TextLessOrder(a: ImprovementAction, b: ImprovementAction, c: ImprovementAction)
    ensures TextLess(a, b) ==> !TextLess(b, a)
    ensures TextLess(a, c) ==> TextLess(a, b) || TextLess(b, c)
    ensures SameText(a, b) || TextLess(a, b) || TextLess(b, a)
    ensures SameText(a, b) ==> !TextLess(a, b)
  {
    StrLtTotal();
    TotalIsWeak(StrLt);
  }

  lemma KeysAreWeak()
    ensures StrictWeak(Preferred) && StrictWeak(Listed)
  {
    forall a, b ensures Preferred(a, b) ==> !Preferred(b, a) { TextLessOrder(a, b, b); }
    forall a, b ensures Listed(a, b) ==> !Listed(b, a) { TextLessOrder(a, b, b); }
    forall a, b, c | Preferred(a, c) ensures Preferred(a, b) || Preferred(b, c) { TextLessOrder(a, b, c); }
    forall a, b, c | Listed(a, c) ensures Listed(a, b) || Listed(b, c) {
      TextLessOrder(a, b, c);
      TextLessOrder(b, c, a);
      TextLessOrder(a, c, b);
    }
  }

  lemma TargetsSeparate(a: ImprovementAction, b: ImprovementAction)
    requires a.target != b.target
    ensures Listed(a, b) || Listed(b, a)
  {
    TextLessOrder(a, b, b);
  }

  // ---------- what approval means ----------

  /** Reaches the threshold, and no other such action for its target is preferred to it. */
  ghost predicate BestForTarget(threshold: real, xs: seq<ImprovementAction>, a: ImprovementAction) {
    && a in xs && a.confidence >= threshold
    && forall b :: b in xs && b.confidence >= threshold && b.target == a.target ==> !Preferred(b, a)
  }

  function TargetOf(a: ImprovementAction): string { a.target }

  /** Exactly one best action for each target that has one reaching the threshold, in listing order. */
  ghost predicate Approves(threshold: real, xs: seq<ImprovementAction>, r: seq<ImprovementAction>) {
    && (forall a :: a in r ==> BestForTarget(threshold, xs, a))
    && (forall a :: a in xs && a.confidence >= threshold ==> HasKey(r, TargetOf, a.target))
    && DistinctBy(r, TargetOf) && SortedBy(r, Listed)
  }

  // ---------- the policy ----------

  /** `best` holds, for every target met so far, the first action met. */
  ghost predicate FirstMet(done: seq<ImprovementAction>, targets: seq<string>, best: map<string, ImprovementAction>) {
    && Dictionary(targets, best)
    && (forall t :: t in best ==> best[t].target == t && best[t] in done)
    && (forall a :: a in done ==> a.target in best && !Preferred(a, best[a.target]))
  }

  function Reaching(threshold: real): ImprovementAction -> bool {
    (a: ImprovementAction) => a.confidence >= threshold
  }

  lemma FirstMetStep(done: seq<ImprovementAction>, targets: seq<string>, best: map<string, ImprovementAction>, c: ImprovementAction)
    requires FirstMet(done, targets, best) && forall a :: a in done ==> !Preferred(c, a)
    ensures c.target in best ==> FirstMet(done + [c], targets, best) && c.confidence <= best[c.target].confidence
    ensures c.target !in best ==> FirstMet(done + [c], targets + [c.target], best[c.target := c])
  {
    KeysAreWeak();
    assert !Preferred(c, c);
    if c.target !in best {
      var grown := targets + [c.target];
      forall t ensures t in grown <==> t in best[c.target := c] { assert t in grown <==> t in targets || t == c.target; }
      forall i | 0 <= i < |targets| ensures targets[i] in best { assert targets[i] in targets; }
    }
  }

  /** The branch that replaces an entry is never taken: actions come in order of falling confidence. */
  method Approve(threshold: real, xs: seq<ImprovementAction>) returns (r: seq<ImprovementAction>)
    ensures Approves(threshold, xs, r)
  {
    KeysAreWeak();
    var filtered := Filter(xs, Reaching(threshold));
    var ordered := Sort(filtered, Preferred);
    SortSorts(filtered, Preferred);
    var targets: seq<string>, best: map<string, ImprovementAction> := [], map[];
    for i := 0 to |ordered|
      invariant FirstMet(ordered[..i], targets, best)
    {
      var action := ordered[i];
      PrefixStep(ordered, i);
      FirstMetStep(ordered[..i], targets, best, action);
      if action.target !in best {
        targets, best := targets + [action.target], best[action.target := action];
        continue;
      }
      if action.confidence > best[action.target].confidence {
        best := best[action.target := action];
      }
    }
    assert ordered[..|ordered|] == ordered;
    r := Sort(Values(targets, best), Listed);
    SortMembers(filtered, Preferred);
    FilterMembers(xs, Reaching(threshold));
    ApprovedValues(threshold, xs, ordered, targets, best);
  }

  lemma ApprovedValues(threshold: real, xs: seq<ImprovementAction>, ordered: seq<ImprovementAction>,
    targets: seq<string>, best: map<string, ImprovementAction>)
    requires forall a :: a in ordered <==> a in xs && a.confidence >= threshold
    requires FirstMet(ordered, targets, best)
    ensures Approves(threshold, xs, Sort(Values(targets, best), Listed))
  {
    var values := Values(targets, best);
    var r := Sort(values, Listed);
    KeysAreWeak();
    SortSorts(values, Listed);
    SortMembers(values, Listed);
    PermutedDistinctBy(values, r, TargetOf);
    forall a | a in r ensures BestForTarget(threshold, xs, a) {
      var i :| 0 <= i < |values| && values[i] == a;
    }
    forall a | a in xs && a.confidence >= threshold ensures HasKey(r, TargetOf, a.target) {
      assert a in ordered;
      var i :| 0 <= i < |targets| && targets[i] == a.target;
      assert values[i] in values && values[i] in r;
    }
  }

  // ---------- what the order means ----------

  /** Smaller type, then target, then text. */
  predicate TextBefore(a: ImprovementAction, b: ImprovementAction) {
    || StrLt(a.actionType, b.actionType)
    || (a.actionType == b.actionType && StrLt(a.target, b.target))
    || (a.actionType == b.actionType && a.target == b.target && StrLt(a.text, b.text))
  }

  /** An approved action has the highest confidence proposed for its target, and among those the first type and text. */
  lemma ApprovedMeaning(threshold: real, xs: seq<ImprovementAction>, r: seq<ImprovementAction>, a: ImprovementAction, b: ImprovementAction)
    requires Approves(threshold, xs, r) && a in r
    ensures a in xs && a.confidence >= threshold
    ensures b in xs && b.target == a.target ==> a.confidence >= b.confidence
    ensures b in xs && b.target == a.target && b.confidence == a.confidence ==> !TextBefore(b, a)
  {
    assert BestForTarget(threshold, xs, a);
    TextIsLess(b, a);
  }

  lemma TextIsLess(a: ImprovementAction, b: ImprovementAction)
    ensures TextLess(a, b) <==> TextBefore(a, b)
  {
    TextLessOrder(a, b, b);
    StrLtTotal();
  }

  /** The approved list ascends by type, then target. */
  lemma ListedInOrder(threshold: real, xs: seq<ImprovementAction>, r: seq<ImprovementAction>, i: nat, j: nat)
    requires Approves(threshold, xs, r) && i < j < |r|
    ensures StrLt(r[i].actionType, r[j].actionType) || (r[i].actionType == r[j].actionType && StrLt(r[i].target, r[j].target))
  {
    assert r[i].target != r[j].target;
    assert !Listed(r[j], r[i]);
    TextIsLess(r[j], r[i]);
    StrLtConnected(r[i].target, r[j].target);
    if r[i].actionType != r[j].actionType { StrLtConnected(r[i].actionType, r[j].actionType); }
  }

  // ---------- consequences ----------

  lemma SameListing(r: seq<ImprovementAction>, s: seq<ImprovementAction>)
    requires DistinctBy(r, TargetOf) && DistinctBy(s, TargetOf) && SortedBy(r, Listed) && SortedBy(s, Listed)
    requires forall a :: a in r <==> a in s
    ensures r == s
  {
    KeysAreWeak();
    NoRepeatsMultiset(r, s);
    forall x, y | x in r && y in r && x != y ensures Listed(x, y) || Listed(y, x) { TargetsSeparate(x, y); }
    SortedUnique(r, s, Listed);
  }

  /** No two different actions are equal in everything the keys look at. */
  ghost predicate KeysTellApart(xs: seq<ImprovementAction>) {
    forall a, b :: a in xs && b in xs && SameText(a, b) && a.confidence == b.confidence ==> a == b
  }

  lemma ApprovedIn(threshold: real, xs: seq<ImprovementAction>, r: seq<ImprovementAction>, a: ImprovementAction)
    requires KeysTellApart(xs) && Approves(threshold, xs, r) && BestForTarget(threshold, xs, a)
    ensures a in r
  {
    var i :| 0 <= i < |r| && r[i].target == a.target;
    assert BestForTarget(threshold, xs, r[i]);
    TextLessOrder(a, r[i], r[i]);
  }

  /**
   The approved list depends on the set of proposed actions only, repetitions included, as long as no two
   different actions have equal keys.
   */
  lemma ApprovalIgnoresOrder(threshold: real, xs: seq<ImprovementAction>, ys: seq<ImprovementAction>,
    r: seq<ImprovementAction>, s: seq<ImprovementAction>)
    requires KeysTellApart(xs) && forall a :: a in xs <==> a in ys
    requires Approves(threshold, xs, r) && Approves(threshold, ys, s)
    ensures r == s
  {
    forall a ensures BestForTarget(threshold, xs, a) <==> BestForTarget(threshold, ys, a) { }
    forall a ensures a in r <==> a in s {
      if a in r { ApprovedIn(threshold, ys, s, a); }
      if a in s { ApprovedIn(threshold, xs, r, a); }
    }
    SameListing(r, s);
  }

  /** Approving what was approved changes nothing, for any list. */
  lemma ApprovalIdempotent(threshold: real, xs: seq<ImprovementAction>, r: seq<ImprovementAction>, s: seq<ImprovementAction>)
    requires Approves(threshold, xs, r) && Approves(threshold, r, s)
    ensures r == s
  {
    forall a | a in s ensures a in r { assert BestForTarget(threshold, r, a); }
    forall a | a in r ensures a in s {
      assert BestForTarget(threshold, xs, a);
      var i :| 0 <= i < |s| && s[i].target == a.target;
      assert s[i] in s && s[i] in r;
    }
    SameListing(r, s);
  }
}
