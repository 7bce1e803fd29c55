/** Conflict resolution between adaptation candidates: one winner per target, by policy first. */
module ConflictResolvers {
  import opened Ordering

  datatype Policy = Policy(priority: int, threshold: Option<real>)

  type Policies = map<string, Policy>

  datatype Adaptation = Adaptation(
    id: string, target: string, action: string, confidence: real, policy: string, createdAt: int)

  /** The KeyError for a policy that is not configured. */
  datatype PolicyMissing = PolicyMissing(policy: string)

  const DEFAULT_POLICIES: Policies := map[
    "safety" := Policy(100, Some(0.7)),
    "reliability" := Policy(80, Some(0.6)),
    "performance" := Policy(50, Some(0.5)),
    "preference" := Policy(20, None)]

  /** The candidate's policy exists and its confidence reaches that policy's threshold. */
  predicate Eligible(ps: Policies, a: Adaptation) {
    a.policy in ps && (ps[a.policy].threshold.Some? ==> a.confidence >= ps[a.policy].threshold.value)
  }

  function Priority(ps: Policies, a: Adaptation): int {
    if a.policy in ps then ps[a.policy].priority else 0
  }

  /** Higher policy priority, then higher confidence, then earlier creation, then smaller id. */
  predicate Beats(ps: Policies, a: Adaptation, b: Adaptation) {
    if Priority(ps, a) != Priority(ps, b) then Priority(ps, a) > Priority(ps, b)
    else if a.confidence != b.confidence then a.confidence > b.confidence
    else if a.createdAt != b.createdAt then a.createdAt < b.createdAt
    else StrLt(a.id, b.id)
  }

  function ByRank(ps: Policies): (Adaptation, Adaptation) -> bool {
    (a: Adaptation, b: Adaptation) => Beats(ps, a, b)
  }

  function WithTarget(t: string): Adaptation -> bool { (a: Adaptation) => a.target == t }
  function EligibleIn(ps: Policies): Adaptation -> bool { (a: Adaptation) => Eligible(ps, a) }
  function WithIdIn(ids: set<string>): Adaptation -> bool { (a: Adaptation) => a.id in ids }

  function Valid(ps: Policies, xs: seq<Adaptation>, t: string): seq<Adaptation> {
    Filter(Filter(xs, WithTarget(t)), EligibleIn(ps))
  }

  function TargetOf(a: Adaptation): string { a.target }

  lemma ValidMembers(ps: Policies, xs: seq<Adaptation>, t: string)
    ensures forall a :: a in Valid(ps, xs, t) <==> a in xs && a.target == t && Eligible(ps, a)
  {
    FilterMembers(xs, WithTarget(t));
    FilterMembers(Filter(xs, WithTarget(t)), EligibleIn(ps));
  }

  lemma RankIsWeak(ps: Policies)
    ensures StrictWeak(ByRank(ps))
  {
    StrLtTotal();
    TotalIsWeak(StrLt);
    var lt := ByRank(ps);
    forall a, b | lt(a, b) ensures !lt(b, a) { assert StrLt(a.id, b.id) ==> !StrLt(b.id, a.id); }
    forall a, b, c | lt(a, c) ensures lt(a, b) || lt(b, c) {
      assert StrLt(a.id, c.id) ==> StrLt(a.id, b.id) || StrLt(b.id, c.id);
    }
  }

  function IdOf(a: Adaptation): string { a.id }

  ghost predicate UniqueIds(xs: seq<Adaptation>) {
    DistinctBy(xs, IdOf)
  }

  // ---------- what is selected ----------

  /** `a` is eligible and no eligible candidate for its target beats it. */
  ghost predicate Wins(ps: Policies, xs: seq<Adaptation>, a: Adaptation) {
    a in xs && Eligible(ps, a) && forall b :: b in xs && Eligible(ps, b) && b.target == a.target ==> !Beats(ps, b, a)
  }

  /** The id belongs to the first-ranked valid candidate of some target. */
  ghost predicate IsSelected(ps: Policies, xs: seq<Adaptation>, id: string) {
    exists t :: Valid(ps, xs, t) != [] && Winner(ps, xs, t).id == id
  }

  ghost predicate Covered(ps: Policies, xs: seq<Adaptation>, t: string, ids: set<string>) {
    Valid(ps, xs, t) != [] ==> Winner(ps, xs, t).id in ids
  }

  /** The first-ranked of the valid candidates for `t`. */
  function Winner(ps: Policies, xs: seq<Adaptation>, t: string): Adaptation
    requires Valid(ps, xs, t) != []
  {
    RankIsWeak(ps);
    SortHead(Valid(ps, xs, t), ByRank(ps));
    Sort(Valid(ps, xs, t), ByRank(ps))[0]
  }

  lemma WinnerWins(ps: Policies, xs: seq<Adaptation>, t: string)
    requires Valid(ps, xs, t) != []
    ensures Wins(ps, xs, Winner(ps, xs, t)) && Winner(ps, xs, t).target == t
  {
    RankIsWeak(ps);
    ValidMembers(ps, xs, t);
    SortHead(Valid(ps, xs, t), ByRank(ps));
    var w := Winner(ps, xs, t);
    assert w in Valid(ps, xs, t);
    forall b | b in xs && Eligible(ps, b) && b.target == w.target ensures !Beats(ps, b, w) {
      assert b in Valid(ps, xs, t);
      assert !ByRank(ps)(b, w);
    }
  }

  ghost predicate AllCovered(ps: Policies, xs: seq<Adaptation>, targets: seq<string>, ids: set<string>) {
    forall i :: 0 <= i < |targets| ==> Covered(ps, xs, targets[i], ids)
  }

  lemma CoveredStays(ps: Policies, xs: seq<Adaptation>, targets: seq<string>, t: string, ids: set<string>, more: set<string>)
    requires AllCovered(ps, xs, targets, ids) && Covered(ps, xs, t, more)
    ensures AllCovered(ps, xs, targets + [t], ids + more)
  {
  }

  lemma SelectedComplete(ps: Policies, xs: seq<Adaptation>, targets: seq<string>, ids: set<string>)
    requires forall t :: HasKey(xs, TargetOf, t) ==> t in targets
    requires AllCovered(ps, xs, targets, ids)
    ensures forall id :: IsSelected(ps, xs, id) ==> id in ids
  {
    forall id | IsSelected(ps, xs, id) ensures id in ids {
      var t :| Valid(ps, xs, t) != [] && Winner(ps, xs, t).id == id;
      WinnerWins(ps, xs, t);
      assert Winner(ps, xs, t) in xs;
      assert HasKey(xs, TargetOf, t);
      var i :| 0 <= i < |targets| && targets[i] == t;
      assert Covered(ps, xs, targets[i], ids);
    }
  }

  ghost function SelectedIn(ps: Policies, xs: seq<Adaptation>): Adaptation -> bool {
    (a: Adaptation) => IsSelected(ps, xs, a.id)
  }

  /** The policy of the first of `xs` whose policy is missing. */
  function FirstMissing(ps: Policies, xs: seq<Adaptation>): (r: Option<string>)
    ensures r.None? <==> forall a :: a in xs ==> a.policy in ps
  {
    if xs == [] then None
    else if xs[0].policy !in ps then assert xs[0] in xs; Some(xs[0].policy)
    else assert xs == [xs[0]] + xs[1..]; FirstMissing(ps, xs[1..])
  }

  /** What `resolve` returns: every adaptation bearing a selected id, ranked. */
  ghost function Resolution(ps: Policies, xs: seq<Adaptation>): Result<seq<Adaptation>, PolicyMissing> {
    var chosen := Filter(xs, SelectedIn(ps, xs));
    if FirstMissing(ps, chosen).Some? then Err(PolicyMissing(FirstMissing(ps, chosen).value))
    else Ok(Sort(chosen, ByRank(ps)))
  }

  // ---------- the resolver ----------

  class ConflictResolver {
    const policies: Policies

    /** An absent or empty configuration falls back to the defaults. */
    constructor (policies: Option<Policies>)
      ensures this.policies == (if policies.Some? && policies.value != map[] then policies.value else DEFAULT_POLICIES)
    {
      this.policies := if policies.Some? && policies.value != map[] then policies.value else DEFAULT_POLICIES;
    }

    method GroupByTarget(xs: seq<Adaptation>) returns (grouped: map<string, seq<Adaptation>>)
      ensures forall t :: t in grouped <==> HasKey(xs, TargetOf, t)
      ensures forall t :: t in grouped ==> grouped[t] == Filter(xs, WithTarget(t))
    {
      grouped := map[];
      for i := 0 to |xs|
        invariant forall t :: t in grouped <==> HasKey(xs[..i], TargetOf, t)
        invariant forall t :: t in grouped ==> grouped[t] == Filter(xs[..i], WithTarget(t))
      {
        GroupStep(xs, i, grouped);
        var t := xs[i].target;
        grouped := grouped[t := (if t in grouped then grouped[t] else []) + [xs[i]]];
      }
      assert xs[..|xs|] == xs;
    }

    lemma GroupStep(xs: seq<Adaptation>, i: nat, grouped: map<string, seq<Adaptation>>)
      requires i < |xs|
      requires forall t :: t in grouped <==> HasKey(xs[..i], TargetOf, t)
      requires forall t :: t in grouped ==> grouped[t] == Filter(xs[..i], WithTarget(t))
      ensures forall t :: Filter(xs[..i + 1], WithTarget(t)) == FilterNext(xs, i, WithTarget(t))
      ensures xs[i].target !in grouped ==> Filter(xs[..i], WithTarget(xs[i].target)) == []
      ensures forall t :: HasKey(xs[..i + 1], TargetOf, t) <==> HasKey(xs[..i], TargetOf, t) || xs[i].target == t
    {
      forall t ensures Filter(xs[..i + 1], WithTarget(t)) == FilterNext(xs, i, WithTarget(t)) {
        FilterStep(xs, i, WithTarget(t));
      }
      forall t ensures HasKey(xs[..i + 1], TargetOf, t) <==> HasKey(xs[..i], TargetOf, t) || xs[i].target == t {
        if HasKey(xs[..i], TargetOf, t) {
          var k :| 0 <= k < i && xs[..i][k].target == t;
          assert xs[..i + 1][k].target == t;
        }
        if xs[i].target == t { assert xs[..i + 1][i].target == t; }
      }
      if xs[i].target !in grouped {
        forall a | a in xs[..i] ensures !WithTarget(xs[i].target)(a) {
          var k :| 0 <= k < i && xs[..i][k] == a;
        }
        FilterNone(xs[..i], WithTarget(xs[i].target));
      }
    }

    /** The candidates whose policy exists and whose confidence reaches its threshold. */
    method ValidCandidates(candidates: seq<Adaptation>) returns (valid: seq<Adaptation>)
      ensures valid == Filter(candidates, EligibleIn(policies))
    {
      valid := [];
      for i := 0 to |candidates|
        invariant valid == Filter(candidates[..i], EligibleIn(policies))
      {
        FilterStep(candidates, i, EligibleIn(policies));
        var candidate := candidates[i];
        if candidate.policy !in policies { continue; }
        var threshold := policies[candidate.policy].threshold;
        if threshold.Some? && candidate.confidence < threshold.value { continue; }
        valid := valid + [candidate];
      }
      assert candidates[..|candidates|] == candidates;
    }

    /** The id of the first-ranked valid candidate for `t`. */
    method WinningId(ghost xs: seq<Adaptation>, ghost t: string, candidates: seq<Adaptation>) returns (id: Option<string>)
      requires candidates == Filter(xs, WithTarget(t))
      ensures id.Some? ==> IsSelected(policies, xs, id.value)
      ensures Covered(policies, xs, t, if id.Some? then {id.value} else {})
    {
      var valid := ValidCandidates(candidates);
      if valid == [] { return None; }
      RankIsWeak(policies);
      SortHead(valid, ByRank(policies));
      var ranked := Sort(valid, ByRank(policies));
      assert ranked[0] == Winner(policies, xs, t);
      return Some(ranked[0].id);
    }

    method SelectWinners(xs: seq<Adaptation>) returns (selected: set<string>)
      ensures forall id :: id in selected <==> IsSelected(policies, xs, id)
    {
      var grouped := GroupByTarget(xs);
      var targets := SortIds(grouped.Keys);
      selected := {};
      for k := 0 to |targets|
        invariant forall id :: id in selected ==> IsSelected(policies, xs, id)
        invariant AllCovered(policies, xs, targets[..k], selected)
      {
        assert targets[k] in grouped;
        var winning := WinningId(xs, targets[k], grouped[targets[k]]);
        PrefixStep(targets, k);
        CoveredStays(policies, xs, targets[..k], targets[k], selected, if winning.Some? then {winning.value} else {});
        selected := selected + (if winning.Some? then {winning.value} else {});
      }
      assert targets[..|targets|] == targets;
      SelectedComplete(policies, xs, targets, selected);
    }

    method Resolve(xs: seq<Adaptation>) returns (r: Result<seq<Adaptation>, PolicyMissing>)
      ensures r == Resolution(policies, xs)
    {
      var selected := SelectWinners(xs);
      var resolved := [];
      for i := 0 to |xs|
        invariant resolved == Filter(xs[..i], WithIdIn(selected))
      {
        FilterStep(xs, i, WithIdIn(selected));
        if xs[i].id in selected { resolved := resolved + [xs[i]]; }
      }
      assert xs[..|xs|] == xs;
      FilterAgrees(xs, WithIdIn(selected), SelectedIn(policies, xs));
      var missing := FirstMissing(policies, resolved);
      if missing.Some? { return Err(PolicyMissing(missing.value)); }
      return Ok(Sort(resolved, ByRank(policies)));
    }
  }

  // ---------- what the resolution means ----------

  /** Some winner of its target has the id. */
  ghost predicate IsWinningId(ps: Policies, xs: seq<Adaptation>, id: string) {
    exists a :: Wins(ps, xs, a) && a.id == id
  }

  /** The selected ids are the winners' ids, whether or not ids are unique. */
  lemma SelectedIdsWin(ps: Policies, xs: seq<Adaptation>, id: string)
    ensures IsSelected(ps, xs, id) <==> IsWinningId(ps, xs, id)
  {
    if IsSelected(ps, xs, id) {
      var t :| Valid(ps, xs, t) != [] && Winner(ps, xs, t).id == id;
      WinnerWins(ps, xs, t);
    }
    if IsWinningId(ps, xs, id) {
      var a :| Wins(ps, xs, a) && a.id == id;
      ValidMembers(ps, xs, a.target);
      assert a in Valid(ps, xs, a.target);
      WinnerWins(ps, xs, a.target);
      WinnersTie(ps, xs, a, Winner(ps, xs, a.target));
    }
  }

  /** With unique ids the selected adaptations are exactly the winners. */
  lemma SelectedAreWinners(ps: Policies, xs: seq<Adaptation>, a: Adaptation)
    requires UniqueIds(xs) && a in xs
    ensures IsSelected(ps, xs, a.id) <==> Wins(ps, xs, a)
  {
    SelectedIdsWin(ps, xs, a.id);
    if IsSelected(ps, xs, a.id) {
      var w :| Wins(ps, xs, w) && w.id == a.id;
      UniqueByKey(xs, IdOf, a, w);
    }
  }

  lemma WinnersTie(ps: Policies, xs: seq<Adaptation>, a: Adaptation, b: Adaptation)
    requires Wins(ps, xs, a) && Wins(ps, xs, b) && a.target == b.target
    ensures a.id == b.id
  {
    if a.id != b.id { StrLtConnected(a.id, b.id); }
  }

  ghost predicate Ranked(ps: Policies, r: seq<Adaptation>) {
    forall i, j :: 0 <= i < j < |r| ==> r[i].target != r[j].target && Beats(ps, r[i], r[j])
  }

  /** The ranked list of all winners, one for each target that has an eligible candidate. */
  ghost predicate Resolves(ps: Policies, xs: seq<Adaptation>, r: seq<Adaptation>) {
    && (forall a :: a in r <==> Wins(ps, xs, a))
    && Ranked(ps, r)
    && (forall a :: a in xs && Eligible(ps, a) ==> HasKey(r, TargetOf, a.target))
  }

  /** For unique ids resolution succeeds with exactly one adaptation per contested target, its best, in rank order. */
  lemma OneWinnerPerTarget(ps: Policies, xs: seq<Adaptation>)
    requires UniqueIds(xs)
    ensures Resolution(ps, xs).Ok? && Resolves(ps, xs, Resolution(ps, xs).value)
  {
    var chosen := Filter(xs, SelectedIn(ps, xs));
    ChosenAreWinners(ps, xs);
    WinnersRanked(ps, xs, chosen);
    forall a | a in xs && Eligible(ps, a) ensures HasKey(Sort(chosen, ByRank(ps)), TargetOf, a.target) {
      TargetCovered(ps, xs, a, Sort(chosen, ByRank(ps)));
    }
    forall a | a in chosen ensures a.policy in ps { assert Wins(ps, xs, a); }
  }

  lemma WinnersRanked(ps: Policies, xs: seq<Adaptation>, chosen: seq<Adaptation>)
    requires UniqueIds(xs) && chosen == Filter(xs, SelectedIn(ps, xs))
    requires forall a :: a in chosen <==> Wins(ps, xs, a)
    ensures Ranked(ps, Sort(chosen, ByRank(ps)))
    ensures forall a :: a in Sort(chosen, ByRank(ps)) <==> Wins(ps, xs, a)
  {
    var r := Sort(chosen, ByRank(ps));
    SortMembers(chosen, ByRank(ps));
    RankIsWeak(ps);
    SortSorts(chosen, ByRank(ps));
    FilterDistinctBy(xs, SelectedIn(ps, xs), IdOf);
    PermutedDistinctBy(chosen, r, IdOf);
    forall i, j | 0 <= i < j < |r| ensures r[i].target != r[j].target && Beats(ps, r[i], r[j]) {
      assert r[i] in r && r[j] in r;
      WinnersDiffer(ps, xs, r, i, j);
    }
  }

  lemma TargetCovered(ps: Policies, xs: seq<Adaptation>, a: Adaptation, r: seq<Adaptation>)
    requires a in xs && Eligible(ps, a) && forall w :: Wins(ps, xs, w) ==> w in r
    ensures HasKey(r, TargetOf, a.target)
  {
    ValidMembers(ps, xs, a.target);
    assert a in Valid(ps, xs, a.target);
    WinnerWins(ps, xs, a.target);
    assert Winner(ps, xs, a.target) in r;
  }

  lemma ChosenAreWinners(ps: Policies, xs: seq<Adaptation>)
    requires UniqueIds(xs)
    ensures forall a :: a in Filter(xs, SelectedIn(ps, xs)) <==> Wins(ps, xs, a)
  {
    forall a ensures a in Filter(xs, SelectedIn(ps, xs)) <==> Wins(ps, xs, a) {
      FilterIn(xs, SelectedIn(ps, xs), a);
      if a in xs { SelectedAreWinners(ps, xs, a); }
    }
  }

  lemma WinnersDiffer(ps: Policies, xs: seq<Adaptation>, r: seq<Adaptation>, i: nat, j: nat)
    requires UniqueIds(r) && SortedBy(r, ByRank(ps)) && i < j < |r|
    requires Wins(ps, xs, r[i]) && Wins(ps, xs, r[j])
    ensures r[i].target != r[j].target && Beats(ps, r[i], r[j])
  {
    assert r[i].id != r[j].id;
    if r[i].target == r[j].target { WinnersTie(ps, xs, r[i], r[j]); }
    StrLtConnected(r[i].id, r[j].id);
    assert !ByRank(ps)(r[j], r[i]);
  }

  /** The resolution is determined by what it means, so it depends on the set of candidates only. */
  lemma ResolvesUnique(ps: Policies, xs: seq<Adaptation>, ys: seq<Adaptation>, r: seq<Adaptation>, s: seq<Adaptation>)
    requires (forall a :: a in xs <==> a in ys) && Resolves(ps, xs, r) && Resolves(ps, ys, s)
    ensures r == s
  {
    forall a ensures Wins(ps, xs, a) <==> Wins(ps, ys, a) { }
    SameRanking(ps, r, s);
  }

  lemma {:induction false} SameRanking(ps: Policies, r: seq<Adaptation>, s: seq<Adaptation>)
    requires forall a :: a in r <==> a in s
    requires Ranked(ps, r) && Ranked(ps, s)
    ensures r == s
  {
    if r == [] {
      assert forall i :: 0 <= i < |s| ==> s[i] in s;
    } else {
      assert r[0] in s && s != [];
      assert s[0] in r;
      BeatsAsymmetric(ps, r[0], s[0]);
      assert r == [r[0]] + r[1..] && s == [s[0]] + s[1..];
      forall a ensures a in r[1..] <==> a in s[1..] {
        assert a in r <==> a in s;
        BeatsAsymmetric(ps, a, a);
      }
      SameRanking(ps, r[1..], s[1..]);
    }
  }

  lemma BeatsAsymmetric(ps: Policies, a: Adaptation, b: Adaptation)
    ensures !(Beats(ps, a, b) && Beats(ps, b, a))
  {
    RankIsWeak(ps);
    assert ByRank(ps)(a, b) ==> !ByRank(ps)(b, a);
  }

  /** Reordering candidates with unique ids changes nothing. */
  lemma ResolutionIgnoresOrder(ps: Policies, xs: seq<Adaptation>, ys: seq<Adaptation>)
    requires UniqueIds(xs) && UniqueIds(ys) && forall a :: a in xs <==> a in ys
    ensures Resolution(ps, xs) == Resolution(ps, ys)
  {
    OneWinnerPerTarget(ps, xs);
    OneWinnerPerTarget(ps, ys);
    ResolvesUnique(ps, xs, ys, Resolution(ps, xs).value, Resolution(ps, ys).value);
  }

  /** Resolving what was resolved changes nothing. */
  lemma ResolutionIdempotent(ps: Policies, xs: seq<Adaptation>)
    requires UniqueIds(xs)
    ensures Resolution(ps, xs).Ok? && Resolution(ps, Resolution(ps, xs).value) == Resolution(ps, xs)
  {
    OneWinnerPerTarget(ps, xs);
    var r := Resolution(ps, xs).value;
    forall i, j | 0 <= i < j < |r| ensures r[i].id != r[j].id {
      assert r[i] in r && r[j] in r;
      var a, b := r[i], r[j];
      if a.id == b.id { UniqueByKey(xs, IdOf, a, b); }
    }
    OneWinnerPerTarget(ps, r);
    forall a ensures a in Resolution(ps, r).value <==> a in r {
      if a in r { assert Wins(ps, xs, a); StillWins(ps, xs, r, a); }
    }
    SameRanking(ps, Resolution(ps, r).value, r);
  }

  lemma StillWins(ps: Policies, xs: seq<Adaptation>, r: seq<Adaptation>, a: Adaptation)
    requires Wins(ps, xs, a) && a in r && forall b :: b in r ==> b in xs
    ensures Wins(ps, r, a)
  {
  }

  // ---------- what winning means ----------

  /** The candidate names a configured policy and is confident enough for it. */
  predicate Admissible(ps: Policies, a: Adaptation) {
    a.policy in ps && match ps[a.policy].threshold case None => true case Some(least) => a.confidence >= least
  }

  /** Higher policy priority, then higher confidence, then earlier creation, then smaller id. */
  predicate Precedes(ps: Policies, a: Adaptation, b: Adaptation)
    requires a.policy in ps && b.policy in ps
  {
    var p, q := ps[a.policy].priority, ps[b.policy].priority;
    || p > q
    || (p == q && a.confidence > b.confidence)
    || (p == q && a.confidence == b.confidence && a.createdAt < b.createdAt)
    || (p == q && a.confidence == b.confidence && a.createdAt == b.createdAt && StrLt(a.id, b.id))
  }

  /** For unique ids: what is returned is admissible and precedes every other admissible candidate for its target. */
  lemma ReturnedPrecedes(ps: Policies, xs: seq<Adaptation>, r: seq<Adaptation>, a: Adaptation)
    requires UniqueIds(xs) && Resolution(ps, xs) == Ok(r) && a in r
    ensures a in xs && Admissible(ps, a)
    ensures forall b :: b in xs && Admissible(ps, b) && b.target == a.target && b != a ==> Precedes(ps, a, b)
  {
    OneWinnerPerTarget(ps, xs);
    assert Wins(ps, xs, a);
    forall b | b in xs && Admissible(ps, b) && b.target == a.target && b != a ensures Precedes(ps, a, b) {
      assert Eligible(ps, b);
      assert !Beats(ps, b, a);
      if a.id == b.id { UniqueByKey(xs, IdOf, a, b); }
      StrLtConnected(a.id, b.id);
    }
  }

  /** The result lists them in that order, and every target with an admissible candidate is represented. */
  lemma ReturnedInOrder(ps: Policies, xs: seq<Adaptation>, r: seq<Adaptation>)
    requires UniqueIds(xs) && Resolution(ps, xs) == Ok(r)
    ensures forall a :: a in r ==> a.policy in ps
    ensures forall i, j :: 0 <= i < j < |r| ==> r[i].policy in ps && r[j].policy in ps && Precedes(ps, r[i], r[j])
    ensures forall b :: b in xs && Admissible(ps, b) ==> exists i :: 0 <= i < |r| && r[i].target == b.target
  {
    OneWinnerPerTarget(ps, xs);
    forall a | a in r ensures a.policy in ps { assert Wins(ps, xs, a); }
    forall i, j | 0 <= i < j < |r| ensures r[i].policy in ps && r[j].policy in ps && Precedes(ps, r[i], r[j]) {
      assert r[i] in r && r[j] in r;
      assert Beats(ps, r[i], r[j]);
    }
    forall b | b in xs && Admissible(ps, b) ensures exists i :: 0 <= i < |r| && r[i].target == b.target {
      assert Eligible(ps, b);
      assert HasKey(r, TargetOf, b.target);
    }
  }

  /** By default safety outranks reliability, that performance, and that preference, each asking for less confidence. */
  lemma DefaultRanking()
    ensures DEFAULT_POLICIES.Keys == {"safety", "reliability", "performance", "preference"}
    ensures DEFAULT_POLICIES["safety"].priority == 100 && DEFAULT_POLICIES["safety"].threshold == Some(0.7)
    ensures DEFAULT_POLICIES["reliability"].priority == 80 && DEFAULT_POLICIES["reliability"].threshold == Some(0.6)
    ensures DEFAULT_POLICIES["performance"].priority == 50 && DEFAULT_POLICIES["performance"].threshold == Some(0.5)
    ensures DEFAULT_POLICIES["preference"].priority == 20 && DEFAULT_POLICIES["preference"].threshold == None
  {
  }

  // ---------- ids that are not unique ----------

  /** For any list: everything that bears a winner's id is returned and nothing else, unless some of it has no policy. */
  lemma ResolutionMembers(ps: Policies, xs: seq<Adaptation>)
    ensures Resolution(ps, xs).Ok? ==>
      forall b :: b in Resolution(ps, xs).value <==> b in xs && IsWinningId(ps, xs, b.id)
    ensures Resolution(ps, xs).Err? <==> exists b :: b in xs && IsWinningId(ps, xs, b.id) && b.policy !in ps
  {
    var chosen := Filter(xs, SelectedIn(ps, xs));
    FilterMembers(xs, SelectedIn(ps, xs));
    SortMembers(chosen, ByRank(ps));
    forall b ensures b in chosen <==> b in xs && IsWinningId(ps, xs, b.id) { SelectedIdsWin(ps, xs, b.id); }
  }

  /** Resolution returns winners only exactly when no losing candidate shares a winner's id. */
  lemma WinnersOnlyExactly(ps: Policies, xs: seq<Adaptation>)
    ensures Resolution(ps, xs).Ok? && (forall a :: a in Resolution(ps, xs).value ==> Wins(ps, xs, a))
      <==> forall a, b :: Wins(ps, xs, a) && b in xs && b.id == a.id ==> Wins(ps, xs, b)
  {
    ResolutionMembers(ps, xs);
    if Resolution(ps, xs).Err? {
      var b :| b in xs && IsWinningId(ps, xs, b.id) && b.policy !in ps;
      var a :| Wins(ps, xs, a) && a.id == b.id;
      assert !Wins(ps, xs, b);
    } else {
      forall a, b | Wins(ps, xs, a) && b in xs && b.id == a.id ensures b in Resolution(ps, xs).value {
        assert IsWinningId(ps, xs, b.id);
      }
    }
  }

  /** Resolution fails exactly when a candidate without a policy shares the id of a winner. */
  lemma FailsExactly(ps: Policies, xs: seq<Adaptation>)
    ensures Resolution(ps, xs).Err? <==> exists a, b :: Wins(ps, xs, a) && b in xs && b.id == a.id && b.policy !in ps
  {
    ResolutionMembers(ps, xs);
    if Resolution(ps, xs).Err? {
      var b :| b in xs && IsWinningId(ps, xs, b.id) && b.policy !in ps;
      var a :| Wins(ps, xs, a) && a.id == b.id;
    }
    if a, b :| Wins(ps, xs, a) && b in xs && b.id == a.id && b.policy !in ps {
      assert IsWinningId(ps, xs, b.id);
    }
  }

  /** The only candidate for its target wins it, whatever other targets there are. */
  lemma AloneWins(ps: Policies, a: Adaptation, b: Adaptation)
    requires Eligible(ps, a) && b.target != a.target
    ensures Wins(ps, [a, b], a)
  {
    BeatsAsymmetric(ps, a, a);
    assert a in [a, b];
  }

  lemma SharedReturned(ps: Policies, xs: seq<Adaptation>, a: Adaptation, b: Adaptation)
    requires Wins(ps, xs, a) && b in xs && b.id == a.id && forall x :: x in xs ==> x.policy in ps
    ensures Resolution(ps, xs).Ok? && b in Resolution(ps, xs).value
  {
    ResolutionMembers(ps, xs);
    assert IsWinningId(ps, xs, b.id);
  }

  lemma MissingPolicyRaises(ps: Policies, xs: seq<Adaptation>, a: Adaptation, b: Adaptation)
    requires Wins(ps, xs, a) && b in xs && b.id == a.id && b.policy !in ps
    ensures Resolution(ps, xs).Err?
  {
    FailsExactly(ps, xs);
  }

  /** An adaptation that shares a winner's id is returned although its confidence is too low. */
  lemma SharedIdsLetLosersThrough(a: Adaptation, b: Adaptation)
    requires a == Adaptation("x", "t", "on", 0.9, "safety", 0) && b == Adaptation("x", "u", "off", 0.1, "safety", 0)
    ensures !Eligible(DEFAULT_POLICIES, b)
    ensures Resolution(DEFAULT_POLICIES, [a, b]).Ok? && b in Resolution(DEFAULT_POLICIES, [a, b]).value
  {
    AloneWins(DEFAULT_POLICIES, a, b);
    assert b in [a, b];
    SharedReturned(DEFAULT_POLICIES, [a, b], a, b);
  }

  /** An adaptation that shares a winner's id and names an unknown policy raises the KeyError. */
  lemma SharedIdsRaiseKeyError(a: Adaptation, b: Adaptation)
    requires a == Adaptation("x", "t", "on", 0.9, "safety", 0) && b == Adaptation("x", "u", "off", 0.9, "unknown", 0)
    ensures Resolution(DEFAULT_POLICIES, [a, b]).Err?
  {
    AloneWins(DEFAULT_POLICIES, a, b);
    assert b in [a, b];
    MissingPolicyRaises(DEFAULT_POLICIES, [a, b], a, b);
  }
}
