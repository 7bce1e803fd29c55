/**
 How the loop controller learns and decides: strategy statistics, scores and the choice among the
 candidate decisions. Scores are exact rationals.
 */
module Decisions {
  import opened Ordering

  datatype Decision = RetrySame | AdjustPlan | RepairStep | Abort | Escalate | AdvanceStep

  // ---------- statistics ----------

  datatype Stats = Stats(attempts: nat, successes: nat, successRate: real, confidence: real)

  datatype StatKey = StatKey(pattern: string, decision: Decision)

  type Table = map<StatKey, Stats>

  const NEW_STATS := Stats(0, 0, 0.0, 1.0)

  function Min(a: real, b: real): real { if a <= b then a else b }

  function Max(a: real, b: real): real { if a >= b then a else b }

  function UpdateConfidence(current: real, decision: Decision, success: bool): real {
    if success then Min(2.0, current + 0.10)
    else Max(0.10, current - (if decision.RetrySame? then 0.20 else if decision.RepairStep? then 0.05 else 0.10))
  }

  /** One attempt recorded on an entry. */
  function Recorded(s: Stats, decision: Decision, success: bool): Stats {
    var attempts, successes := s.attempts + 1, s.successes + (if success then 1 else 0);
    Stats(attempts, successes, successes as real / attempts as real, UpdateConfidence(s.confidence, decision, success))
  }

  function Lookup(table: Table, key: StatKey): Stats {
    if key in table then table[key] else NEW_STATS
  }

  /** `_update_strategy_stats` */
  function UpdateStats(table: Table, pattern: string, decision: Decision, success: bool): Table {
    var key := StatKey(pattern, decision);
    table[key := Recorded(Lookup(table, key), decision, success)]
  }

  /** 0 <= successes <= attempts, the rate is their quotient and confidence stays in [0.10, 2.0]. */
  ghost predicate StatsOk(s: Stats) {
    && 0 < s.attempts && s.successes <= s.attempts
    && s.successRate == s.successes as real / s.attempts as real
    && 0.10 <= s.confidence <= 2.0
  }

  ghost predicate TableOk(table: Table) {
    forall k :: k in table ==> StatsOk(table[k])
  }

  /** Success was only ever credited to advancing. */
  ghost predicate CreditOnlyAdvance(table: Table) {
    forall k :: k in table && !k.decision.AdvanceStep? ==> table[k].successes == 0
  }

  lemma UpdateKeepsTable(table: Table, pattern: string, decision: Decision, success: bool)
    requires TableOk(table)
    ensures TableOk(UpdateStats(table, pattern, decision, success))
  {
  }

  lemma UpdateKeepsCredit(table: Table, pattern: string, decision: Decision, success: bool)
    requires CreditOnlyAdvance(table) && (success ==> decision.AdvanceStep?)
    ensures CreditOnlyAdvance(UpdateStats(table, pattern, decision, success))
  {
  }

  // ---------- statistics rebuilt from memory ----------

  /** A stored loop record; `decision` is None when its text names no decision. */
  datatype MemoryRecord = MemoryRecord(errorType: string, strategyPattern: string, decision: Option<Decision>, success: bool)

  datatype MemoryContext = MemoryContext(recent: seq<MemoryRecord>, recentFailures: seq<MemoryRecord>)

  function FoldStats(recent: seq<MemoryRecord>): Table {
    if recent == [] then map[] else
    var last := recent[|recent| - 1];
    var table := FoldStats(recent[..|recent| - 1]);
    if last.decision.None? then table else UpdateStats(table, last.errorType, last.decision.value, last.success)
  }

  /** `_build_strategy_stats_from_context` */
  method BuildStrategyStats(recent: seq<MemoryRecord>) returns (stats: Table)
    ensures stats == FoldStats(recent)
  {
    stats := map[];
    for i := 0 to |recent|
      invariant stats == FoldStats(recent[..i])
    {
      var record := recent[i];
      assert recent[..i + 1][..i] == recent[..i];
      if record.decision.Some? {
        stats := UpdateStats(stats, record.errorType, record.decision.value, record.success);
      }
    }
    assert recent[..|recent|] == recent;
  }

  /** Statistics rebuilt from any memory are valid; from controller-written memory they credit advancing only. */
  lemma {:induction false} FoldIsValid(recent: seq<MemoryRecord>)
    ensures TableOk(FoldStats(recent))
    ensures ControllerWritten(recent) ==> CreditOnlyAdvance(FoldStats(recent))
  {
    if recent != [] {
      var last, init := recent[|recent| - 1], recent[..|recent| - 1];
      FoldIsValid(init);
      if last.decision.Some? {
        UpdateKeepsTable(FoldStats(init), last.errorType, last.decision.value, last.success);
        if ControllerWritten(recent) { UpdateKeepsCredit(FoldStats(init), last.errorType, last.decision.value, last.success); }
      }
    }
  }

  /** Records as the controller writes them: a success is always an advance. */
  ghost predicate ControllerWritten(records: seq<MemoryRecord>) {
    forall i :: 0 <= i < |records| && records[i].success ==> records[i].decision == Some(AdvanceStep)
  }

  /** `_merge_strategy_stats`: what is already known wins. */
  function MergeStats(known: Table, incoming: Table): (merged: Table)
    ensures forall k :: k in known ==> k in merged && merged[k] == known[k]
    ensures forall k :: k in merged && k !in known ==> k in incoming && merged[k] == incoming[k]
    ensures TableOk(known) && TableOk(incoming) ==> TableOk(merged)
    ensures CreditOnlyAdvance(known) && CreditOnlyAdvance(incoming) ==> CreditOnlyAdvance(merged)
  {
    incoming + known
  }

  // ---------- scores ----------

  function Prior(decision: Decision): real {
    match decision
    case RetrySame => 0.60
    case AdjustPlan => 0.55
    case RepairStep => 0.58
    case Abort => 0.20
    case Escalate => 0.10
    case AdvanceStep => 0.90
  }

  /** `_decision_score` */
  function Score(table: Table, pattern: string, decision: Decision, attemptCount: int, failureThreshold: int): real {
    var s := Lookup(table, StatKey(pattern, decision));
    var attemptsPenalty := Min(s.attempts as real * 0.02, 0.20);
    var successBonus := Min(s.successes as real * 0.03, 0.30);
    var confidence :=
      if decision.RetrySame? && attemptCount >= failureThreshold then Max(0.10, s.confidence - 0.25) else s.confidence;
    Prior(decision) + s.successRate * confidence + successBonus - attemptsPenalty
  }

  function Rank(decision: Decision): nat {
    match decision
    case RepairStep => 0
    case AdjustPlan => 0
    case RetrySame => 1
    case Abort => 2
    case Escalate => 3
    case AdvanceStep => 4
  }

  datatype Scored = Scored(score: real, decision: Decision)

  /** The sort key (-score, rank). */
  predicate Better(a: Scored, b: Scored) {
    a.score > b.score || (a.score == b.score && Rank(a.decision) < Rank(b.decision))
  }

  function Candidates(pattern: string, retryable: bool): seq<Decision> {
    if pattern != "invalid_plan" && retryable then [RetrySame, AdjustPlan, Abort] else [AdjustPlan, Abort]
  }

  /** The candidates with `retry_same` moved last when it failed at least twice recently. */
  function Reordered(candidates: seq<Decision>, retryFailures: nat): seq<Decision> {
    if retryFailures >= 2 && RetrySame in candidates then Without(candidates, RetrySame) + [RetrySame] else candidates
  }

  function Without(candidates: seq<Decision>, decision: Decision): (r: seq<Decision>)
    ensures forall d :: d in r <==> d in candidates && d != decision
  {
    if candidates == [] then []
    else if candidates[0] == decision then Without(candidates[1..], decision)
    else [candidates[0]] + Without(candidates[1..], decision)
  }

  function CountPatternFailures(failures: seq<MemoryRecord>, pattern: string, decision: Decision): nat {
    if failures == [] then 0 else
    var rest := CountPatternFailures(failures[1..], pattern, decision);
    if failures[0].strategyPattern == pattern && failures[0].decision == Some(decision) then rest + 1 else rest
  }

  function ScoreAll(table: Table, pattern: string, candidates: seq<Decision>, attemptCount: int, failureThreshold: int): (r: seq<Scored>)
    ensures |r| == |candidates|
    ensures forall i :: 0 <= i < |r| ==>
      r[i] == ScoredAs(table, pattern, candidates[i], attemptCount, failureThreshold)
  {
    seq(|candidates|, i requires 0 <= i < |candidates| =>
      ScoredAs(table, pattern, candidates[i], attemptCount, failureThreshold))
  }

  lemma BetterIsWeak()
    ensures StrictWeak(Better)
  {
  }

  /** `_select_best_decision` */
  function SelectBest(table: Table, pattern: string, retryable: bool, failures: seq<MemoryRecord>,
      attemptCount: int, failureThreshold: int): Decision
  {
    var candidates := Reordered(Candidates(pattern, retryable), CountPatternFailures(failures, pattern, RetrySame));
    var scored := ScoreAll(table, pattern, candidates, attemptCount, failureThreshold);
    BetterIsWeak();
    assert AdjustPlan in candidates;
    SortHead(scored, Better);
    Sort(scored, Better)[0].decision
  }

  lemma HeadBeats(scored: seq<Scored>, x: Scored)
    requires x in scored && Sort(scored, Better) != []
    requires Rank(x.decision) != Rank(Sort(scored, Better)[0].decision)
    ensures Better(Sort(scored, Better)[0], x)
  {
    BetterIsWeak();
    SortHead(scored, Better);
  }

  lemma ReorderedSame(pattern: string, retryable: bool, retryFailures: nat)
    ensures forall d :: d in Candidates(pattern, retryable) <==> d in Reordered(Candidates(pattern, retryable), retryFailures)
  {
  }

  function ScoredAs(table: Table, pattern: string, decision: Decision, attemptCount: int, failureThreshold: int): Scored {
    Scored(Score(table, pattern, decision, attemptCount, failureThreshold), decision)
  }

  /** The chosen decision is a candidate and no other candidate scores better, ties going to the lower rank. */
  lemma SelectBestIsBest(table: Table, pattern: string, retryable: bool, failures: seq<MemoryRecord>,
      attemptCount: int, failureThreshold: int)
    ensures SelectBest(table, pattern, retryable, failures, attemptCount, failureThreshold) in Candidates(pattern, retryable)
    ensures forall d ::
      d in Candidates(pattern, retryable) && d != SelectBest(table, pattern, retryable, failures, attemptCount, failureThreshold) ==>
      Better(ScoredAs(table, pattern, SelectBest(table, pattern, retryable, failures, attemptCount, failureThreshold),
                      attemptCount, failureThreshold),
             ScoredAs(table, pattern, d, attemptCount, failureThreshold))
  {
    var retryFailures := CountPatternFailures(failures, pattern, RetrySame);
    var candidates := Reordered(Candidates(pattern, retryable), retryFailures);
    ReorderedSame(pattern, retryable, retryFailures);
    BestOfScored(table, pattern, candidates, attemptCount, failureThreshold);
  }

  lemma BestOfScored(table: Table, pattern: string, candidates: seq<Decision>, attemptCount: int, failureThreshold: int)
    requires candidates != [] && forall c, d :: c in candidates && d in candidates && c != d ==> Rank(c) != Rank(d)
    ensures var ranked := Sort(ScoreAll(table, pattern, candidates, attemptCount, failureThreshold), Better);
      && ranked != [] && ranked[0].decision in candidates
      && ranked[0] == ScoredAs(table, pattern, ranked[0].decision, attemptCount, failureThreshold)
      && forall d :: d in candidates && d != ranked[0].decision ==>
        Better(ranked[0], ScoredAs(table, pattern, d, attemptCount, failureThreshold))
  {
    var scored := ScoreAll(table, pattern, candidates, attemptCount, failureThreshold);
    BetterIsWeak();
    SortHead(scored, Better);
    var best := Sort(scored, Better)[0];
    forall d | d in candidates && d != best.decision
      ensures Better(best, ScoredAs(table, pattern, d, attemptCount, failureThreshold))
    {
      var k :| 0 <= k < |candidates| && candidates[k] == d;
      assert scored[k] in scored;
      HeadBeats(scored, scored[k]);
    }
  }

  /** Moving `retry_same` last cannot change the choice, because the candidates have distinct ranks. */
  lemma ReorderIrrelevant(table: Table, pattern: string, retryable: bool, a: seq<MemoryRecord>, b: seq<MemoryRecord>,
      attemptCount: int, failureThreshold: int)
    ensures SelectBest(table, pattern, retryable, a, attemptCount, failureThreshold)
      == SelectBest(table, pattern, retryable, b, attemptCount, failureThreshold)
  {
    SelectBestIsBest(table, pattern, retryable, a, attemptCount, failureThreshold);
    SelectBestIsBest(table, pattern, retryable, b, attemptCount, failureThreshold);
  }

  /** Attempts that still lower a score: the penalty stops growing at ten. */
  function Counted(table: Table, pattern: string, decision: Decision): nat {
    var attempts := Lookup(table, StatKey(pattern, decision)).attempts;
    if attempts < 10 then attempts else 10
  }

  /** Without credited success a score is the prior less two hundredths per counted attempt. */
  lemma ScoreWithoutCredit(table: Table, pattern: string, decision: Decision, attemptCount: int, failureThreshold: int)
    requires TableOk(table) && CreditOnlyAdvance(table) && !decision.AdvanceStep?
    ensures Score(table, pattern, decision, attemptCount, failureThreshold)
      == Prior(decision) - 0.02 * Counted(table, pattern, decision) as real
  {
  }

  /** How two decisions compare without credited success. */
  lemma BetterWithoutCredit(table: Table, pattern: string, a: Decision, b: Decision, attemptCount: int, failureThreshold: int)
    requires TableOk(table) && CreditOnlyAdvance(table) && !a.AdvanceStep? && !b.AdvanceStep?
    ensures Better(ScoredAs(table, pattern, a, attemptCount, failureThreshold), ScoredAs(table, pattern, b, attemptCount, failureThreshold))
      <==> Better(Scored(Prior(a) - 0.02 * Counted(table, pattern, a) as real, a),
                  Scored(Prior(b) - 0.02 * Counted(table, pattern, b) as real, b))
  {
    ScoreWithoutCredit(table, pattern, a, attemptCount, failureThreshold);
    ScoreWithoutCredit(table, pattern, b, attemptCount, failureThreshold);
  }

  /**
   With controller-written statistics `abort` is never chosen, and the same plan is retried exactly when
   retrying is a candidate and has at most two counted attempts more than adjusting.
   */
  lemma ChoiceWithoutCredit(table: Table, pattern: string, retryable: bool, failures: seq<MemoryRecord>,
      attemptCount: int, failureThreshold: int)
    requires TableOk(table) && CreditOnlyAdvance(table)
    ensures SelectBest(table, pattern, retryable, failures, attemptCount, failureThreshold) ==
      if retryable && pattern != "invalid_plan"
        && Counted(table, pattern, RetrySame) <= Counted(table, pattern, AdjustPlan) + 2
      then RetrySame else AdjustPlan
  {
    SelectBestIsBest(table, pattern, retryable, failures, attemptCount, failureThreshold);
    BestWithoutCredit(table, pattern, retryable, SelectBest(table, pattern, retryable, failures, attemptCount, failureThreshold),
      attemptCount, failureThreshold);
  }

  /** The candidate that beats all others without credited success. */
  lemma BestWithoutCredit(table: Table, pattern: string, retryable: bool, best: Decision, attemptCount: int, failureThreshold: int)
    requires TableOk(table) && CreditOnlyAdvance(table) && best in Candidates(pattern, retryable)
    requires forall d :: d in Candidates(pattern, retryable) && d != best ==>
      Better(ScoredAs(table, pattern, best, attemptCount, failureThreshold), ScoredAs(table, pattern, d, attemptCount, failureThreshold))
    ensures best ==
      if retryable && pattern != "invalid_plan"
        && Counted(table, pattern, RetrySame) <= Counted(table, pattern, AdjustPlan) + 2
      then RetrySame else AdjustPlan
  {
    assert AdjustPlan in Candidates(pattern, retryable);
    if best != AdjustPlan {
      BetterWithoutCredit(table, pattern, best, AdjustPlan, attemptCount, failureThreshold);
    } else if RetrySame in Candidates(pattern, retryable) {
      BetterWithoutCredit(table, pattern, AdjustPlan, RetrySame, attemptCount, failureThreshold);
    }
  }

  /** The hypothesis is needed: a record crediting a success to `abort` makes it win. */
  lemma AbortNeedsForeignCredit()
    ensures var table := UpdateStats(map[], "runtime_error", Abort, true);
      TableOk(table) && SelectBest(table, "runtime_error", false, [], 1, 3) == Abort
  {
    var table := UpdateStats(map[], "runtime_error", Abort, true);
    UpdateKeepsTable(map[], "runtime_error", Abort, true);
    SelectBestIsBest(table, "runtime_error", false, [], 1, 3);
    assert StatKey("runtime_error", AdjustPlan) !in table;
    assert Score(table, "runtime_error", AdjustPlan, 1, 3) == 0.55;
    assert Abort in Candidates("runtime_error", false);
  }

  // ---------- what the numbers are ----------

  /** Learning from one outcome: the counts, and confidence a tenth up or a fixed step down, kept within [0.10, 2.0]. */
  lemma LearnedFrom(table: Table, pattern: string, decision: Decision, success: bool)
    ensures var key := StatKey(pattern, decision); var after := UpdateStats(table, pattern, decision, success);
      var known, learned := (if key in table then table[key] else Stats(0, 0, 0.0, 1.0)), after[key];
      && learned.attempts == known.attempts + 1
      && learned.successes == known.successes + (if success then 1 else 0)
      && learned.successRate == learned.successes as real / learned.attempts as real
      && (success ==> learned.confidence == (if known.confidence <= 1.9 then known.confidence + 0.1 else 2.0))
      && (!success ==>
           var down := if decision == RetrySame then 0.2 else if decision == RepairStep then 0.05 else 0.1;
           learned.confidence == (if known.confidence >= 0.1 + down then known.confidence - down else 0.1))
      && forall other :: other != key ==> (other in after <==> other in table) && (other in table ==> after[other] == table[other])
  {
  }

  /** A decision never recorded for the pattern scores what it starts with. */
  lemma UntriedScores(table: Table, pattern: string, attemptCount: int, failureThreshold: int)
    ensures StatKey(pattern, RetrySame) !in table ==> Score(table, pattern, RetrySame, attemptCount, failureThreshold) == 0.60
    ensures StatKey(pattern, AdjustPlan) !in table ==> Score(table, pattern, AdjustPlan, attemptCount, failureThreshold) == 0.55
    ensures StatKey(pattern, Abort) !in table ==> Score(table, pattern, Abort, attemptCount, failureThreshold) == 0.20
    ensures StatKey(pattern, RepairStep) !in table ==> Score(table, pattern, RepairStep, attemptCount, failureThreshold) == 0.58
    ensures StatKey(pattern, Escalate) !in table ==> Score(table, pattern, Escalate, attemptCount, failureThreshold) == 0.10
    ensures StatKey(pattern, AdvanceStep) !in table ==> Score(table, pattern, AdvanceStep, attemptCount, failureThreshold) == 0.90
  {
  }

  /** What experience adds: the rate weighted by confidence, 0.03 a success up to 0.30, less 0.02 an attempt up to 0.20. */
  lemma ExperienceScores(table: Table, pattern: string, decision: Decision, attemptCount: int, failureThreshold: int)
    requires StatKey(pattern, decision) in table && (decision != RetrySame || attemptCount < failureThreshold)
    ensures var s := table[StatKey(pattern, decision)];
      var bonus := if s.successes >= 10 then 0.30 else 0.03 * s.successes as real;
      var penalty := if s.attempts >= 10 then 0.20 else 0.02 * s.attempts as real;
      Score(table, pattern, decision, attemptCount, failureThreshold)
        - Score(map[], pattern, decision, attemptCount, failureThreshold) == s.successRate * s.confidence + bonus - penalty
  {
  }

  /** From the failure threshold on, retrying counts its success rate with a quarter less confidence, but never below 0.10. */
  lemma RetryNearThreshold(table: Table, pattern: string, early: int, late: int, failureThreshold: int)
    requires early < failureThreshold <= late && TableOk(table) && StatKey(pattern, RetrySame) in table
    ensures var s := table[StatKey(pattern, RetrySame)];
      var lost := if s.confidence >= 0.35 then 0.25 else s.confidence - 0.10;
      Score(table, pattern, RetrySame, late, failureThreshold)
        == Score(table, pattern, RetrySame, early, failureThreshold) - s.successRate * lost
  {
    var s := table[StatKey(pattern, RetrySame)];
    var lost := if s.confidence >= 0.35 then 0.25 else s.confidence - 0.10;
    assert StatsOk(s);
    assert s.successRate * (s.confidence - lost) == s.successRate * s.confidence - s.successRate * lost;
  }

  /** Retrying needs a retryable failure that is no invalid plan; adjusting and aborting are always open. */
  lemma CandidatesAre(pattern: string, retryable: bool)
    ensures forall d :: d in Candidates(pattern, retryable) <==>
      d == AdjustPlan || d == Abort || (d == RetrySame && retryable && pattern != "invalid_plan")
  {
  }

  /** The chosen candidate has the highest score; among equals adjusting comes before retrying and that before aborting. */
  lemma ChosenScoresHighest(table: Table, pattern: string, retryable: bool, failures: seq<MemoryRecord>,
      attemptCount: int, failureThreshold: int, d: Decision)
    requires d in Candidates(pattern, retryable)
    requires d != SelectBest(table, pattern, retryable, failures, attemptCount, failureThreshold)
    ensures var best := SelectBest(table, pattern, retryable, failures, attemptCount, failureThreshold);
      var high, low := Score(table, pattern, best, attemptCount, failureThreshold), Score(table, pattern, d, attemptCount, failureThreshold);
      high > low || (high == low && (best == AdjustPlan || (best == RetrySame && d == Abort)))
  {
    var best := SelectBest(table, pattern, retryable, failures, attemptCount, failureThreshold);
    SelectBestIsBest(table, pattern, retryable, failures, attemptCount, failureThreshold);
    CandidatesAre(pattern, retryable);
    assert Better(ScoredAs(table, pattern, best, attemptCount, failureThreshold), ScoredAs(table, pattern, d, attemptCount, failureThreshold));
  }
}
