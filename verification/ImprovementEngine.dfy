/** The self-improvement engine: metrics, impact scores and an acceptance gate over an append-only decision log. */
module ImprovementEngines {
  import opened Ordering

  const MIN_IMPROVEMENT_DELTA := 500
  const COOLDOWN_CYCLES := 3
  const WHOLE := 10000

  // ---------- rounding ----------

  /** Rounding to the nearest integer, halves to the even one, as `round` does. */
  function RoundHalfEven(x: real): int {
    var f := x.Floor;
    var d := x - f as real;
    if d < 0.5 || (d == 0.5 && f % 2 == 0) then f else f + 1
  }

  lemma RoundIsMonotone(x: real, y: real)
    requires x <= y
    ensures RoundHalfEven(x) <= RoundHalfEven(y)
  {
  }

  /** An integer nearest to `x`; halfway between two, either will do. */
  ghost predicate Nearest(n: int, x: real) {
    -0.5 <= x - n as real <= 0.5
  }

  /** Rounding gives a nearest integer, halfway the even one. */
  lemma RoundIsNearest(x: real)
    ensures Nearest(RoundHalfEven(x), x)
    ensures x == x.Floor as real + 0.5 ==> RoundHalfEven(x) % 2 == 0
  {
  }

  // ---------- metrics ----------

  /** An execution record; `status` in lower case, the three latencies from its result when they are numbers. */
  datatype ExecutionRecord = ExecutionRecord(
    success: Option<bool>, status: string, decision: string,
    durationMs: Option<real>, latencyMs: Option<real>, runtimeSeconds: Option<real>)

  /** Rates in ten-thousandths, the latency in thousandths of a millisecond. */
  datatype Metrics = Metrics(success: int, failure: int, latency: int, retry: int)

  predicate IsSuccess(r: ExecutionRecord) {
    if r.success.Some? then r.success.value else r.status == "success" || r.status == "completed"
  }

  function ExtractLatency(r: ExecutionRecord): Option<real> {
    if r.durationMs.Some? then r.durationMs
    else if r.latencyMs.Some? then r.latencyMs
    else if r.runtimeSeconds.Some? then Some(r.runtimeSeconds.value * 1000.0)
    else None
  }

  function TotalLatency(records: seq<ExecutionRecord>): real {
    if records == [] then 0.0
    else
      var latency := ExtractLatency(records[|records| - 1]);
      TotalLatency(records[..|records| - 1]) + (if latency.Some? then latency.value else 0.0)
  }

  function Rate(part: nat, total: nat): int
    requires total > 0
  {
    RoundHalfEven(Share(part, total))
  }

  function Successful(): ExecutionRecord -> bool { (r: ExecutionRecord) => IsSuccess(r) }
  function Unsuccessful(): ExecutionRecord -> bool { (r: ExecutionRecord) => !IsSuccess(r) }
  function Retried(): ExecutionRecord -> bool { (r: ExecutionRecord) => r.decision == "retry_same" }
  function Timed(): ExecutionRecord -> bool { (r: ExecutionRecord) => ExtractLatency(r).Some? }

  function MetricsOf(records: seq<ExecutionRecord>): Metrics {
    var total := |records|;
    if total == 0 then Metrics(0, 0, 0, 0)
    else
      Metrics(Rate(|Filter(records, Successful())|, total), Rate(|Filter(records, Unsuccessful())|, total),
        MeanLatency(records), Rate(|Filter(records, Retried())|, total))
  }

  /** The mean of the known latencies in thousandths of a millisecond, 0 when none is known. */
  function MeanLatency(records: seq<ExecutionRecord>): int {
    var timed := |Filter(records, Timed())|;
    if timed > 0 then RoundHalfEven(1000.0 * (TotalLatency(records) / timed as real)) else 0
  }

  /** `_compute_metrics` */
  method ComputeMetrics(records: seq<ExecutionRecord>) returns (m: Metrics)
    ensures m == MetricsOf(records)
  {
    var total := |records|;
    if total <= 0 { return Metrics(0, 0, 0, 0); }
    var successes, failures, retries, timed := 0, 0, 0, 0;
    var latencies := 0.0;
    for i := 0 to total
      invariant successes == |Filter(records[..i], Successful())| && failures == |Filter(records[..i], Unsuccessful())|
      invariant retries == |Filter(records[..i], Retried())| && timed == |Filter(records[..i], Timed())|
      invariant latencies == TotalLatency(records[..i])
    {
      assert records[..i + 1][..i] == records[..i];
      if IsSuccess(records[i]) { successes := successes + 1; } else { failures := failures + 1; }
      if records[i].decision == "retry_same" { retries := retries + 1; }
      var latency := ExtractLatency(records[i]);
      if latency.Some? { latencies := latencies + latency.value; timed := timed + 1; }
    }
    assert records[..total] == records;
    return Metrics(Rate(successes, total), Rate(failures, total),
      if timed > 0 then RoundHalfEven(1000.0 * (latencies / timed as real)) else 0, Rate(retries, total));
  }

  lemma {:induction false} SuccessesAndFailures(records: seq<ExecutionRecord>)
    ensures |Filter(records, Successful())| + |Filter(records, Unsuccessful())| == |records|
  {
    if records != [] { SuccessesAndFailures(records[..|records| - 1]); }
  }

  /** The exact rate in ten-thousandths. */
  function Share(part: nat, total: nat): real
    requires total > 0
  {
    WHOLE as real * part as real / total as real
  }

  /** Halfway between two multiples of a ten-thousandth. */
  predicate Halfway(part: nat, total: nat)
    requires total > 0
  {
    Share(part, total) == Share(part, total).Floor as real + 0.5
  }

  /**
   The rates of a non-empty history, each rounded to a nearest ten-thousandth on its own. Which way a
   halfway case goes is left open: the quotients are binary fractions a little above or below.
   */
  ghost predicate HasRates(m: Metrics, records: seq<ExecutionRecord>)
    requires records != []
  {
    && Nearest(m.success, Share(|Filter(records, Successful())|, |records|))
    && Nearest(m.failure, Share(|Filter(records, Unsuccessful())|, |records|))
    && Nearest(m.retry, Share(|Filter(records, Retried())|, |records|))
  }

  lemma MetricsHaveRates(records: seq<ExecutionRecord>)
    requires records != []
    ensures HasRates(MetricsOf(records), records)
  {
    RoundIsNearest(Share(|Filter(records, Successful())|, |records|));
    RoundIsNearest(Share(|Filter(records, Unsuccessful())|, |records|));
    RoundIsNearest(Share(|Filter(records, Retried())|, |records|));
  }

  lemma NearestRateBounds(rate: int, part: nat, total: nat)
    requires part <= total && total > 0 && Nearest(rate, Share(part, total))
    ensures 0 <= rate <= WHOLE
  {
    assert 0.0 <= Share(part, total) <= WHOLE as real;
  }

  lemma ComplementaryShares(part: nat, rest: nat)
    requires part + rest > 0
    ensures Share(rest, part + rest) == WHOLE as real - Share(part, part + rest)
  {
    ComplementaryQuotients(WHOLE as real, part as real, rest as real);
    assert (part + rest) as real == part as real + rest as real;
  }

  lemma ComplementaryQuotients(w: real, p: real, r: real)
    requires p + r > 0.0
    ensures w * r / (p + r) == w - w * p / (p + r)
  {
  }

  lemma NearestComplements(x: real, s: int, f: int)
    requires Nearest(s, x) && Nearest(f, WHOLE as real - x)
    ensures WHOLE - 1 <= s + f <= WHOLE + 1
    ensures x != x.Floor as real + 0.5 ==> s + f == WHOLE
  {
    assert -1.0 <= (s + f) as real - WHOLE as real <= 1.0;
    if s + f == WHOLE + 1 {
      assert x == (s - 1) as real + 0.5;
      HalfFloor(x, s - 1);
    } else if s + f == WHOLE - 1 {
      assert x == s as real + 0.5;
      HalfFloor(x, s);
    }
  }

  lemma HalfFloor(x: real, n: int)
    requires x == n as real + 0.5
    ensures x.Floor == n
  {
  }

  /**
   Success and failure rates of a non-empty history add up to 1 within one ten-thousandth, and exactly
   unless the success share is halfway between two of them.
   */
  lemma RatesPartition(records: seq<ExecutionRecord>, m: Metrics)
    requires records != [] && HasRates(m, records)
    ensures 0 <= m.success <= WHOLE && 0 <= m.failure <= WHOLE && 0 <= m.retry <= WHOLE
    ensures WHOLE - 1 <= m.success + m.failure <= WHOLE + 1
    ensures !Halfway(|Filter(records, Successful())|, |records|) ==> m.success + m.failure == WHOLE
  {
    var s, f, total := |Filter(records, Successful())|, |Filter(records, Unsuccessful())|, |records|;
    SuccessesAndFailures(records);
    NearestRateBounds(m.success, s, total);
    NearestRateBounds(m.failure, f, total);
    NearestRateBounds(m.retry, |Filter(records, Retried())|, total);
    ComplementaryShares(s, f);
    NearestComplements(Share(s, total), m.success, m.failure);
  }

  /** The slack is needed: one success in 160 is halfway, and both rates may round up. */
  lemma RatesCanExceedOne()
    ensures Halfway(1, 160)
    ensures Nearest(63, Share(1, 160)) && Nearest(9938, Share(159, 160)) && 63 + 9938 == WHOLE + 1
  {
    assert Share(1, 160) == 62.5;
  }

  // ---------- what the metrics measure ----------

  /** The success flag decides; without one the status does. */
  lemma SuccessMeaning(r: ExecutionRecord)
    ensures IsSuccess(r) <==> r.success == Some(true) || (r.success == None && r.status in {"success", "completed"})
  {
  }

  /** Milliseconds as `duration_ms`, else as `latency_ms`, else seconds. */
  lemma LatencyMeaning(r: ExecutionRecord, ms: real)
    ensures ExtractLatency(r) == Some(ms) <==>
      || r.durationMs == Some(ms)
      || (r.durationMs == None && r.latencyMs == Some(ms))
      || (r.durationMs == None && r.latencyMs == None && r.runtimeSeconds.Some? && r.runtimeSeconds.value * 1000.0 == ms)
    ensures ExtractLatency(r) == None <==> r.durationMs == r.latencyMs == r.runtimeSeconds == None
  {
  }

  predicate LatencyWithin(r: ExecutionRecord, low: real, high: real) {
    ExtractLatency(r).Some? ==> low <= ExtractLatency(r).value <= high
  }

  ghost predicate LatenciesWithin(records: seq<ExecutionRecord>, low: real, high: real) {
    forall i :: 0 <= i < |records| ==> LatencyWithin(records[i], low, high)
  }

  /** `n` times `x`. */
  ghost function Repeated(x: real, n: nat): real {
    if n == 0 then 0.0 else Repeated(x, n - 1) + x
  }

  lemma {:induction false} RepeatedIsProduct(x: real, n: nat)
    ensures Repeated(x, n) == x * n as real
  {
    if n > 0 { RepeatedIsProduct(x, n - 1); }
  }

  lemma {:induction false} TotalBetween(records: seq<ExecutionRecord>, low: real, high: real)
    requires LatenciesWithin(records, low, high)
    ensures Repeated(low, |Filter(records, Timed())|) <= TotalLatency(records) <= Repeated(high, |Filter(records, Timed())|)
  {
    if records != [] {
      TotalBetween(records[..|records| - 1], low, high);
      assert LatencyWithin(records[|records| - 1], low, high);
    }
  }

  lemma MeanBetween(total: real, n: nat, low: real, high: real)
    requires n > 0 && Repeated(low, n) <= total <= Repeated(high, n)
    ensures low <= total / n as real <= high
  {
    RepeatedIsProduct(low, n);
    RepeatedIsProduct(high, n);
    QuotientBetween(total, n as real, low, high);
  }

  lemma QuotientBetween(total: real, n: real, low: real, high: real)
    requires n > 0.0 && low * n <= total <= high * n
    ensures low <= total / n <= high
  {
  }

  /** The mean latency lies between the least and the greatest, in thousandths of a millisecond; it is 0 when none is known. */
  lemma LatencyIsMean(records: seq<ExecutionRecord>, low: real, high: real)
    requires LatenciesWithin(records, low, high)
    ensures MetricsOf(records).latency == MeanLatency(records)
    ensures if Filter(records, Timed()) == [] then MeanLatency(records) == 0
            else 1000.0 * low - 0.5 <= MeanLatency(records) as real <= 1000.0 * high + 0.5
  {
    var timed := |Filter(records, Timed())|;
    if timed > 0 {
      TotalBetween(records, low, high);
      MeanBetween(TotalLatency(records), timed, low, high);
      RoundIsNearest(1000.0 * (TotalLatency(records) / timed as real));
    }
  }

  /** The positions of the successes, of the failures and of the repeated tries. */
  ghost function SuccessesIn(records: seq<ExecutionRecord>): set<int> {
    set i | 0 <= i < |records| && IsSuccess(records[i])
  }

  ghost function FailuresIn(records: seq<ExecutionRecord>): set<int> {
    set i | 0 <= i < |records| && !IsSuccess(records[i])
  }

  ghost function RetriesIn(records: seq<ExecutionRecord>): set<int> {
    set i | 0 <= i < |records| && records[i].decision == "retry_same"
  }

  lemma PositionsCounted(records: seq<ExecutionRecord>)
    ensures |Filter(records, Successful())| == |SuccessesIn(records)|
    ensures |Filter(records, Unsuccessful())| == |FailuresIn(records)|
    ensures |Filter(records, Retried())| == |RetriesIn(records)|
  {
    FilterPositions(records, Successful());
    FilterPositions(records, Unsuccessful());
    FilterPositions(records, Retried());
    assert PositionsWhere(records, Successful()) == SuccessesIn(records);
    assert PositionsWhere(records, Unsuccessful()) == FailuresIn(records);
    assert PositionsWhere(records, Retried()) == RetriesIn(records);
  }

  /** The rates are nearest ten-thousandths of the numbers of those positions among all records. */
  lemma RatesMeaning(records: seq<ExecutionRecord>)
    requires records != []
    ensures Nearest(MetricsOf(records).success, 10000.0 * |SuccessesIn(records)| as real / |records| as real)
    ensures Nearest(MetricsOf(records).failure, 10000.0 * |FailuresIn(records)| as real / |records| as real)
    ensures Nearest(MetricsOf(records).retry, 10000.0 * |RetriesIn(records)| as real / |records| as real)
  {
    MetricsHaveRates(records);
    PositionsCounted(records);
  }

  // ---------- impact score ----------

  /** The weighted change in ten-thousandths, before clamping and rounding. */
  function RawScore(before: Metrics, after: Metrics): real {
    0.6 * (after.success - before.success) as real
    + 0.3 * (before.failure - after.failure) as real
    + 1000.0 * (if before.latency > 0 then (before.latency - after.latency) as real / before.latency as real else 0.0)
  }

  function Clamp(x: real): real {
    var top := if x < 10000.0 then x else 10000.0;
    if top > -10000.0 then top else -10000.0
  }

  /** `_compute_impact_score`, in ten-thousandths. */
  function ImpactScore(before: Metrics, after: Metrics): int {
    RoundHalfEven(Clamp(RawScore(before, after)))
  }

  lemma ScoreBounds(before: Metrics, after: Metrics)
    ensures -WHOLE <= ImpactScore(before, after) <= WHOLE
  {
  }

  /** More successes, fewer failures and less latency never lower the score. */
  lemma ScoreIsMonotone(before: Metrics, worse: Metrics, better: Metrics)
    requires worse.success <= better.success && worse.failure >= better.failure && worse.latency >= better.latency
    ensures ImpactScore(before, worse) <= ImpactScore(before, better)
  {
    if before.latency > 0 {
      var w, b := (before.latency - worse.latency) as real, (before.latency - better.latency) as real;
      QuotientIsMonotone(w, b, before.latency as real);
    }
    assert RawScore(before, worse) <= RawScore(before, better);
    RoundIsMonotone(Clamp(RawScore(before, worse)), Clamp(RawScore(before, better)));
  }

  lemma QuotientIsMonotone(a: real, b: real, d: real)
    requires a <= b && d > 0.0
    ensures a / d <= b / d
  {
  }

  /** With equal rates and a measured latency before, the score is a tenth of the relative latency gain, cut off at -1 and 1. */
  lemma LatencyAlone(before: Metrics, after: Metrics)
    requires before.success == after.success && before.failure == after.failure && before.latency > 0
    ensures var gain := 1000.0 * (before.latency - after.latency) as real / before.latency as real;
      Nearest(ImpactScore(before, after), if gain < -10000.0 then -10000.0 else if gain > 10000.0 then 10000.0 else gain)
    ensures after.latency >= 0 ==> 1000.0 * (before.latency - after.latency) as real / before.latency as real <= 1000.0
  {
    var x, d := (before.latency - after.latency) as real, before.latency as real;
    ScaledQuotient(x, d);
    if after.latency >= 0 { QuotientAtMostOne(x, d); }
    RoundIsNearest(Clamp(RawScore(before, after)));
  }

  lemma ScaledQuotient(x: real, d: real)
    requires d > 0.0
    ensures 1000.0 * (x / d) == 1000.0 * x / d
  {
  }

  lemma QuotientAtMostOne(x: real, d: real)
    requires d > 0.0 && x <= d
    ensures x / d <= 1.0
  {
  }

  /** Without a measured latency before, later latencies do not matter. */
  lemma LatencyUnmeasured(before: Metrics, after: Metrics, after': Metrics)
    requires before.latency <= 0 && after.success == after'.success && after.failure == after'.failure
    ensures ImpactScore(before, after) == ImpactScore(before, after')
  {
  }

  /** A change of the success rate alone counts six tenths of itself. */
  lemma SuccessAlone(before: Metrics, after: Metrics)
    requires before.failure == after.failure && (before.latency == after.latency || before.latency <= 0)
    requires 0 <= before.success <= WHOLE && 0 <= after.success <= WHOLE
    ensures Nearest(ImpactScore(before, after), 0.6 * (after.success - before.success) as real)
  {
    RoundIsNearest(Clamp(RawScore(before, after)));
  }

  /** A drop of the failure rate alone counts three tenths of itself. */
  lemma FailureAlone(before: Metrics, after: Metrics)
    requires before.success == after.success && (before.latency == after.latency || before.latency <= 0)
    requires 0 <= before.failure <= WHOLE && 0 <= after.failure <= WHOLE
    ensures Nearest(ImpactScore(before, after), 0.3 * (before.failure - after.failure) as real)
  {
    RoundIsNearest(Clamp(RawScore(before, after)));
  }

  /** All three add up, cut off at -1 and 1. */
  lemma ChangesAddUp(before: Metrics, after: Metrics, latencyGain: real)
    requires latencyGain == if before.latency > 0 then (before.latency - after.latency) as real / before.latency as real else 0.0
    ensures var change := 0.6 * (after.success - before.success) as real + 0.3 * (before.failure - after.failure) as real
        + 1000.0 * latencyGain;
      Nearest(ImpactScore(before, after), if change > 10000.0 then 10000.0 else if change < -10000.0 then -10000.0 else change)
  {
    RoundIsNearest(Clamp(RawScore(before, after)));
  }

  /** The score is the clamped change, rounded. */
  lemma ScoreIsNearest(before: Metrics, after: Metrics)
    ensures Nearest(ImpactScore(before, after), Clamp(RawScore(before, after)))
  {
    RoundIsNearest(Clamp(RawScore(before, after)));
  }

  /**
   On non-empty histories without latencies any nearest rounding of the score is nine tenths of the success
   gain within two ten-thousandths, and a nearest rounding of it unless a success share is halfway between
   two ten-thousandths.
   */
  lemma ScoreOfSuccessGain(before: seq<ExecutionRecord>, after: seq<ExecutionRecord>, b: Metrics, a: Metrics, score: int)
    requires before != [] && after != [] && HasRates(b, before) && HasRates(a, after) && b.latency == 0
    requires Nearest(score, Clamp(RawScore(b, a)))
    ensures -1.1 <= score as real - 0.9 * (a.success - b.success) as real <= 1.1
    ensures !Halfway(|Filter(before, Successful())|, |before|) && !Halfway(|Filter(after, Successful())|, |after|) ==>
      Nearest(score, 0.9 * (a.success - b.success) as real)
  {
    RatesPartition(before, b);
    RatesPartition(after, a);
    GainScore(b, a, b.success + b.failure - WHOLE, a.success + a.failure - WHOLE, score);
  }

  lemma GainScore(b: Metrics, a: Metrics, eb: int, ea: int, score: int)
    requires b.latency == 0 && 0 <= b.success <= WHOLE && 0 <= a.success <= WHOLE
    requires b.failure == WHOLE - b.success + eb && a.failure == WHOLE - a.success + ea && -1 <= eb <= 1 && -1 <= ea <= 1
    requires Nearest(score, Clamp(RawScore(b, a)))
    ensures var gain := (a.success - b.success) as real;
      && -1.1 <= score as real - 0.9 * gain <= 1.1
      && (eb == ea ==> Nearest(score, 0.9 * gain))
  {
    var gain := (a.success - b.success) as real;
    assert RawScore(b, a) == 0.9 * gain + 0.3 * (eb - ea) as real;
    assert Clamp(RawScore(b, a)) == RawScore(b, a);
  }

  // ---------- the decision log ----------

  datatype Action = Action(pattern: string, target: string, change: string, reason: string)

  /** What the analyser, detector, optimiser and validator make of a history. */
  datatype Proposal = Proposal(approved: seq<Action>, rejected: seq<Action>)

  datatype Event =
    | Applied(sequence: nat, action: Action, success: bool)
    | CooldownActive(remaining: nat)
    | Record(version: int, result: string, accepted: bool, score: int, before: Metrics, after: Metrics, rollback: bool)
    | Foreign(name: string)

  predicate IsRecord(log: seq<Event>, i: int) {
    0 <= i < |log| && log[i].Record?
  }

  predicate IsAccepted(log: seq<Event>, i: int) {
    IsRecord(log, i) && log[i].accepted
  }

  /** The index of the last accepted record, -1 when there is none. */
  function LastAccepted(log: seq<Event>): (i: int)
    ensures -1 <= i < |log|
    ensures i >= 0 ==> IsAccepted(log, i)
    ensures forall j :: i < j < |log| ==> !IsAccepted(log, j)
  {
    if log == [] then -1
    else if IsAccepted(log, |log| - 1) then |log| - 1
    else
      var init := log[..|log| - 1];
      var i := LastAccepted(init);
      assert forall j :: 0 <= j < |init| ==> IsAccepted(log, j) == IsAccepted(init, j);
      i
  }

  lemma LastAcceptedIs(log: seq<Event>, i: int)
    requires IsAccepted(log, i) && forall j :: i < j < |log| ==> !IsAccepted(log, j)
    ensures LastAccepted(log) == i
  {
  }

  function RecordCount(log: seq<Event>): nat {
    if log == [] then 0 else RecordCount(log[..|log| - 1]) + (if log[|log| - 1].Record? then 1 else 0)
  }

  function AcceptedCount(log: seq<Event>): nat {
    if log == [] then 0 else AcceptedCount(log[..|log| - 1]) + (if IsAccepted(log, |log| - 1) then 1 else 0)
  }

  predicate OnCooldown(log: seq<Event>) {
    LastAccepted(log) >= 0 && |log| - LastAccepted(log) - 1 < COOLDOWN_CYCLES
  }

  predicate ShouldAccept(log: seq<Event>, score: int) {
    score >= MIN_IMPROVEMENT_DELTA && (LastAccepted(log) < 0 || score > log[LastAccepted(log)].score)
  }

  /** The largest record version, 0 without records. */
  function MaxVersion(log: seq<Event>): int {
    if log == [] then 0
    else if !log[|log| - 1].Record? then MaxVersion(log[..|log| - 1])
    else if RecordCount(log) == 1 || log[|log| - 1].version > MaxVersion(log[..|log| - 1]) then log[|log| - 1].version
    else MaxVersion(log[..|log| - 1])
  }

  /** The next version exceeds every recorded one, in any log, and follows one of them unless it is the first. */
  lemma {:induction false} NextVersionIsNew(log: seq<Event>)
    ensures forall i :: IsRecord(log, i) ==> log[i].version < NextVersion(log)
    ensures if exists i :: IsRecord(log, i) then exists i :: IsRecord(log, i) && NextVersion(log) == log[i].version + 1
            else NextVersion(log) == 1
    ensures RecordCount(log) > 0 <==> exists i :: IsRecord(log, i)
  {
    if log != [] {
      var n := |log| - 1;
      var init := log[..n];
      NextVersionIsNew(init);
      forall i | 0 <= i < n ensures IsRecord(init, i) == IsRecord(log, i) && init[i] == log[i] { }
      if log[n].Record? { assert IsRecord(log, n); }
      if i :| IsRecord(init, i) && NextVersion(init) == init[i].version + 1 { assert IsRecord(log, i); }
    }
  }

  function NextVersion(log: seq<Event>): int {
    if RecordCount(log) > 0 then MaxVersion(log) + 1 else 1
  }

  function Applications(actions: seq<Action>, success: bool): seq<Event> {
    seq(|actions|, i requires 0 <= i < |actions| => Applied(i + 1, actions[i], success))
  }

  /** The actions a cycle applies: none on cooldown. */
  function ToApply(log: seq<Event>, p: Proposal): seq<Action> {
    if OnCooldown(log) then [] else p.approved
  }

  /** The events a cycle writes before its record. */
  function Preamble(log: seq<Event>, p: Proposal): seq<Event> {
    Applications(ToApply(log, p), true) + Applications(p.rejected, false)
    + (if OnCooldown(log) then [CooldownActive(COOLDOWN_CYCLES)] else [])
  }

  function Outcome(log: seq<Event>, p: Proposal, before: Metrics, after: Metrics): Event {
    var log', apply, score := log + Preamble(log, p), ToApply(log, p), ImpactScore(before, after);
    Record(NextVersion(log'), if apply != [] then "applied" else if OnCooldown(log) then "cooldown" else "noop",
      ShouldAccept(log', score) && apply != [], score, before, after, score < 0 && apply != [])
  }

  /** The log after one cycle. */
  function AfterCycle(log: seq<Event>, p: Proposal, before: Metrics, after: Metrics): seq<Event> {
    log + Preamble(log, p) + [Outcome(log, p, before, after)]
  }

  /** The memory the engine writes to: only ever appended to. */
  class DecisionMemory {
    var log: seq<Event>

    constructor ()
      ensures log == []
    {
      log := [];
    }

    method Append(e: Event)
      modifies this
      ensures log == old(log) + [e]
    {
      log := log + [e];
    }
  }

  class ImprovementEngine {
    const memory: DecisionMemory

    constructor (memory: DecisionMemory)
      ensures this.memory == memory
    {
      this.memory := memory;
    }

    /** Scans backwards for the last accepted record. */
    method FindLastAccepted() returns (i: int)
      ensures i == LastAccepted(memory.log)
    {
      i := |memory.log| - 1;
      while i >= 0 && !IsAccepted(memory.log, i)
        invariant -1 <= i < |memory.log|
        invariant forall j :: i < j < |memory.log| ==> !IsAccepted(memory.log, j)
      {
        i := i - 1;
      }
    }

    method IsOnCooldown() returns (cooling: bool)
      ensures cooling == OnCooldown(memory.log)
    {
      var i := FindLastAccepted();
      cooling := i >= 0 && |memory.log| - i - 1 < COOLDOWN_CYCLES;
    }

    method ShouldAcceptImprovement(score: int) returns (ok: bool)
      ensures ok == ShouldAccept(memory.log, score)
    {
      if score < MIN_IMPROVEMENT_DELTA { return false; }
      var i := FindLastAccepted();
      if i < 0 { return true; }
      return score > memory.log[i].score;
    }

    method NextImprovementVersion() returns (version: int)
      ensures version == NextVersion(memory.log)
    {
      var found, greatest := 0, 0;
      for i := 0 to |memory.log|
        invariant found == RecordCount(memory.log[..i]) && greatest == MaxVersion(memory.log[..i])
      {
        assert memory.log[..i + 1][..i] == memory.log[..i];
        if memory.log[i].Record? {
          greatest := if found == 0 || memory.log[i].version > greatest then memory.log[i].version else greatest;
          found := found + 1;
        }
      }
      assert memory.log[..|memory.log|] == memory.log;
      version := if found > 0 then greatest + 1 else 1;
    }

    method WriteApplications(actions: seq<Action>, success: bool)
      modifies memory
      ensures memory.log == old(memory.log) + Applications(actions, success)
    {
      for i := 0 to |actions|
        invariant memory.log == old(memory.log) + Applications(actions, success)[..i]
      {
        memory.Append(Applied(i + 1, actions[i], success));
      }
    }

    /** The events before the record. */
    method WritePreamble(toApply: seq<Action>, proposal: Proposal, cooling: bool)
      requires cooling == OnCooldown(memory.log) && toApply == ToApply(memory.log, proposal)
      modifies memory
      ensures memory.log == old(memory.log) + Preamble(old(memory.log), proposal)
    {
      WriteApplications(toApply, true);
      WriteApplications(proposal.rejected, false);
      if cooling { memory.Append(CooldownActive(COOLDOWN_CYCLES)); }
    }

    /** `run`; the two histories are what memory holds at its two reads. */
    method Run(propose: seq<ExecutionRecord> -> Proposal, historyBefore: seq<ExecutionRecord>, historyAfter: seq<ExecutionRecord>)
      returns (record: Event)
      modifies memory
      ensures memory.log ==
        AfterCycle(old(memory.log), propose(historyBefore), MetricsOf(historyBefore), MetricsOf(historyAfter))
      ensures record == memory.log[|memory.log| - 1]
    {
      var cooling := IsOnCooldown();
      var before := ComputeMetrics(historyBefore);
      var proposal := propose(historyBefore);
      var toApply := if cooling then [] else proposal.approved;
      WritePreamble(toApply, proposal, cooling);
      var after := ComputeMetrics(historyAfter);
      var score := ImpactScore(before, after);
      var passes := ShouldAcceptImprovement(score);
      var accepted := passes && |toApply| > 0;
      var version := NextImprovementVersion();
      var result := if |toApply| > 0 then "applied" else if cooling then "cooldown" else "noop";
      record := Record(version, result, accepted, score, before, after, score < 0 && |toApply| > 0);
      memory.Append(record);
    }
  }

  // ---------- safety of the whole log ----------

  predicate NumberedAt(log: seq<Event>, i: int) {
    IsRecord(log, i) ==> log[i].version == RecordCount(log[..i + 1])
  }

  /** Every accepted score is within bounds; a later one is higher and has at least four events before it. */
  ghost predicate Gated(log: seq<Event>) {
    && (forall i :: IsAccepted(log, i) ==> MIN_IMPROVEMENT_DELTA <= log[i].score <= WHOLE)
    && (forall i, j :: i < j && IsAccepted(log, i) && IsAccepted(log, j) ==>
          log[i].score < log[j].score && j - i > COOLDOWN_CYCLES + 1)
  }

  /** Records are numbered 1, 2, 3 and so on, and acceptances passed the gate. */
  ghost predicate Safe(log: seq<Event>) {
    Gated(log) && forall i :: 0 <= i < |log| ==> NumberedAt(log, i)
  }

  /** A memory event of any other kind, and any event but an accepted record, keeps a safe log safe. */
  lemma SafeAppend(log: seq<Event>, e: Event)
    requires Safe(log)
    requires e.Record? ==> e.version == RecordCount(log) + 1 && !e.accepted
    ensures Safe(log + [e])
    ensures LastAccepted(log + [e]) == LastAccepted(log)
  {
    var longer := log + [e];
    assert longer[..|log|] == log;
    forall i | 0 <= i < |longer| ensures NumberedAt(longer, i) {
      if i < |log| { assert NumberedAt(log, i); assert longer[..i + 1] == log[..i + 1]; }
      else { assert longer[..i + 1] == longer; }
    }
    forall i | 0 <= i < |log| ensures IsAccepted(longer, i) == IsAccepted(log, i) { }
  }

  lemma {:induction false} SafeExtends(log: seq<Event>, more: seq<Event>)
    requires Safe(log) && forall e :: e in more ==> !e.Record?
    ensures Safe(log + more)
    ensures LastAccepted(log + more) == LastAccepted(log)
    ensures RecordCount(log + more) == RecordCount(log)
  {
    if more == [] {
      assert log + more == log;
    } else {
      var init, e := more[..|more| - 1], more[|more| - 1];
      SafeExtends(log, init);
      assert log + more == (log + init) + [e];
      assert (log + more)[..|log + more| - 1] == log + init;
      SafeAppend(log + init, e);
    }
  }

  /** In a safe log the largest version is the number of records. */
  lemma {:induction false} VersionsCount(log: seq<Event>)
    requires Safe(log)
    ensures MaxVersion(log) == RecordCount(log) && NextVersion(log) == RecordCount(log) + 1
  {
    if log != [] {
      var init := log[..|log| - 1];
      forall i | 0 <= i < |init| ensures NumberedAt(init, i) {
        assert NumberedAt(log, i);
        assert init[..i + 1] == log[..i + 1];
      }
      forall i | 0 <= i < |init| ensures IsAccepted(init, i) == IsAccepted(log, i) && init[i] == log[i] { }
      VersionsCount(init);
      assert NumberedAt(log, |log| - 1);
      assert log[..|log|] == log;
    }
  }

  /** One cycle of the engine, whatever it proposes and whatever the histories, keeps the log safe. */
  lemma CycleIsSafe(log: seq<Event>, p: Proposal, before: Metrics, after: Metrics)
    requires Safe(log)
    ensures Safe(AfterCycle(log, p, before, after))
  {
    var middle, record := log + Preamble(log, p), Outcome(log, p, before, after);
    SafeExtends(log, Preamble(log, p));
    VersionsCount(middle);
    ScoreBounds(before, after);
    if record.accepted { SafeAcceptance(log, middle, record); } else { SafeAppend(middle, record); }
  }

  /**
   A run on a safe log accepts exactly when something was approved, no acceptance is among the last three
   events, and the score is at least 0.05 and above every score accepted before.
   */
  lemma AcceptedExactly(log: seq<Event>, p: Proposal, before: Metrics, after: Metrics)
    requires Safe(log)
    ensures Outcome(log, p, before, after).accepted <==>
      && p.approved != [] && !(exists i :: IsAccepted(log, i) && i >= |log| - 3)
      && ImpactScore(before, after) >= 500
      && forall i :: IsAccepted(log, i) ==> log[i].score < ImpactScore(before, after)
  {
    SafeExtends(log, Preamble(log, p));
    var last := LastAccepted(log);
    if last >= 0 {
      assert (log + Preamble(log, p))[last] == log[last];
      forall i | IsAccepted(log, i) ensures i <= last && log[i].score <= log[last].score { }
    }
  }

  lemma SafeAcceptance(log: seq<Event>, middle: seq<Event>, e: Event)
    requires Safe(middle) && !OnCooldown(log) && |middle| > |log| && LastAccepted(middle) == LastAccepted(log)
    requires e.Record? && e.accepted && e.version == RecordCount(middle) + 1
    requires ShouldAccept(middle, e.score) && e.score <= WHOLE
    ensures Safe(middle + [e])
  {
    var longer := middle + [e];
    assert longer[..|middle|] == middle;
    forall i | 0 <= i < |longer| ensures NumberedAt(longer, i) {
      if i < |middle| { assert NumberedAt(middle, i); assert longer[..i + 1] == middle[..i + 1]; }
      else { assert longer[..i + 1] == longer; }
    }
    forall i | 0 <= i < |middle| ensures IsAccepted(longer, i) == IsAccepted(middle, i) { }
    forall i, j | i < j && IsAccepted(longer, i) && IsAccepted(longer, j)
      ensures longer[i].score < longer[j].score && j - i > COOLDOWN_CYCLES + 1
    {
      if j < |middle| {
        assert IsAccepted(middle, i) && IsAccepted(middle, j);
      } else {
        var last := LastAccepted(middle);
        assert IsAccepted(middle, i) && i <= last;
        if i < last { assert IsAccepted(middle, last); }
      }
    }
  }

  /** A cycle: other components' decision events, then a run of the engine that proposes and measures anything. */
  datatype Cycle = Cycle(foreign: seq<string>, proposal: Proposal, before: Metrics, after: Metrics)

  function Others(names: seq<string>): seq<Event> {
    seq(|names|, i requires 0 <= i < |names| => Foreign(names[i]))
  }

  function OneCycle(log: seq<Event>, c: Cycle): seq<Event> {
    AfterCycle(log + Others(c.foreign), c.proposal, c.before, c.after)
  }

  function LogAfter(cycles: seq<Cycle>): seq<Event> {
    if cycles == [] then [] else OneCycle(LogAfter(cycles[..|cycles| - 1]), cycles[|cycles| - 1])
  }

  /** The accepted scores of a gated log climb through a bounded range, so there are at most 9501 of them. */
  lemma {:induction false} AcceptancesAreBounded(log: seq<Event>)
    requires Gated(log)
    ensures AcceptedCount(log) <= (if LastAccepted(log) < 0 then 0 else log[LastAccepted(log)].score - MIN_IMPROVEMENT_DELTA + 1)
    ensures AcceptedCount(log) <= WHOLE - MIN_IMPROVEMENT_DELTA + 1
  {
    if log != [] {
      var init := log[..|log| - 1];
      forall i | 0 <= i < |init| ensures IsAccepted(init, i) == IsAccepted(log, i) && init[i] == log[i] { }
      AcceptancesAreBounded(init);
      var last := LastAccepted(init);
      if IsAccepted(log, |log| - 1) && last >= 0 { assert IsAccepted(log, last); }
    }
  }

  /** Safety of every run: whatever the engine proposes and reads, its log is safe and acceptances are finite in number. */
  lemma {:induction false} EveryRunIsSafe(cycles: seq<Cycle>)
    ensures Safe(LogAfter(cycles))
    ensures AcceptedCount(LogAfter(cycles)) <= 9501
  {
    if cycles != [] {
      var c := cycles[|cycles| - 1];
      EveryRunIsSafe(cycles[..|cycles| - 1]);
      var log := LogAfter(cycles[..|cycles| - 1]);
      SafeExtends(log, Others(c.foreign));
      CycleIsSafe(log + Others(c.foreign), c.proposal, c.before, c.after);
    }
    AcceptancesAreBounded(LogAfter(cycles));
  }

  /** A run that measures the same before and after scores 0, is not accepted and rolls nothing back. */
  lemma UnchangedHistoryIsNeverAccepted(log: seq<Event>, p: Proposal, m: Metrics)
    ensures Outcome(log, p, m, m).score == 0 && !Outcome(log, p, m, m).accepted && !Outcome(log, p, m, m).rollback
  {
  }

  /** The cycle finds itself on cooldown once other components have written their events. */
  predicate RunsOnCooldown(log: seq<Event>, c: Cycle) {
    OnCooldown(log + Others(c.foreign))
  }

  /**
   The cooldown counts decision records, not cycles: of any three consecutive cycles, whatever other
   components write, at least one is not on cooldown.
   */
  lemma CooldownLastsAtMostTwoCycles(log: seq<Event>, c1: Cycle, c2: Cycle, c3: Cycle)
    requires RunsOnCooldown(log, c1) && RunsOnCooldown(OneCycle(log, c1), c2)
    ensures !RunsOnCooldown(OneCycle(OneCycle(log, c1), c2), c3)
  {
    var log1 := OneCycle(log, c1);
    var log2 := OneCycle(log1, c2);
    CoolingCycle(log, c1);
    CoolingCycle(log1, c2);
    OthersKeepLast(log2, c3.foreign);
  }

  /**
   With no other writers the cycle after an acceptance is on cooldown, and the second one is exactly when
   the first rejected nothing.
   */
  lemma CooldownWithoutOtherWriters(log: seq<Event>, c1: Cycle, c2: Cycle)
    requires log != [] && IsAccepted(log, |log| - 1) && c1.foreign == [] && c2.foreign == []
    ensures RunsOnCooldown(log, c1)
    ensures RunsOnCooldown(OneCycle(log, c1), c2) <==> c1.proposal.rejected == []
  {
    var log1 := OneCycle(log, c1);
    assert log + Others(c1.foreign) == log && log1 + Others(c2.foreign) == log1;
    CoolingCycle(log, c1);
  }

  lemma OthersKeepLast(log: seq<Event>, names: seq<string>)
    requires LastAccepted(log) >= 0
    ensures LastAccepted(log + Others(names)) == LastAccepted(log)
  {
    var later := log + Others(names);
    forall i | 0 <= i < |log| ensures IsAccepted(later, i) == IsAccepted(log, i) { }
    LastAcceptedIs(later, LastAccepted(log));
  }

  /** A cycle on cooldown accepts nothing and writes its rejections, a cooldown event and a record. */
  lemma CoolingCycle(log: seq<Event>, c: Cycle)
    requires RunsOnCooldown(log, c)
    ensures |OneCycle(log, c)| == |log| + |c.foreign| + |c.proposal.rejected| + 2
    ensures LastAccepted(OneCycle(log, c)) == LastAccepted(log + Others(c.foreign)) == LastAccepted(log) >= 0
  {
    var before, later := log + Others(c.foreign), OneCycle(log, c);
    assert LastAccepted(before) < |log| by {
      assert forall i :: |log| <= i < |before| ==> !IsAccepted(before, i);
    }
    forall i | 0 <= i < |before| ensures IsAccepted(later, i) == IsAccepted(before, i) { }
    LastAcceptedIs(later, LastAccepted(before));
    forall i | 0 <= i < |log| ensures IsAccepted(before, i) == IsAccepted(log, i) { }
    LastAcceptedIs(log, LastAccepted(before));
  }
}
