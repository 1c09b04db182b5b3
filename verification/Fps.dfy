/** Benchmark captures and the authorization of a frame-rate cap, over real numbers. */
module Fps {
  import opened Wrappers

  const MAX_VPROF_OBSERVATIONS := 1000
  const MIN_CAP_AUTHORIZATION_RUNS := 5
  const BENCHMARK_RUN_EVIDENCE_SCHEMA_VERSION := 1

  datatype BenchmarkCapture = BenchmarkCapture(averageFps: real, p1Fps: real, runs: nat)

  datatype BenchmarkObservation = BenchmarkObservation(averageFps: real, p1Fps: real) {
    predicate IsValid() {
      averageFps > 0.0 && p1Fps >= 0.0
    }

    /** The run sustains the cap: ordered, and its first percentile reaches it. */
    predicate Supports(cap: nat) {
      p1Fps <= averageFps && p1Fps >= cap as real
    }
  }

  datatype BenchmarkRunEvidence = BenchmarkRunEvidence(schemaVersion: nat, observations: seq<BenchmarkObservation>) {
    predicate IsValid() {
      && schemaVersion == BENCHMARK_RUN_EVIDENCE_SCHEMA_VERSION
      && 0 < |observations| <= MAX_VPROF_OBSERVATIONS
      && forall o <- observations :: o.IsValid()
    }

    function Aggregate(): BenchmarkCapture
      requires observations != []
    {
      var runs := |observations| as real;
      BenchmarkCapture(
        RoundOneDecimal(AverageTotal(observations) / runs),
        RoundOneDecimal(P1Total(observations) / runs),
        |observations|)
    }

    predicate IsValidAgainst(capture: BenchmarkCapture) {
      IsValid() && Aggregate() == capture
    }

    function SupportingRuns(cap: nat): nat {
      CountSupporting(observations, cap)
    }

    function FailingRuns(cap: nat): int {
      |observations| - SupportingRuns(cap)
    }

    /** `ValidatedBenchmarkCapture::new` accepts the evidence. */
    predicate IsValidated() {
      IsValid() && Aggregate().averageFps > 0.0 && Aggregate().p1Fps >= 0.0
    }
  }

  function AverageTotal(s: seq<BenchmarkObservation>): real {
    if s == [] then 0.0 else AverageTotal(s[..|s| - 1]) + s[|s| - 1].averageFps
  }

  function P1Total(s: seq<BenchmarkObservation>): real {
    if s == [] then 0.0 else P1Total(s[..|s| - 1]) + s[|s| - 1].p1Fps
  }

  function CountSupporting(s: seq<BenchmarkObservation>, cap: nat): nat {
    if s == [] then 0
    else CountSupporting(s[..|s| - 1], cap) + (if s[|s| - 1].Supports(cap) then 1 else 0)
  }

  /** `f64::round`: half away from zero. */
  function RoundHalfAway(x: real): int {
    if x >= 0.0 then (x + 0.5).Floor else -(-x + 0.5).Floor
  }

  function RoundOneDecimal(x: real): real {
    RoundHalfAway(x * 10.0) as real / 10.0
  }

  datatype FpsCapStrategy = RawLatency(measuredCap: Option<nat>) | Vrr(refreshHz: nat, ceilingMarginHz: nat)

  /** The cap a strategy asks for: none for the uncapped one, refresh minus margin for VRR. */
  function RequestedCap(strategy: FpsCapStrategy): Option<nat> {
    match strategy
    case RawLatency(cap) => cap
    case Vrr(refresh, margin) => if refresh > margin then Some(refresh - margin) else None
  }

  function SustainableCap(cap: nat, evidence: BenchmarkRunEvidence): Option<nat>
    requires evidence.IsValidated()
  {
    if && cap > 0
       && evidence.Aggregate().averageFps > 0.0
       && |evidence.observations| >= MIN_CAP_AUTHORIZATION_RUNS
       && evidence.FailingRuns(cap) == 0
    then Some(cap) else None
  }

  /** Authorizes a new cap only from ordered per-run evidence. */
  function MeasuredFpsCap(strategy: FpsCapStrategy, evidence: BenchmarkRunEvidence): Option<nat>
    requires evidence.IsValidated()
  {
    if strategy == RawLatency(None) then Some(0)
    else if RequestedCap(strategy).None? then None
    else SustainableCap(RequestedCap(strategy).value, evidence)
  }

  function LegacySustainableCap(cap: nat, capture: BenchmarkCapture): Option<nat> {
    if && cap > 0
       && capture.averageFps > 0.0
       && capture.p1Fps >= cap as real
       && capture.runs >= MIN_CAP_AUTHORIZATION_RUNS
    then Some(cap) else None
  }

  /** Compatibility check for aggregate-only state that was already persisted. */
  function LegacyAggregateFpsCap(strategy: FpsCapStrategy, capture: BenchmarkCapture): Option<nat> {
    if strategy == RawLatency(None) then Some(0)
    else if RequestedCap(strategy).None? then None
    else LegacySustainableCap(RequestedCap(strategy).value, capture)
  }

  predicate CaptureIsComplete(capture: BenchmarkCapture) {
    capture.averageFps > 0.0 && 0.0 < capture.p1Fps <= capture.averageFps && capture.runs > 0
  }

  // ---------------------------------------------------------------------

  /** The nearest integer; halves go away from zero. */
  lemma RoundsToNearest(x: real, n: int)
    ensures RoundHalfAway(x) == n <==>
              if x >= 0.0 then n as real - 0.5 <= x < n as real + 0.5 else n as real - 0.5 < x <= n as real + 0.5
  {
    assert RoundHalfAway(x) == n <==> if x >= 0.0 then (x + 0.5).Floor == n else (-x + 0.5).Floor == -n;
  }

  /** Both totals add up the runs, each its own figure, whatever the order. */
  lemma {:induction false} TotalsAreSums(a: seq<BenchmarkObservation>, b: seq<BenchmarkObservation>, o: BenchmarkObservation)
    ensures AverageTotal(a + b) == AverageTotal(a) + AverageTotal(b) && AverageTotal([o]) == o.averageFps
    ensures P1Total(a + b) == P1Total(a) + P1Total(b) && P1Total([o]) == o.p1Fps
  {
    assert [o][..0] == [];
    if b == [] {
      assert a + b == a;
    } else {
      TotalsAreSums(a, b[..|b| - 1], o);
      assert (a + b)[..|a + b| - 1] == a + b[..|b| - 1];
    }
  }

  lemma RoundIsMonotone(x: real, y: real)
    requires x <= y
    ensures RoundOneDecimal(x) <= RoundOneDecimal(y)
  {
    assert x * 10.0 <= y * 10.0;
    assert RoundHalfAway(x * 10.0) <= RoundHalfAway(y * 10.0);
  }

  lemma RoundKeepsWholeNumbers(n: nat)
    ensures RoundOneDecimal(n as real) == n as real
  {
    assert n as real * 10.0 == (n * 10) as real;
    assert ((n * 10) as real + 0.5).Floor == n * 10;
  }

  /** Runs split into supporting and failing ones; none fails exactly when each supports. */
  lemma {:induction false} SupportingRunsAreBounded(s: seq<BenchmarkObservation>, cap: nat)
    ensures CountSupporting(s, cap) <= |s|
    ensures CountSupporting(s, cap) == |s| <==> forall o <- s :: o.Supports(cap)
  {
    if s != [] {
      var front := s[..|s| - 1];
      SupportingRunsAreBounded(front, cap);
      assert s == front + [s[|s| - 1]];
    }
  }

  lemma {:induction false} TotalsAreBounded(s: seq<BenchmarkObservation>, cap: nat)
    requires forall o <- s :: o.Supports(cap)
    ensures P1Total(s) >= |s| as real * cap as real
    ensures P1Total(s) <= AverageTotal(s)
  {
    if s != [] {
      var front, last := s[..|s| - 1], s[|s| - 1];
      assert last in s && forall o <- front :: o in s;
      TotalsAreBounded(front, cap);
      assert |s| as real == |front| as real + 1.0;
      assert |s| as real * cap as real == |front| as real * cap as real + cap as real;
    }
  }

  /** A positive cap is granted exactly when at least five ordered runs each reach it. */
  lemma CapNeedsEveryRun(cap: nat, evidence: BenchmarkRunEvidence)
    requires evidence.IsValidated()
    ensures MeasuredFpsCap(RawLatency(Some(cap)), evidence) ==
            (if cap > 0 && |evidence.observations| >= MIN_CAP_AUTHORIZATION_RUNS
                && (forall o <- evidence.observations :: cap as real <= o.p1Fps <= o.averageFps)
             then Some(cap) else None)
  {
    SupportingRunsAreBounded(evidence.observations, cap);
  }

  /** The frame rate a display strategy asks for: a given cap, or the refresh rate less its margin. */
  predicate AsksFor(strategy: FpsCapStrategy, cap: nat) {
    match strategy
    case RawLatency(measuredCap) => measuredCap == Some(cap)
    case Vrr(refreshHz, ceilingMarginHz) => refreshHz == ceilingMarginHz + cap
  }

  /** Exactly the caps of every strategy: nothing is capped at 0, or every one of five runs reaches the asked cap. */
  lemma MeasuredCapIsExact(strategy: FpsCapStrategy, evidence: BenchmarkRunEvidence, cap: nat)
    requires evidence.IsValidated()
    ensures MeasuredFpsCap(strategy, evidence) == Some(cap) <==>
              || (strategy == RawLatency(None) && cap == 0)
              || (AsksFor(strategy, cap) && cap > 0 && |evidence.observations| >= 5
                  && forall o <- evidence.observations :: cap as real <= o.p1Fps <= o.averageFps)
  {
    SupportingRunsAreBounded(evidence.observations, cap);
  }

  lemma AggregateCapIsExact(strategy: FpsCapStrategy, capture: BenchmarkCapture, cap: nat)
    ensures LegacyAggregateFpsCap(strategy, capture) == Some(cap) <==>
              || (strategy == RawLatency(None) && cap == 0)
              || (AsksFor(strategy, cap) && cap > 0 && capture.runs >= 5
                  && capture.averageFps > 0.0 && capture.p1Fps >= cap as real)
  {
  }

  lemma AggregateReachesTheCap(cap: nat, evidence: BenchmarkRunEvidence)
    requires evidence.IsValid() && forall o <- evidence.observations :: o.Supports(cap)
    ensures evidence.Aggregate().p1Fps >= cap as real
    ensures evidence.Aggregate().p1Fps <= evidence.Aggregate().averageFps
  {
    var s := evidence.observations;
    var runs := |s| as real;
    TotalsAreBounded(s, cap);
    DivisionKeepsOrder(cap as real, P1Total(s), AverageTotal(s), runs);
    RoundIsMonotone(cap as real, P1Total(s) / runs);
    RoundIsMonotone(P1Total(s) / runs, AverageTotal(s) / runs);
    RoundKeepsWholeNumbers(cap);
  }

  lemma DivisionKeepsOrder(c: real, x: real, y: real, n: real)
    requires n > 0.0 && n * c <= x <= y
    ensures c <= x / n <= y / n
  {
    assert x / n * n == x && y / n * n == y;
    Cancel(c, x / n, n);
    Cancel(x / n, y / n, n);
  }

  lemma Cancel(a: real, b: real, n: real)
    requires n > 0.0 && a * n <= b * n
    ensures a <= b
  {
    assert (b - a) * n >= 0.0;
  }

  /**
   * A grant from per-run evidence refines the aggregate check: every smaller
   * positive cap is granted too, the rounded aggregate is a complete capture that
   * still reaches the cap, and the aggregate check grants the same cap.
   */
  lemma MeasuredCapRefinesAggregateCap(strategy: FpsCapStrategy, evidence: BenchmarkRunEvidence, cap: nat)
    requires evidence.IsValidated() && MeasuredFpsCap(strategy, evidence) == Some(cap) && cap > 0
    ensures forall smaller: nat :: 0 < smaller <= cap ==> MeasuredFpsCap(RawLatency(Some(smaller)), evidence) == Some(smaller)
    ensures cap as real <= evidence.Aggregate().p1Fps <= evidence.Aggregate().averageFps
    ensures CaptureIsComplete(evidence.Aggregate())
    ensures LegacyAggregateFpsCap(strategy, evidence.Aggregate()) == Some(cap)
  {
    CapNeedsEveryRun(cap, evidence);
    SupportingRunsAreBounded(evidence.observations, cap);
    AggregateReachesTheCap(cap, evidence);
    forall smaller: nat | 0 < smaller <= cap
      ensures MeasuredFpsCap(RawLatency(Some(smaller)), evidence) == Some(smaller)
    {
      CapNeedsEveryRun(smaller, evidence);
    }
  }

  function FourSlowOneFast(slow: BenchmarkObservation, fast: BenchmarkObservation): seq<BenchmarkObservation> {
    [slow] + [slow] + [slow] + [slow] + [fast]
  }

  lemma FourSlowOneFastTotals(slow: BenchmarkObservation, fast: BenchmarkObservation)
    ensures P1Total(FourSlowOneFast(slow, fast)) == 4.0 * slow.p1Fps + fast.p1Fps
    ensures AverageTotal(FourSlowOneFast(slow, fast)) == 4.0 * slow.averageFps + fast.averageFps
  {
    TotalsExtend([], slow);
    assert [] + [slow] == [slow];
    TotalsExtend([slow], slow);
    TotalsExtend([slow] + [slow], slow);
    TotalsExtend([slow] + [slow] + [slow], slow);
    TotalsExtend([slow] + [slow] + [slow] + [slow], fast);
  }

  /** The aggregate check alone is weaker: one fast run hides four that fail. */
  lemma AggregateHidesFailingRuns()
    ensures var evidence := BenchmarkRunEvidence(1, FourSlowOneFast(BenchmarkObservation(600.0, 100.0),
                                                                    BenchmarkObservation(600.0, 600.0)));
            && evidence.IsValidated()
            && MeasuredFpsCap(RawLatency(Some(180)), evidence) == None
            && LegacyAggregateFpsCap(RawLatency(Some(180)), evidence.Aggregate()) == Some(180)
  {
    var slow, fast := BenchmarkObservation(600.0, 100.0), BenchmarkObservation(600.0, 600.0);
    var s := FourSlowOneFast(slow, fast);
    FourSlowOneFastTotals(slow, fast);
    RoundKeepsWholeNumbers(200);
    RoundKeepsWholeNumbers(600);
    assert |s| == 5 && s[0] == slow;
    assert P1Total(s) / 5.0 == 200.0 && AverageTotal(s) / 5.0 == 600.0;
    assert forall o <- s :: o == slow || o == fast;
    CapNeedsEveryRun(180, BenchmarkRunEvidence(1, s));
    assert slow in s;
  }

  lemma TotalsExtend(s: seq<BenchmarkObservation>, o: BenchmarkObservation)
    ensures P1Total(s + [o]) == P1Total(s) + o.p1Fps
    ensures AverageTotal(s + [o]) == AverageTotal(s) + o.averageFps
  {
    assert (s + [o])[..|s|] == s;
  }
}
