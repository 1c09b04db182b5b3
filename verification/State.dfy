/** Durable state and benchmark records, with their validators. */
module StateModel {
  import opened Wrappers
  import opened Text
  import opened Policy
  import opened Fps
  import opened Handoff

  const MAX_BENCHMARK_HISTORY := 200
  const FINAL_BENCHMARK_SCHEMA_VERSION := 1
  const FINAL_BENCHMARK_LABEL := "After all optimizations"
  const BASELINE_BENCHMARK_LABEL := "Baseline (before optimizations)"
  const MAX_PAGEFILE_MB := 1048576

  /** `yyyy-mm-dd hh:mm:ss` by position. */
  predicate ValidCaptureTimestamp(value: string) {
    && |value| == 19
    && forall i :: 0 <= i < 19 ==>
         if i == 4 || i == 7 then value[i] == '-'
         else if i == 10 then value[i] == ' '
         else if i == 13 || i == 16 then value[i] == ':'
         else IsDigit(value[i])
  }

  datatype BenchmarkRecord = BenchmarkRecord(
    timestamp: string,
    avgFps: real,
    p1Fps: real,
    recordLabel: string,
    runs: nat,
    runEvidence: Option<BenchmarkRunEvidence>,
    receiptId: Option<string>,
    transactionId: Option<string>)
  {
    function Capture(): BenchmarkCapture {
      BenchmarkCapture(avgFps, p1Fps, runs)
    }

    predicate EvidenceIsValid() {
      runEvidence.Some? ==> runEvidence.value.IsValidAgainst(Capture())
    }

    predicate IsValid() {
      && avgFps >= 0.0 && p1Fps >= 0.0
      && runs != 0 && recordLabel != ""
      && ValidCaptureTimestamp(timestamp)
      && EvidenceIsValid()
    }
  }

  datatype FinalBenchmarkReceipt = FinalBenchmarkReceipt(
    schemaVersion: nat,
    receiptId: string,
    transactionId: string,
    capturedUtc: string,
    avgFps: real,
    p1Fps: real,
    runs: nat,
    runEvidence: Option<BenchmarkRunEvidence>,
    fpsCap: nat,
    receiptLabel: string)
  {
    function Capture(): BenchmarkCapture {
      BenchmarkCapture(avgFps, p1Fps, runs)
    }

    predicate IsValid() {
      && schemaVersion == FINAL_BENCHMARK_SCHEMA_VERSION
      && receiptId != transactionId
      && ValidCaptureTimestamp(capturedUtc)
      && CaptureIsComplete(Capture())
      && (runEvidence.Some? ==> runEvidence.value.IsValidAgainst(Capture()))
      && receiptLabel == FINAL_BENCHMARK_LABEL
    }

    predicate IsValidForTransaction(t: RebootTransaction) {
      IsValid() && t.transactionId == Some(transactionId)
    }

    predicate MatchesHistoryRecord(r: BenchmarkRecord) {
      && r.timestamp == capturedUtc
      && r.avgFps == avgFps && r.p1Fps == p1Fps
      && r.recordLabel == receiptLabel && r.runs == runs
      && r.runEvidence == runEvidence
      && r.receiptId == Some(receiptId) && r.transactionId == Some(transactionId)
    }

    /** The record names this receipt or its reboot transaction. */
    predicate SharesIdentityWith(r: BenchmarkRecord) {
      r.receiptId == Some(receiptId) || r.transactionId == Some(transactionId)
    }
  }

  /** `malformed…` stand for undecodable values kept among the unknown fields. */
  datatype State = State(
    profile: Profile,
    fpsCap: nat,
    avgFps: real,
    p1Fps: Option<real>,
    baselineAvg: real,
    baselineP1: Option<real>,
    capDate: Option<string>,
    gpuInput: Option<string>,
    pagefileMb: nat,
    phase1SafeModeReady: bool,
    transaction: Option<RebootTransaction>,
    finalBenchmark: Option<FinalBenchmarkReceipt>,
    malformedTransaction: bool,
    malformedFinalBenchmark: bool)
  {
    predicate BaselineIsCoherent() {
      match baselineP1
      case Some(p1) => baselineAvg > 0.0 && 0.0 < p1 <= baselineAvg
      case None => baselineAvg == 0.0
    }

    predicate FinalBenchmarkIsCoherent() {
      finalBenchmark.Some? ==>
        && transaction.Some?
        && (transaction.value.IsAuthorizedAt(PhaseThreeArmed) || transaction.value.IsAuthorizedAt(PhaseThreeComplete))
        && finalBenchmark.value.IsValidForTransaction(transaction.value)
    }

    predicate IsValid() {
      && !malformedTransaction
      && !malformedFinalBenchmark
      && (gpuInput.Some? ==> gpuInput.value in {"1", "2", "3", "4"})
      && pagefileMb <= MAX_PAGEFILE_MB
      && BaselineIsCoherent()
      && FinalBenchmarkIsCoherent()
    }
  }

  /** Retention: the newest 200 records. */
  function Retained(history: seq<BenchmarkRecord>): seq<BenchmarkRecord> {
    if |history| > MAX_BENCHMARK_HISTORY then history[|history| - MAX_BENCHMARK_HISTORY..] else history
  }

  function Appended(history: seq<BenchmarkRecord>, r: BenchmarkRecord): seq<BenchmarkRecord> {
    Retained(history + [r])
  }

  predicate HistoryIsValid(history: seq<BenchmarkRecord>) {
    |history| <= MAX_BENCHMARK_HISTORY && forall r <- history :: r.IsValid()
  }

  predicate RunEvidenceIsValid(history: seq<BenchmarkRecord>) {
    forall r <- history :: r.EvidenceIsValid()
  }

  /** Appending keeps a suffix of the history, of the bounded length, with the new record last. */
  lemma AppendedKeepsASuffix(history: seq<BenchmarkRecord>, r: BenchmarkRecord)
    ensures var k := |history| + 1 - |Appended(history, r)|;
            && 0 <= k <= |history|
            && Appended(history, r) == history[k..] + [r]
            && (k == 0 <==> |history| < MAX_BENCHMARK_HISTORY)
            && |Appended(history, r)| <= MAX_BENCHMARK_HISTORY
            && (|history| == MAX_BENCHMARK_HISTORY ==> k == 1)
  {
    var k := |history| + 1 - |Appended(history, r)|;
    assert (history + [r])[k..] == history[k..] + [r];
  }

  lemma AppendedHistoryIsValid(history: seq<BenchmarkRecord>, record: BenchmarkRecord)
    requires HistoryIsValid(history) && record.IsValid()
    ensures HistoryIsValid(Appended(history, record))
  {
    AppendedKeepsASuffix(history, record);
    forall r | r in Appended(history, record) ensures r.IsValid() {
      assert r in history || r == record;
    }
  }
}
