/** What the benchmark commits and their readbacks ask for and write, field by field. */
module CommitMeaning {
  import opened Wrappers
  import opened Catalog
  import opened ProgressModel
  import opened Fps
  import opened Handoff
  import opened StateModel
  import opened Benchmark
  import opened Baseline

  // ---------------------------------------------------------------------
  // The parts
  // ---------------------------------------------------------------------

  predicate AreDigits(s: string) {
    forall c <- s :: '0' <= c <= '9'
  }

  /** `yyyy-mm-dd hh:mm:ss` in digits. */
  predicate IsTimestamp(v: string) {
    && |v| == 19 && v[4] == '-' && v[7] == '-' && v[10] == ' ' && v[13] == ':' && v[16] == ':'
    && AreDigits(v[..4]) && AreDigits(v[5..7]) && AreDigits(v[8..10])
    && AreDigits(v[11..13]) && AreDigits(v[14..16]) && AreDigits(v[17..])
  }

  predicate IsComplete(capture: BenchmarkCapture) {
    capture.averageFps > 0.0 && 0.0 < capture.p1Fps <= capture.averageFps && capture.runs > 0
  }

  /** One to a thousand measured runs whose rounded means are the capture. */
  predicate Measures(evidence: BenchmarkRunEvidence, capture: BenchmarkCapture) {
    && evidence.schemaVersion == 1 && 1 <= |evidence.observations| <= 1000
    && (forall o <- evidence.observations :: o.averageFps > 0.0 && o.p1Fps >= 0.0)
    && evidence.Aggregate() == capture
  }

  predicate IsReceipt(receipt: FinalBenchmarkReceipt) {
    && receipt.schemaVersion == 1 && receipt.receiptLabel == "After all optimizations"
    && receipt.receiptId != receipt.transactionId && IsTimestamp(receipt.capturedUtc)
    && IsComplete(receipt.Capture())
    && (receipt.runEvidence.Some? ==> Measures(receipt.runEvidence.value, receipt.Capture()))
  }

  /** A receipt stands only with the bound transaction it names, at one of the last two stages. */
  predicate IsSound(s: State) {
    && !s.malformedTransaction && !s.malformedFinalBenchmark
    && (s.gpuInput.None? || s.gpuInput == Some("1") || s.gpuInput == Some("2") || s.gpuInput == Some("3")
        || s.gpuInput == Some("4"))
    && s.pagefileMb <= 1048576
    && (if s.baselineP1.Some? then 0.0 < s.baselineP1.value <= s.baselineAvg else s.baselineAvg == 0.0)
    && (s.finalBenchmark.Some? ==>
          && IsReceipt(s.finalBenchmark.value) && s.transaction.Some?
          && s.transaction.value.transactionId == Some(s.finalBenchmark.value.transactionId)
          && (IsBoundAt(s.transaction.value, PhaseThreeArmed) || IsBoundAt(s.transaction.value, PhaseThreeComplete)))
  }

  lemma TimestampMeans(v: string)
    ensures ValidCaptureTimestamp(v) <==> IsTimestamp(v)
  {
    if IsTimestamp(v) {
      forall i | 0 <= i < 19 && i !in {4, 7, 10, 13, 16} ensures '0' <= v[i] <= '9' {
        assert v[i] in v[..4] || v[i] in v[5..7] || v[i] in v[8..10] || v[i] in v[11..13] || v[i] in v[14..16] || v[i] in v[17..];
      }
    }
  }

  lemma ReceiptMeans(receipt: FinalBenchmarkReceipt)
    ensures receipt.IsValid() <==> IsReceipt(receipt)
  {
    TimestampMeans(receipt.capturedUtc);
  }

  lemma StateMeans(s: State)
    ensures s.IsValid() <==> IsSound(s)
  {
    if s.finalBenchmark.Some? {
      ReceiptMeans(s.finalBenchmark.value);
    }
  }

  predicate HistoryIsMeasured(history: seq<BenchmarkRecord>) {
    forall r <- history :: r.runEvidence.Some? ==> Measures(r.runEvidence.value, r.Capture())
  }

  lemma HistoryMeans(history: seq<BenchmarkRecord>)
    ensures RunEvidenceIsValid(history) <==> HistoryIsMeasured(history)
  {
  }

  // ---------------------------------------------------------------------
  // The commit
  // ---------------------------------------------------------------------

  /**
   * The cap a capture may set: with runs, what the strategy asks for if at least five
   * ordered runs all reach it; a retry of an aggregate by the aggregate; no cap always.
   */
  predicate MaySet(strategy: FpsCapStrategy, request: FinalRequest, cap: nat) {
    match request.runEvidence
    case Some(evidence) =>
      && Measures(evidence, request.capture)
      && ((strategy == RawLatency(None) && cap == 0)
          || (AsksFor(strategy, cap) && cap > 0 && |evidence.observations| >= 5
              && forall o <- evidence.observations :: cap as real <= o.p1Fps <= o.averageFps))
    case None =>
      || (strategy == RawLatency(None) && cap == 0)
      || (request.legacyRetry && AsksFor(strategy, cap) && cap > 0 && request.capture.runs >= 5
          && request.capture.p1Fps >= cap as real)
  }

  lemma CapMeans(config: Config, request: FinalRequest, cap: nat)
    requires IsComplete(request.capture)
    ensures GrantedCap(config, request) == Ok(cap) <==> MaySet(config.strategy, request, cap)
  {
    match request.runEvidence
    case Some(evidence) =>
      if Measures(evidence, request.capture) {
        MeasuredCapIsExact(config.strategy, evidence, cap);
      }
    case None =>
      AggregateCapIsExact(config.strategy, request.capture, cap);
  }

  predicate PhaseThreeIsOpenFor(p: Progress) {
    && p.IsCompleted(StepId(Three, 1)) && !p.IsCompleted(StepId(Three, 13)) && !p.IsSkipped(StepId(Three, 13))
    && forall n: U8 :: 2 <= n <= 12 ==> p.IsCompleted(StepId(Three, n)) || p.IsSkipped(StepId(Three, n))
  }

  /** Nothing recorded the receipt or the transaction before. */
  predicate IsNew(history: seq<BenchmarkRecord>, receiptId: string, transactionId: string) {
    forall r <- history :: r.receiptId != Some(receiptId) && r.transactionId != Some(transactionId)
  }

  ghost predicate MayCommit(ready: bool, config: Config, s: State, history: seq<BenchmarkRecord>, request: FinalRequest) {
    && config.valid && IsSound(s) && s.finalBenchmark.None? && ready && HistoryIsMeasured(history)
    && s.transaction.Some? && IsBoundAt(s.transaction.value, PhaseThreeArmed)
    && var transactionId := s.transaction.value.transactionId.value;
       && IsNew(history, request.receiptId, transactionId) && request.receiptId != transactionId
       && IsTimestamp(request.capturedUtc) && IsComplete(request.capture)
       && exists cap: nat :: MaySet(config.strategy, request, cap)
  }

  lemma RefusalMeans(installed: bool, ready: bool, config: Config, s: State, history: seq<BenchmarkRecord>, request: FinalRequest)
    ensures RefusalGiven(installed, ready, config, s, history, request).None? <==>
              && config.valid && IsSound(s) && s.finalBenchmark.None? && installed && ready && HistoryIsMeasured(history)
              && s.transaction.Some? && IsBoundAt(s.transaction.value, PhaseThreeArmed)
              && IsNew(history, request.receiptId, s.transaction.value.transactionId.value)
  {
    StateMeans(s);
    HistoryMeans(history);
  }

  /** The state the commit aims at is sound whenever the one before it was. */
  lemma NextStateIsSound(s: State, receipt: FinalBenchmarkReceipt)
    requires IsSound(s) && s.transaction.Some? && IsBoundAt(s.transaction.value, PhaseThreeArmed) && IsReceipt(receipt)
    requires s.transaction.value.transactionId == Some(receipt.transactionId)
    ensures IsSound(StateWith(s, receipt))
  {
  }

  lemma ReceiptForMeans(request: FinalRequest, transactionId: string, cap: nat)
    ensures IsReceipt(ReceiptFor(request, transactionId, cap)) <==>
              && request.receiptId != transactionId && IsTimestamp(request.capturedUtc) && IsComplete(request.capture)
              && (request.runEvidence.Some? ==> Measures(request.runEvidence.value, request.capture))
  {
  }

  lemma CommitMeans(ready: bool, refusal: Option<FinalError>, config: Config, s: State, p: Progress, history: seq<BenchmarkRecord>,
                    request: FinalRequest)
    requires refusal.None? <==>
               && config.valid && IsSound(s) && s.finalBenchmark.None? && ready && HistoryIsMeasured(history)
               && s.transaction.Some? && IsBoundAt(s.transaction.value, PhaseThreeArmed)
               && IsNew(history, request.receiptId, s.transaction.value.transactionId.value)
    ensures CommitUnless(refusal, config, s, p, history, request).Ok? <==> MayCommit(ready, config, s, history, request)
  {
    if refusal.None? {
      var granted := GrantedCap(config, request);
      var transactionId := s.transaction.value.transactionId.value;
      if granted.Ok? {
        var receipt := ReceiptFor(request, transactionId, granted.value);
        ReceiptMeans(receipt);
        ReceiptForMeans(request, transactionId, granted.value);
        StateMeans(StateWith(s, receipt));
        if IsReceipt(receipt) {
          NextStateIsSound(s, receipt);
          CapMeans(config, request, granted.value);
        }
      }
      if MayCommit(ready, config, s, history, request) {
        var cap: nat :| MaySet(config.strategy, request, cap);
        CapMeans(config, request, cap);
      }
    }
  }

  /**
   * A final benchmark is committed exactly when, for every input: the configuration and
   * the state are sound and hold no receipt, Phase 3 is worked off but for its last
   * step, the history is measured and knows neither identity, the transaction is
   * bound at phase3Armed, and the capture is complete and may set some cap.
   */
  lemma FinalCommitExactly(config: Config, s: State, p: Progress, history: seq<BenchmarkRecord>, request: FinalRequest)
    ensures FinalCommit(config, s, p, history, request).Ok? <==>
              MayCommit(PhaseThreeIsOpenFor(p), config, s, history, request)
  {
    ReadinessMeans(p);
    RefusalMeans(p.IsCompleted(PHASE_THREE_DRIVER_INSTALL), FinalStageIsReady(p), config, s, history, request);
    CommitMeans(PhaseThreeIsOpenFor(p), Refusal(config, s, p, history, request), config, s, p, history, request);
  }

  lemma WritesMeans(config: Config, s: State, p: Progress, history: seq<BenchmarkRecord>, request: FinalRequest)
    requires s.transaction.Some? && s.transaction.value.transactionId.Some?
    requires CommitUnless(None, config, s, p, history, request).Ok? && IsComplete(request.capture)
    ensures var c := CommitUnless(None, config, s, p, history, request).value;
            && MaySet(config.strategy, request, c.receipt.fpsCap)
            && c.receipt == FinalBenchmarkReceipt(
                 1, request.receiptId, s.transaction.value.transactionId.value, request.capturedUtc, request.capture.averageFps,
                 request.capture.p1Fps, request.capture.runs, request.runEvidence, c.receipt.fpsCap, "After all optimizations")
            && c.state == State(
                 s.profile, c.receipt.fpsCap, request.capture.averageFps, Some(request.capture.p1Fps), s.baselineAvg,
                 s.baselineP1, Some(request.capturedUtc), s.gpuInput, s.pagefileMb, s.phase1SafeModeReady, c.state.transaction,
                 Some(c.receipt), s.malformedTransaction, s.malformedFinalBenchmark)
            && c.state.transaction == Some(RebootTransaction(
                 s.transaction.value.schemaVersion, s.transaction.value.transactionId, s.transaction.value.initiator,
                 PhaseThreeComplete, s.transaction.value.runtime, Some(request.capturedUtc)))
            && c.progress == Completing(p, StepId(Three, 13), request.capturedUtc)
            && c.history == Appended(history, BenchmarkRecord(
                 request.capturedUtc, request.capture.averageFps, request.capture.p1Fps, "After all optimizations",
                 request.capture.runs, request.runEvidence, Some(request.receiptId), s.transaction.value.transactionId))
  {
    CapMeans(config, request, GrantedCap(config, request).value);
  }

  /** What it then writes, every field of the three files and the receipt. */
  lemma FinalCommitWrites(config: Config, s: State, p: Progress, history: seq<BenchmarkRecord>, request: FinalRequest)
    requires FinalCommit(config, s, p, history, request).Ok?
    ensures s.transaction.Some? && s.transaction.value.transactionId.Some?
    ensures var c := FinalCommit(config, s, p, history, request).value;
            && MaySet(config.strategy, request, c.receipt.fpsCap)
            && c.receipt == FinalBenchmarkReceipt(
                 1, request.receiptId, s.transaction.value.transactionId.value, request.capturedUtc, request.capture.averageFps,
                 request.capture.p1Fps, request.capture.runs, request.runEvidence, c.receipt.fpsCap, "After all optimizations")
            && c.state == State(
                 s.profile, c.receipt.fpsCap, request.capture.averageFps, Some(request.capture.p1Fps), s.baselineAvg,
                 s.baselineP1, Some(request.capturedUtc), s.gpuInput, s.pagefileMb, s.phase1SafeModeReady, c.state.transaction,
                 Some(c.receipt), s.malformedTransaction, s.malformedFinalBenchmark)
            && c.state.transaction == Some(RebootTransaction(
                 s.transaction.value.schemaVersion, s.transaction.value.transactionId, s.transaction.value.initiator,
                 PhaseThreeComplete, s.transaction.value.runtime, Some(request.capturedUtc)))
            && c.progress == Completing(p, StepId(Three, 13), request.capturedUtc)
            && c.history == Appended(history, BenchmarkRecord(
                 request.capturedUtc, request.capture.averageFps, request.capture.p1Fps, "After all optimizations",
                 request.capture.runs, request.runEvidence, Some(request.receiptId), s.transaction.value.transactionId))
  {
    FinalCommitExactly(config, s, p, history, request);
    WritesMeans(config, s, p, history, request);
  }

  // ---------------------------------------------------------------------
  // The readback
  // ---------------------------------------------------------------------

  /** Exactly one record names the receipt or its transaction, and it is the receipt's. */
  predicate IsRecordedOnce(receipt: FinalBenchmarkReceipt, history: seq<BenchmarkRecord>) {
    exists i :: 0 <= i < |history| && IsTheRecord(receipt, history, i)
  }

  predicate IsTheRecord(receipt: FinalBenchmarkReceipt, history: seq<BenchmarkRecord>, i: nat)
    requires i < |history|
  {
    && history[i] == BenchmarkRecord(receipt.capturedUtc, receipt.avgFps, receipt.p1Fps, receipt.receiptLabel, receipt.runs,
                                     receipt.runEvidence, Some(receipt.receiptId), Some(receipt.transactionId))
    && forall j :: 0 <= j < |history| && j != i ==>
         history[j].receiptId != Some(receipt.receiptId) && history[j].transactionId != Some(receipt.transactionId)
  }

  /** Phase 3 and its last step are finished, and the progress holds the time of the receipt. */
  predicate IsFinished(p: Progress, capturedUtc: string) {
    && p.IsCompleted(StepId(Three, 1)) && p.IsCompleted(StepId(Three, 13)) && !p.IsSkipped(StepId(Three, 13))
    && (forall n: U8 :: 2 <= n <= 12 ==> p.IsCompleted(StepId(Three, n)) || p.IsSkipped(StepId(Three, n)))
    && "3-13" in p.timestamps && p.timestamps["3-13"] == capturedUtc
  }

  lemma {:induction false} OnlyOneShares(receipt: FinalBenchmarkReceipt, history: seq<BenchmarkRecord>, i: nat)
    requires i < |history| && IsTheRecord(receipt, history, i)
    ensures SharingIdentity(receipt, history) == [history[i]]
  {
    var front, last := history[..|history| - 1], history[|history| - 1];
    if i == |history| - 1 {
      NoIdentityShared(receipt, front);
    } else {
      OnlyOneShares(receipt, front, i);
    }
  }

  lemma {:induction false} OneSharingIsAt(receipt: FinalBenchmarkReceipt, history: seq<BenchmarkRecord>) returns (i: nat)
    requires |SharingIdentity(receipt, history)| == 1
    ensures i < |history| && history[i] == SharingIdentity(receipt, history)[0]
    ensures forall j :: 0 <= j < |history| && j != i ==> !receipt.SharesIdentityWith(history[j])
  {
    var front, last := history[..|history| - 1], history[|history| - 1];
    if receipt.SharesIdentityWith(last) {
      i := |history| - 1;
      SharingIdentityMembers(receipt, front);
      forall j | 0 <= j < |front| ensures !receipt.SharesIdentityWith(history[j]) {
        assert history[j] in front;
        assert SharingIdentity(receipt, front) == [];
      }
    } else {
      i := OneSharingIsAt(receipt, front);
    }
  }

  lemma RecordedOnceMeans(receipt: FinalBenchmarkReceipt, history: seq<BenchmarkRecord>)
    ensures var matching := SharingIdentity(receipt, history);
            |matching| == 1 && receipt.MatchesHistoryRecord(matching[0]) <==> IsRecordedOnce(receipt, history)
  {
    var matching := SharingIdentity(receipt, history);
    if |matching| == 1 && receipt.MatchesHistoryRecord(matching[0]) {
      var i := OneSharingIsAt(receipt, history);
      assert IsTheRecord(receipt, history, i);
    }
    if IsRecordedOnce(receipt, history) {
      var i: nat :| i < |history| && IsTheRecord(receipt, history, i);
      OnlyOneShares(receipt, history, i);
    }
  }

  lemma ReadbackMeansGiven(unresolved: bool, s: State, p: Progress, history: seq<BenchmarkRecord>, receipt: FinalBenchmarkReceipt)
    ensures ReadbackGiven(unresolved, s, p, history) == Ok(receipt) <==>
              && IsSound(s) && s.finalBenchmark == Some(receipt) && IsBoundAt(s.transaction.value, PhaseThreeComplete)
              && FpsStateMatches(s, receipt) && ProgressIsComplete(p, receipt) && !unresolved
              && HistoryIsMeasured(history) && IsRecordedOnce(receipt, history)
  {
    StateMeans(s);
    HistoryMeans(history);
    if s.finalBenchmark.Some? {
      ReceiptMeans(s.finalBenchmark.value);
      RecordedOnceMeans(s.finalBenchmark.value, history);
    }
  }

  /**
   * A bundle is read back exactly when, for every input: its state is sound and holds
   * the receipt and its numbers under a transaction bound at phase3Complete, Phase 3
   * is finished at the receipt's time, and the history is measured and holds the
   * receipt's record as the only one of its identities.
   */
  lemma ReadbackExactly(s: State, p: Progress, history: seq<BenchmarkRecord>, receipt: FinalBenchmarkReceipt)
    ensures ValidatePersistedFinalBenchmark(s, p, history) == Ok(receipt) <==>
              && IsSound(s) && s.finalBenchmark == Some(receipt)
              && IsBoundAt(s.transaction.value, PhaseThreeComplete)
              && s.fpsCap == receipt.fpsCap && s.avgFps == receipt.avgFps && s.p1Fps == Some(receipt.p1Fps)
              && s.capDate == Some(receipt.capturedUtc)
              && IsFinished(p, receipt.capturedUtc)
              && HistoryIsMeasured(history) && IsRecordedOnce(receipt, history)
  {
    ResolvedPhaseThreeMeans(p);
    ReadbackMeansGiven(HasUnresolvedPhaseThreeEngineSteps(p), s, p, history, receipt);
  }

  // ---------------------------------------------------------------------
  // The baseline
  // ---------------------------------------------------------------------

  predicate HistoryIsSound(history: seq<BenchmarkRecord>) {
    && |history| <= 200
    && forall r <- history ::
         && r.avgFps >= 0.0 && r.p1Fps >= 0.0 && r.runs > 0 && r.recordLabel != "" && IsTimestamp(r.timestamp)
         && (r.runEvidence.Some? ==> Measures(r.runEvidence.value, r.Capture()))
  }

  lemma SoundHistoryMeans(history: seq<BenchmarkRecord>)
    ensures HistoryIsValid(history) <==> HistoryIsSound(history)
  {
    forall r | r in history ensures ValidCaptureTimestamp(r.timestamp) <==> IsTimestamp(r.timestamp) {
      TimestampMeans(r.timestamp);
    }
  }

  predicate IsBaseline(r: BenchmarkRecord) {
    r.recordLabel == "Baseline (before optimizations)"
  }

  predicate HoldsOneBaselineAtMost(history: seq<BenchmarkRecord>) {
    forall i, j :: 0 <= i < j < |history| ==> !IsBaseline(history[i]) || !IsBaseline(history[j])
  }

  lemma {:induction false} BaselineRecordsMean(history: seq<BenchmarkRecord>)
    ensures forall r :: r in BaselineRecords(history) <==> r in history && IsBaseline(r)
    ensures |BaselineRecords(history)| <= 1 <==> HoldsOneBaselineAtMost(history)
  {
    if history != [] {
      var front, last := history[..|history| - 1], history[|history| - 1];
      BaselineRecordsMean(front);
      assert history == front + [last];
      if IsBaseline(last) && BaselineRecords(front) != [] {
        assert BaselineRecords(front)[0] in front;
        var i :| 0 <= i < |front| && front[i] == BaselineRecords(front)[0];
        assert IsBaseline(history[i]) && i < |history| - 1;
      }
      if !HoldsOneBaselineAtMost(history) && HoldsOneBaselineAtMost(front) {
        var i, j :| 0 <= i < j < |history| && IsBaseline(history[i]) && IsBaseline(history[j]);
        assert front[i] in BaselineRecords(front);
      }
    }
  }

  /** The record is a baseline of this capture; evidence it holds is the capture's. */
  predicate IsBaselineOf(r: BenchmarkRecord, capture: BenchmarkCapture, evidence: Option<BenchmarkRunEvidence>) {
    && r.avgFps == capture.averageFps && r.p1Fps == capture.p1Fps && r.runs == capture.runs
    && r.receiptId.None? && r.transactionId.None?
    && (r.runEvidence.Some? ==> r.runEvidence == evidence)
  }

  /** What is on disk is a prefix of this commit's writes, in their order: history, state, progress. */
  predicate IsBaselinePrefix(s: State, p: Progress, history: seq<BenchmarkRecord>, capture: BenchmarkCapture,
                             evidence: Option<BenchmarkRunEvidence>)
  {
    && HoldsOneBaselineAtMost(history)
    && (forall r <- history :: IsBaseline(r) ==> IsBaselineOf(r, capture, evidence))
    && (s.baselineP1.Some? ==>
          s.baselineAvg == capture.averageFps && s.baselineP1.value == capture.p1Fps && exists r <- history :: IsBaseline(r))
    && !p.IsSkipped(StepId(One, 17))
    && (p.IsCompleted(StepId(One, 17)) ==>
          && s.baselineP1.Some? && "1-17" in p.timestamps
          && exists r <- history :: IsBaseline(r) && p.timestamps["1-17"] == r.timestamp)
  }

  predicate HoldsNumbersOf(s: State, r: BenchmarkRecord) {
    && IsBaseline(r) && r.avgFps == s.baselineAvg && s.baselineP1 == Some(r.p1Fps) && r.runs > 0
    && r.receiptId.None? && r.transactionId.None?
  }

  predicate IsTheBaseline(s: State, history: seq<BenchmarkRecord>, i: nat)
    requires i < |history|
  {
    && HoldsNumbersOf(s, history[i])
    && forall j :: 0 <= j < |history| && j != i ==> !HoldsNumbersOf(s, history[j])
  }

  lemma {:induction false} NoneIsCoherent(s: State, history: seq<BenchmarkRecord>)
    requires s.baselineP1.Some?
    ensures CoherentRecords(s, history) == [] <==> forall j :: 0 <= j < |history| ==> !HoldsNumbersOf(s, history[j])
  {
    if history != [] {
      NoneIsCoherent(s, history[..|history| - 1]);
    }
  }

  lemma {:induction false} CoherentIsAt(s: State, history: seq<BenchmarkRecord>) returns (i: nat)
    requires s.baselineP1.Some? && |CoherentRecords(s, history)| == 1
    ensures i < |history| && history[i] == CoherentRecords(s, history)[0] && IsTheBaseline(s, history, i)
  {
    var front, last := history[..|history| - 1], history[|history| - 1];
    if HoldsNumbersOf(s, last) {
      i := |history| - 1;
      NoneIsCoherent(s, front);
      assert forall j :: 0 <= j < |front| ==> front[j] == history[j];
    } else {
      i := CoherentIsAt(s, front);
    }
  }

  lemma {:induction false} OneIsCoherent(s: State, history: seq<BenchmarkRecord>, i: nat)
    requires i < |history| && IsTheBaseline(s, history, i)
    ensures CoherentRecords(s, history) == [history[i]]
  {
    var front, last := history[..|history| - 1], history[|history| - 1];
    if i == |history| - 1 {
      NoneIsCoherent(s, front);
      assert forall j :: 0 <= j < |front| ==> front[j] == history[j];
    } else {
      assert IsTheBaseline(s, front, i);
      OneIsCoherent(s, front, i);
    }
  }

  /** A soundly stored baseline is read back exactly as the one record of its numbers at its time. */
  lemma BaselineReadbackExactly(s: State, p: Progress, history: seq<BenchmarkRecord>, record: BenchmarkRecord)
    ensures ValidatePersistedBaseline(s, p, history) == Ok(record) <==>
              && IsSound(s) && s.baselineP1.Some? && HistoryIsSound(history)
              && p.IsCompleted(StepId(One, 17)) && !p.IsSkipped(StepId(One, 17))
              && "1-17" in p.timestamps && p.timestamps["1-17"] == record.timestamp
              && exists i :: 0 <= i < |history| && history[i] == record && IsTheBaseline(s, history, i)
  {
    StateMeans(s);
    SoundHistoryMeans(history);
    if s.baselineP1.Some? {
      if |CoherentRecords(s, history)| == 1 {
        var i := CoherentIsAt(s, history);
      }
      if i: nat :| i < |history| && history[i] == record && IsTheBaseline(s, history, i) {
        OneIsCoherent(s, history, i);
      }
    }
  }

  /** A finished prefix is read back, and only a finished one at its own time is. */
  lemma FinishedPrefixReadsBack(s: State, p: Progress, history: seq<BenchmarkRecord>, capture: BenchmarkCapture,
                                evidence: Option<BenchmarkRunEvidence>)
    requires IsSound(s) && HistoryIsSound(history) && IsComplete(capture)
    requires HoldsOneBaselineAtMost(history) && (forall r <- history :: IsBaseline(r) ==> IsBaselineOf(r, capture, evidence))
    requires s.baselineAvg == capture.averageFps && s.baselineP1 == Some(capture.p1Fps)
    requires p.IsCompleted(StepId(One, 17)) && !p.IsSkipped(StepId(One, 17))
    ensures ValidatePersistedBaseline(s, p, history).Ok? <==>
              && "1-17" in p.timestamps
              && exists r <- history :: IsBaseline(r) && p.timestamps["1-17"] == r.timestamp
  {
    if ValidatePersistedBaseline(s, p, history).Ok? {
      BaselineReadbackExactly(s, p, history, ValidatePersistedBaseline(s, p, history).value);
    }
    if "1-17" in p.timestamps {
      if r :| r in history && IsBaseline(r) && p.timestamps["1-17"] == r.timestamp {
        var i: nat :| i < |history| && history[i] == r;
        assert IsTheBaseline(s, history, i);
        BaselineReadbackExactly(s, p, history, r);
      }
    }
  }

  lemma RecordsOfPrefix(history: seq<BenchmarkRecord>, capture: BenchmarkCapture, evidence: Option<BenchmarkRunEvidence>)
    ensures |BaselineRecords(history)| <= 1 <==> HoldsOneBaselineAtMost(history)
    ensures BaselineRecords(history) != [] <==> exists r <- history :: IsBaseline(r)
    ensures (forall r <- BaselineRecords(history) ::
               r.Capture() == capture && r.receiptId.None? && r.transactionId.None?
               && (r.runEvidence.Some? ==> r.runEvidence == evidence))
            <==> forall r <- history :: IsBaseline(r) ==> IsBaselineOf(r, capture, evidence)
  {
    BaselineRecordsMean(history);
    if BaselineRecords(history) != [] {
      assert BaselineRecords(history)[0] in BaselineRecords(history);
    }
  }

  /**
   * A baseline is committed exactly, for every input, from sound files, a complete
   * measured capture at a valid time, and a disk that holds some prefix of the
   * commit's own writes.
   */
  lemma BaselineCommitExactly(s: State, p: Progress, history: seq<BenchmarkRecord>, timestamp: string,
                              capture: BenchmarkCapture, evidence: Option<BenchmarkRunEvidence>)
    ensures BaselineTarget(s, p, history, timestamp, capture, evidence).Ok? <==>
              && IsSound(s) && HistoryIsSound(history) && IsComplete(capture) && IsTimestamp(timestamp)
              && (evidence.Some? ==> Measures(evidence.value, capture))
              && IsBaselinePrefix(s, p, history, capture, evidence)
  {
    CommittedExactly(s, p, history, timestamp, capture, evidence);
    StateMeans(s);
    SoundHistoryMeans(history);
    TimestampMeans(timestamp);
    RecordsOfPrefix(history, capture, evidence);
    if && IsSound(s) && HistoryIsSound(history) && IsComplete(capture) && HoldsOneBaselineAtMost(history)
       && (forall r <- history :: IsBaseline(r) ==> IsBaselineOf(r, capture, evidence))
       && s.baselineAvg == capture.averageFps && s.baselineP1 == Some(capture.p1Fps)
       && p.IsCompleted(StepId(One, 17)) && !p.IsSkipped(StepId(One, 17))
    {
      FinishedPrefixReadsBack(s, p, history, capture, evidence);
    }
  }

  /** What it then writes: the numbers, the step at the time of the record, and one record if none is there yet. */
  lemma BaselineCommitWrites(s: State, p: Progress, history: seq<BenchmarkRecord>, timestamp: string,
                             capture: BenchmarkCapture, evidence: Option<BenchmarkRunEvidence>)
    requires BaselineTarget(s, p, history, timestamp, capture, evidence).Ok?
    ensures var c := BaselineTarget(s, p, history, timestamp, capture, evidence).value;
            && c.state == s.(baselineAvg := capture.averageFps, baselineP1 := Some(capture.p1Fps))
            && c.progress == (if p.IsCompleted(StepId(One, 17)) then p else Completing(p, StepId(One, 17), c.capturedUtc))
            && (c.idempotent <==> p.IsCompleted(StepId(One, 17)))
            && if exists r <- history :: IsBaseline(r)
               then c.history == history && exists r <- history :: IsBaseline(r) && c.capturedUtc == r.timestamp
               else && c.capturedUtc == timestamp
                    && c.history == Appended(history, BenchmarkRecord(
                         timestamp, capture.averageFps, capture.p1Fps, "Baseline (before optimizations)", capture.runs, evidence,
                         None, None))
  {
    BaselineCommitExactly(s, p, history, timestamp, capture, evidence);
    BaselineRecordsMean(history);
    if BaselineRecords(history) != [] {
      assert BaselineRecords(history)[0] in BaselineRecords(history);
    }
  }
}
