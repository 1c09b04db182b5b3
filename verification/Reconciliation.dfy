/**
 * The live final-benchmark persistence: reconcile whatever the three files hold
 * with the requested capture, then write history, state and progress in order.
 */
module Reconciliation {
  import opened Wrappers
  import opened Catalog
  import opened ProgressModel
  import opened Fps
  import opened Handoff
  import opened StateModel
  import opened Benchmark
  import opened LegacyRetry

  datatype Reconciled = Complete(receipt: FinalBenchmarkReceipt) | Pending(commit: FinalBenchmarkCommit)

  datatype ReconcileError =
    | ReadbackRefused(readback: ReadbackError)
    | CompletedConflicts
    | ProgressSkipped
    | PrefixesConflict
    | PartialStateInvalid
    | PartialRecordInvalid
    | EvidenceConflicts
    | PartialsDisagree
    | CaptureEvidenceInvalid
    | FinalRefused(final: FinalError)
    | RetryRefused(retry: RetryError)
    | PrefixNotReproduced

  /** One benchmark request as the command receives it. */
  datatype Input = Input(capturedUtc: string, capture: BenchmarkCapture, evidence: Option<BenchmarkRunEvidence>, freshId: string)

  datatype Disk = Disk(state: State, progress: Progress, history: seq<BenchmarkRecord>)

  predicate ReceiptMatchesCapture(receipt: FinalBenchmarkReceipt, capture: BenchmarkCapture,
                                  evidence: Option<BenchmarkRunEvidence>)
  {
    receipt.Capture() == capture && (receipt.runEvidence.Some? ==> receipt.runEvidence == evidence)
  }

  predicate PartialStateIsValid(s: State, receipt: FinalBenchmarkReceipt, capture: BenchmarkCapture) {
    && s.IsValid()
    && s.transaction.Some? && s.transaction.value.stage == PhaseThreeComplete
    && receipt.Capture() == capture && FpsStateMatches(s, receipt)
  }

  predicate PartialRecordIsValid(r: BenchmarkRecord, s: State, capture: BenchmarkCapture) {
    && s.IsValid()
    && s.transaction.Some? && s.transaction.value.transactionId.Some?
    && r.recordLabel == FINAL_BENCHMARK_LABEL
    && r.receiptId.Some?
    && r.transactionId == s.transaction.value.transactionId
    && r.Capture() == capture
  }

  predicate EvidenceAgrees(existing: Option<BenchmarkRunEvidence>, requested: Option<BenchmarkRunEvidence>) {
    existing.Some? ==> existing == requested
  }

  function HistoryPrefix(history: seq<BenchmarkRecord>): Option<BenchmarkRecord> {
    if FinalIndices(history) == [] then None else Some(history[FinalIndices(history)[0]])
  }

  /** The checks before a commit is chosen. */
  function PartialRefusal(disk: Disk, input: Input): Option<ReconcileError> {
    var s, receipt, record := disk.state, disk.state.finalBenchmark, HistoryPrefix(disk.history);
    if |FinalIndices(disk.history)| > 1 then Some(PrefixesConflict)
    else if (if receipt.Some? then !PartialStateIsValid(s, receipt.value, input.capture) else !s.IsValid())
    then Some(PartialStateInvalid)
    else if record.Some? then
      if !PartialRecordIsValid(record.value, s, input.capture) then Some(PartialRecordInvalid)
      else if !EvidenceAgrees(record.value.runEvidence, input.evidence) then Some(EvidenceConflicts)
      else if receipt.Some? && !receipt.value.MatchesHistoryRecord(record.value) then Some(PartialsDisagree)
      else None
    else if receipt.Some? && !EvidenceAgrees(receipt.value.runEvidence, input.evidence) then Some(EvidenceConflicts)
    else None
  }

  /** Identity, timestamp and evidence are reused from a prefix when there is one. */
  function ChosenRequest(disk: Disk, input: Input): FinalRequest {
    var receipt, record := disk.state.finalBenchmark, HistoryPrefix(disk.history);
    if record.Some? && record.value.receiptId.Some? then
      FinalRequest(record.value.receiptId.value, record.value.timestamp, input.capture, record.value.runEvidence, false)
    else if receipt.Some? then
      FinalRequest(receipt.value.receiptId, receipt.value.capturedUtc, input.capture, receipt.value.runEvidence, false)
    else
      FinalRequest(input.freshId, input.capturedUtc, input.capture, input.evidence, false)
  }

  predicate IsLegacyPrefix(disk: Disk) {
    var receipt, record := disk.state.finalBenchmark, HistoryPrefix(disk.history);
    if record.Some? then record.value.runEvidence.None? else receipt.Some? && receipt.value.runEvidence.None?
  }

  function ChosenCommit(config: Config, disk: Disk, input: Input): Result<FinalBenchmarkCommit, ReconcileError> {
    var request := ChosenRequest(disk, input);
    if request.runEvidence.Some? && (!request.runEvidence.value.IsValidAgainst(input.capture) || !request.runEvidence.value.IsValidated())
    then Err(CaptureEvidenceInvalid)
    else if request.runEvidence.None? && IsLegacyPrefix(disk) then
      var r := LegacyRetryCommit(config, disk.state, disk.progress, disk.history, input.capture);
      if r.Ok? then Ok(r.value) else Err(RetryRefused(r.error))
    else
      var r := FinalCommit(config, WithoutReceipt(disk.state), disk.progress, WithoutPrefix(disk.history), request);
      if r.Ok? then Ok(r.value) else Err(FinalRefused(r.error))
  }

  predicate ReproducesPrefixes(commit: FinalBenchmarkCommit, disk: Disk) {
    && (disk.state.finalBenchmark.Some? ==> commit.receipt == disk.state.finalBenchmark.value)
    && (HistoryPrefix(disk.history).Some? ==> commit.receipt.MatchesHistoryRecord(HistoryPrefix(disk.history).value))
  }

  function Reconcile(config: Config, disk: Disk, input: Input): Result<Reconciled, ReconcileError> {
    if disk.progress.IsCompleted(PHASE_THREE_FINAL_BENCHMARK) then
      var readback := ValidatePersistedFinalBenchmark(disk.state, disk.progress, disk.history);
      if readback.Err? then Err(ReadbackRefused(readback.error))
      else if !ReceiptMatchesCapture(readback.value, input.capture, input.evidence) then Err(CompletedConflicts)
      else Ok(Complete(readback.value))
    else if disk.progress.IsSkipped(PHASE_THREE_FINAL_BENCHMARK) then Err(ProgressSkipped)
    else
      var refusal := PartialRefusal(disk, input);
      if refusal.Some? then Err(refusal.value)
      else
        var commit :- ChosenCommit(config, disk, input);
        if !ReproducesPrefixes(commit, disk) then Err(PrefixNotReproduced)
        else Ok(Pending(commit))
  }

  // ---------------------------------------------------------------------
  // The write protocol and its crashes
  // ---------------------------------------------------------------------

  /** The disk after the first n of the ordered writes history, state, progress. */
  function AfterWrites(disk: Disk, commit: FinalBenchmarkCommit, n: nat): Disk {
    Disk(if n >= 2 then commit.state else disk.state,
         if n >= 3 then commit.progress else disk.progress,
         if n >= 1 then commit.history else disk.history)
  }

  /** A disk on which no final benchmark has begun. */
  predicate IsUntouched(disk: Disk) {
    NoFinalRecord(disk.history) && |disk.history| <= MAX_BENCHMARK_HISTORY && disk.state.finalBenchmark.None?
  }

  function PlainRequest(input: Input): FinalRequest {
    FinalRequest(input.freshId, input.capturedUtc, input.capture, input.evidence, false)
  }

  lemma UntouchedHasNoPrefix(disk: Disk, input: Input)
    requires IsUntouched(disk)
    ensures HistoryPrefix(disk.history).None? && WithoutPrefix(disk.history) == disk.history
    ensures WithoutReceipt(disk.state) == disk.state && !IsLegacyPrefix(disk)
    ensures ChosenRequest(disk, input) == PlainRequest(input)
    ensures PartialRefusal(disk, input).None? <==> disk.state.IsValid()
  {
    NoFinalNoIndex(disk.history);
  }

  lemma FirstAttempt(config: Config, disk: Disk, input: Input)
    requires IsUntouched(disk)
    requires Reconcile(config, disk, input).Ok? && Reconcile(config, disk, input).value.Pending?
    ensures FinalCommit(config, disk.state, disk.progress, disk.history, PlainRequest(input))
              == Ok(Reconcile(config, disk, input).value.commit)
  {
    UntouchedHasNoPrefix(disk, input);
  }

  /** Histories a crash may leave: untouched, or with exactly the new record. */
  lemma HistoriesAfterCrash(history: seq<BenchmarkRecord>, record: BenchmarkRecord, written: bool)
    requires NoFinalRecord(history) && |history| <= MAX_BENCHMARK_HISTORY && IsFinalRecord(record)
    requires RunEvidenceIsValid(history)
    ensures var h := if written then Appended(history, record) else history;
            && HistoryPrefix(h) == (if written then Some(record) else None)
            && |FinalIndices(h)| <= 1
            && NoFinalRecord(WithoutPrefix(h)) && RunEvidenceIsValid(WithoutPrefix(h))
            && Appended(WithoutPrefix(h), record) == Appended(history, record)
  {
    NoFinalNoIndex(history);
    CommittedHistoryPrefix(history, record);
  }

  /** The request carries the capture's numbers, and its evidence if it holds any. */
  predicate SameCapture(receipt: FinalBenchmarkReceipt, later: Input) {
    receipt.Capture() == later.capture && EvidenceAgrees(receipt.runEvidence, later.evidence)
  }

  /** With the record on disk, and the state written or not, no check of the prefixes refuses. */
  lemma PrefixIsAccepted(left: Disk, receipt: FinalBenchmarkReceipt, later: Input)
    requires HistoryPrefix(left.history) == Some(RecordFor(receipt)) && |FinalIndices(left.history)| <= 1
    requires receipt.IsValid() && SameCapture(receipt, later)
    requires left.state.IsValid() && left.state.transaction.Some?
    requires left.state.transaction.value.transactionId == Some(receipt.transactionId)
    requires left.state.finalBenchmark.Some? ==>
               && left.state.finalBenchmark == Some(receipt) && FpsStateMatches(left.state, receipt)
               && left.state.transaction.value.stage == PhaseThreeComplete
    ensures PartialRefusal(left, later).None?
    ensures ChosenRequest(left, later) ==
              FinalRequest(receipt.receiptId, receipt.capturedUtc, later.capture, receipt.runEvidence, false)
  {
    assert PartialRecordIsValid(RecordFor(receipt), left.state, later.capture);
    assert receipt.MatchesHistoryRecord(RecordFor(receipt));
  }

  /** With the record on disk, another capture is refused, and so is other evidence for the same numbers. */
  lemma OtherCaptureIsRefused(left: Disk, receipt: FinalBenchmarkReceipt, other: Input)
    requires HistoryPrefix(left.history) == Some(RecordFor(receipt))
    requires !SameCapture(receipt, other)
    ensures PartialRefusal(left, other).Some?
  {
    if receipt.Capture() != other.capture {
      assert !PartialRecordIsValid(RecordFor(receipt), left.state, other.capture);
    }
  }

  lemma ChosenFromPrefix(config: Config, disk: Disk, request: FinalRequest, later: Input, n: nat)
    requires IsUntouched(disk) && !request.legacyRetry
    requires FinalCommit(config, disk.state, disk.progress, disk.history, request).Ok?
    requires later.capture == request.capture && EvidenceAgrees(request.runEvidence, later.evidence)
    requires n == 1 || n == 2
    ensures var c := FinalCommit(config, disk.state, disk.progress, disk.history, request).value;
            var left := AfterWrites(disk, c, n);
            && PartialRefusal(left, later).None? && ChosenRequest(left, later) == request
            && HistoryPrefix(left.history) == Some(RecordFor(c.receipt)) && ReproducesPrefixes(c, left)
  {
    var c := FinalCommit(config, disk.state, disk.progress, disk.history, request).value;
    CommittedStateIsBound(config, disk.state, disk.progress, disk.history, request);
    ReceiptCarriesRequest(config, disk.state, disk.progress, disk.history, request);
    HistoriesAfterCrash(disk.history, RecordFor(c.receipt), true);
    PrefixIsAccepted(AfterWrites(disk, c, n), c.receipt, later);
  }

  /** With evidence on record the commit is computed again from the recovered source. */
  lemma CommitFromPrefix(config: Config, disk: Disk, request: FinalRequest, later: Input, n: nat)
    requires IsUntouched(disk) && !request.legacyRetry && request.runEvidence.Some?
    requires FinalCommit(config, disk.state, disk.progress, disk.history, request).Ok?
    requires later.capture == request.capture && later.evidence == request.runEvidence
    requires n == 1 || n == 2
    ensures var c := FinalCommit(config, disk.state, disk.progress, disk.history, request).value;
            ChosenCommit(config, AfterWrites(disk, c, n), later) == Ok(c)
  {
    var c := FinalCommit(config, disk.state, disk.progress, disk.history, request).value;
    var left := AfterWrites(disk, c, n);
    HistoriesAfterCrash(disk.history, RecordFor(c.receipt), true);
    ChosenFromPrefix(config, disk, request, later, n);
    StateIsReproduced(disk.state, c.receipt);
    var t := WithoutReceipt(left.state);
    assert t.IsValid();
    SameCommitFrom(config, disk.state, disk.progress, disk.history, request, t, WithoutPrefix(left.history), false);
  }

  /** Without evidence on record the aggregate-only retry rebuilds it, exactly if the whole history is valid. */
  lemma LegacyCommitFromPrefix(config: Config, disk: Disk, request: FinalRequest, later: Input, n: nat)
    requires IsUntouched(disk) && !request.legacyRetry && request.runEvidence.None?
    requires FinalCommit(config, disk.state, disk.progress, disk.history, request).Ok?
    requires later.capture == request.capture
    requires n == 1 || n == 2
    ensures var c := FinalCommit(config, disk.state, disk.progress, disk.history, request).value;
            ChosenCommit(config, AfterWrites(disk, c, n), later)
            == if HistoryIsValid(c.history) then Ok(c) else Err(RetryRefused(RetryHistoryInvalid))
  {
    var c := FinalCommit(config, disk.state, disk.progress, disk.history, request).value;
    ChosenFromPrefix(config, disk, request, later, n);
    ReceiptCarriesRequest(config, disk.state, disk.progress, disk.history, request);
    assert IsLegacyPrefix(AfterWrites(disk, c, n));
    if HistoryIsValid(c.history) {
      RetryWithHistory(config, disk.state, disk.progress, disk.history, request);
      RetryWithState(config, disk.state, disk.progress, disk.history, request, c.history);
    }
  }

  lemma RetryReconciles(config: Config, disk: Disk, request: FinalRequest, later: Input, n: nat)
    requires IsUntouched(disk) && !request.legacyRetry
    requires FinalCommit(config, disk.state, disk.progress, disk.history, request).Ok?
    requires later.capture == request.capture && EvidenceAgrees(request.runEvidence, later.evidence)
    requires n == 1 || n == 2
    ensures var c := FinalCommit(config, disk.state, disk.progress, disk.history, request).value;
            Reconcile(config, AfterWrites(disk, c, n), later)
            == if request.runEvidence.Some? || HistoryIsValid(c.history) then Ok(Pending(c))
               else Err(RetryRefused(RetryHistoryInvalid))
  {
    if request.runEvidence.Some? {
      CommitFromPrefix(config, disk, request, later, n);
    } else {
      LegacyCommitFromPrefix(config, disk, request, later, n);
    }
    ChosenFromPrefix(config, disk, request, later, n);
    assert !disk.progress.IsCompleted(PHASE_THREE_FINAL_BENCHMARK) && !disk.progress.IsSkipped(PHASE_THREE_FINAL_BENCHMARK);
  }

  /**
   * Crash confluence of the live command: if the first attempt computes a commit,
   * then after any crash among the writes an attempt, at any later time and under
   * any fresh id, is accepted exactly when it is of the same capture, with the same
   * evidence if there was any; without evidence, the records before it must all be
   * valid too, which the first attempt does not ask. It then computes that very
   * commit, and reports it complete once all three files are written.
   */
  lemma ReconciliationConfluence(config: Config, disk: Disk, input: Input, later: Input, n: nat)
    requires IsUntouched(disk)
    requires Reconcile(config, disk, input).Ok? && Reconcile(config, disk, input).value.Pending?
    requires 1 <= n <= 3
    ensures var c := Reconcile(config, disk, input).value.commit;
            var again := Reconcile(config, AfterWrites(disk, c, n), later);
            && (again.Ok? <==> later.capture == input.capture && EvidenceAgrees(input.evidence, later.evidence)
                               && (n == 3 || input.evidence.Some? || HistoryIsValid(c.history)))
            && (again.Ok? ==> again.value == if n == 3 then Complete(c.receipt) else Pending(c))
  {
    var c := Reconcile(config, disk, input).value.commit;
    var request := PlainRequest(input);
    FirstAttempt(config, disk, input);
    FinalCommitRoundTrip(config, disk.state, disk.progress, disk.history, request);
    ReceiptCarriesRequest(config, disk.state, disk.progress, disk.history, request);
    if n == 3 {
      CompletedIsRecognised(config, AfterWrites(disk, c, 3), c.receipt, later);
    } else if later.capture == input.capture && EvidenceAgrees(input.evidence, later.evidence) {
      RetryReconciles(config, disk, request, later, n);
    } else {
      PartialRefusesOthers(config, disk, request, later, n);
    }
  }

  lemma PartialRefusesOthers(config: Config, disk: Disk, request: FinalRequest, other: Input, n: nat)
    requires n == 1 || n == 2
    requires IsUntouched(disk) && FinalCommit(config, disk.state, disk.progress, disk.history, request).Ok?
    requires other.capture != request.capture || !EvidenceAgrees(request.runEvidence, other.evidence)
    ensures var c := FinalCommit(config, disk.state, disk.progress, disk.history, request).value;
            Reconcile(config, AfterWrites(disk, c, n), other).Err?
  {
    var c := FinalCommit(config, disk.state, disk.progress, disk.history, request).value;
    ReceiptCarriesRequest(config, disk.state, disk.progress, disk.history, request);
    CommittedStateIsBound(config, disk.state, disk.progress, disk.history, request);
    HistoriesAfterCrash(disk.history, RecordFor(c.receipt), true);
    OtherCaptureIsRefused(AfterWrites(disk, c, n), c.receipt, other);
    assert !disk.progress.IsCompleted(PHASE_THREE_FINAL_BENCHMARK);
  }

  lemma CompletedIsRecognised(config: Config, left: Disk, receipt: FinalBenchmarkReceipt, later: Input)
    requires ValidatePersistedFinalBenchmark(left.state, left.progress, left.history) == Ok(receipt)
    ensures SameCapture(receipt, later) ==> Reconcile(config, left, later) == Ok(Complete(receipt))
    ensures !SameCapture(receipt, later) ==> Reconcile(config, left, later).Err?
  {
    ReadbackMeansComplete(left.state, left.progress, left.history);
  }

  // ---------------------------------------------------------------------
  // The state alone
  // ---------------------------------------------------------------------

  lemma StateAloneIsChecked(left: Disk, receipt: FinalBenchmarkReceipt, later: Input)
    requires NoFinalRecord(left.history) && left.state.finalBenchmark == Some(receipt)
    requires left.state.IsValid() && FpsStateMatches(left.state, receipt)
    requires left.state.transaction.Some? && left.state.transaction.value.stage == PhaseThreeComplete
    ensures PartialRefusal(left, later).None? <==> SameCapture(receipt, later)
    ensures ChosenRequest(left, later) ==
              FinalRequest(receipt.receiptId, receipt.capturedUtc, later.capture, receipt.runEvidence, false)
    ensures IsLegacyPrefix(left) <==> receipt.runEvidence.None?
  {
    NoFinalNoIndex(left.history);
  }

  lemma CommitFromState(config: Config, disk: Disk, request: FinalRequest, later: Input)
    requires IsUntouched(disk) && !request.legacyRetry
    requires FinalCommit(config, disk.state, disk.progress, disk.history, request).Ok?
    requires later.capture == request.capture && EvidenceAgrees(request.runEvidence, later.evidence)
    ensures var c := FinalCommit(config, disk.state, disk.progress, disk.history, request).value;
            ChosenCommit(config, disk.(state := c.state), later)
            == if request.runEvidence.Some? || HistoryIsValid(disk.history) then Ok(c) else Err(RetryRefused(RetryHistoryInvalid))
  {
    var c := FinalCommit(config, disk.state, disk.progress, disk.history, request).value;
    var left := disk.(state := c.state);
    NoFinalNoIndex(disk.history);
    CommittedStateIsBound(config, disk.state, disk.progress, disk.history, request);
    ReceiptCarriesRequest(config, disk.state, disk.progress, disk.history, request);
    StateAloneIsChecked(left, c.receipt, later);
    StateIsReproduced(disk.state, c.receipt);
    if request.runEvidence.Some? {
      var t := WithoutReceipt(left.state);
      assert t.IsValid();
      SameCommitFrom(config, disk.state, disk.progress, disk.history, request, t, disk.history, false);
    } else if HistoryIsValid(disk.history) {
      RetryWithState(config, disk.state, disk.progress, disk.history, request, disk.history);
    }
  }

  /**
   * The same for a disk that holds the written state but lost the record: an attempt
   * is accepted exactly for the same capture, and rebuilds the same commit.
   */
  lemma StateAloneReconciles(config: Config, disk: Disk, input: Input, later: Input)
    requires IsUntouched(disk)
    requires Reconcile(config, disk, input).Ok? && Reconcile(config, disk, input).value.Pending?
    ensures var c := Reconcile(config, disk, input).value.commit;
            var again := Reconcile(config, disk.(state := c.state), later);
            && (again.Ok? <==> later.capture == input.capture && EvidenceAgrees(input.evidence, later.evidence)
                               && (input.evidence.Some? || HistoryIsValid(disk.history)))
            && (again.Ok? ==> again.value == Pending(c))
  {
    var c := Reconcile(config, disk, input).value.commit;
    var request := PlainRequest(input);
    FirstAttempt(config, disk, input);
    NoFinalNoIndex(disk.history);
    CommittedStateIsBound(config, disk.state, disk.progress, disk.history, request);
    ReceiptCarriesRequest(config, disk.state, disk.progress, disk.history, request);
    StateAloneIsChecked(disk.(state := c.state), c.receipt, later);
    if later.capture == input.capture && EvidenceAgrees(input.evidence, later.evidence) {
      CommitFromState(config, disk, request, later);
    }
    assert !disk.progress.IsCompleted(PHASE_THREE_FINAL_BENCHMARK) && !disk.progress.IsSkipped(PHASE_THREE_FINAL_BENCHMARK);
  }

  /** An old record of no runs; the readers of the history accept it. */
  const EMPTY_RECORD := BenchmarkRecord("", 0.0, 0.0, "", 0, None, None, None)

  lemma BehindEmptyRecord(history: seq<BenchmarkRecord>)
    ensures NoFinalRecord(history) ==> NoFinalRecord([EMPTY_RECORD] + history)
    ensures RunEvidenceIsValid(history) ==> RunEvidenceIsValid([EMPTY_RECORD] + history)
    ensures forall id, transaction ::
              HasCollision([EMPTY_RECORD] + history, id, transaction) <==> HasCollision(history, id, transaction)
  {
    assert forall r :: r in [EMPTY_RECORD] + history <==> r == EMPTY_RECORD || r in history;
  }

  /** A commit asks of its history only valid evidence and no collision. */
  lemma SameRefusal(installed: bool, ready: bool, config: Config, s: State, history: seq<BenchmarkRecord>,
                    other: seq<BenchmarkRecord>, request: FinalRequest)
    requires RefusalGiven(installed, ready, config, s, history, request).None?
    requires RunEvidenceIsValid(history) ==> RunEvidenceIsValid(other)
    requires forall id, transaction :: HasCollision(other, id, transaction) <==> HasCollision(history, id, transaction)
    ensures RefusalGiven(installed, ready, config, s, other, request).None?
  {
  }

  lemma CommitBehindEmptyRecord(config: Config, s: State, p: Progress, history: seq<BenchmarkRecord>,
                                request: FinalRequest)
    requires FinalCommit(config, s, p, history, request).Ok? && |history| + 2 <= MAX_BENCHMARK_HISTORY
    ensures var behind := FinalCommit(config, s, p, [EMPTY_RECORD] + history, request);
            && behind.Ok? && !HistoryIsValid(behind.value.history)
  {
    BehindEmptyRecord(history);
    SameRefusal(p.IsCompleted(PHASE_THREE_DRIVER_INSTALL), FinalStageIsReady(p), config, s, history,
                [EMPTY_RECORD] + history, request);
    var c := FinalCommit(config, s, p, [EMPTY_RECORD] + history, request).value;
    assert c.history[0] == EMPTY_RECORD && c.history[0] in c.history;
  }

  lemma UntouchedReconciles(config: Config, disk: Disk, history: seq<BenchmarkRecord>, input: Input)
    requires IsUntouched(disk) && IsUntouched(disk.(history := history))
    requires Reconcile(config, disk, input).Ok? && Reconcile(config, disk, input).value.Pending?
    requires FinalCommit(config, disk.state, disk.progress, history, PlainRequest(input)).Ok?
    ensures Reconcile(config, disk.(history := history), input)
              == Ok(Pending(FinalCommit(config, disk.state, disk.progress, history, PlainRequest(input)).value))
  {
    UntouchedHasNoPrefix(disk, input);
    UntouchedHasNoPrefix(disk.(history := history), input);
  }

  /**
   * Where the retry is refused: behind an old record of no runs an aggregate-only
   * attempt still succeeds, but after a crash among its writes no retry does.
   */
  lemma EmptyRecordBlocksRetry(config: Config, disk: Disk, input: Input, later: Input, n: nat)
    requires IsUntouched(disk) && |disk.history| + 2 <= MAX_BENCHMARK_HISTORY && input.evidence.None?
    requires Reconcile(config, disk, input).Ok? && Reconcile(config, disk, input).value.Pending?
    requires n == 1 || n == 2
    ensures var behind := disk.(history := [EMPTY_RECORD] + disk.history);
            var first := Reconcile(config, behind, input);
            && first.Ok? && first.value.Pending?
            && Reconcile(config, AfterWrites(behind, first.value.commit, n), later).Err?
  {
    var history := [EMPTY_RECORD] + disk.history;
    var request := PlainRequest(input);
    BehindEmptyRecord(disk.history);
    FirstAttempt(config, disk, input);
    CommitBehindEmptyRecord(config, disk.state, disk.progress, disk.history, request);
    UntouchedReconciles(config, disk, history, input);
    ReconciliationConfluence(config, disk.(history := history), input, later, n);
  }

  // ---------------------------------------------------------------------
  // Whatever is on disk, nothing written is replaced
  // ---------------------------------------------------------------------

  /** What the checks of a partial bundle leave. */
  lemma PassedPartials(disk: Disk, input: Input)
    requires PartialRefusal(disk, input).None?
    ensures |FinalIndices(disk.history)| <= 1 && disk.state.IsValid()
    ensures disk.state.finalBenchmark.Some? ==>
              PartialStateIsValid(disk.state, disk.state.finalBenchmark.value, input.capture)
    ensures HistoryPrefix(disk.history).Some? ==>
              && PartialRecordIsValid(HistoryPrefix(disk.history).value, disk.state, input.capture)
              && EvidenceAgrees(HistoryPrefix(disk.history).value.runEvidence, input.evidence)
    ensures HistoryPrefix(disk.history).None? && disk.state.finalBenchmark.Some? ==>
              EvidenceAgrees(disk.state.finalBenchmark.value.runEvidence, input.evidence)
  {
  }

  /** The receipt is of the capture, under the old identity or the fresh one, with no evidence but the given. */
  predicate IsReceiptOf(receipt: FinalBenchmarkReceipt, disk: Disk, input: Input) {
    && receipt.Capture() == input.capture
    && (receipt.runEvidence.Some? ==> receipt.runEvidence == input.evidence)
    && (disk.state.finalBenchmark.None? && HistoryPrefix(disk.history).None? ==>
          receipt.receiptId == input.freshId && receipt.capturedUtc == input.capturedUtc && receipt.runEvidence == input.evidence)
  }

  lemma ChosenIsOf(config: Config, disk: Disk, input: Input)
    requires PartialRefusal(disk, input).None? && ChosenCommit(config, disk, input).Ok?
    ensures var c := ChosenCommit(config, disk, input).value;
            && IsReceiptOf(c.receipt, disk, input) && c.receipt.receiptLabel == FINAL_BENCHMARK_LABEL
            && c.state == StateWith(WithoutReceipt(disk.state), c.receipt)
            && c.history == Appended(WithoutPrefix(disk.history), RecordFor(c.receipt))
  {
    var request := ChosenRequest(disk, input);
    PassedPartials(disk, input);
    if request.runEvidence.None? && IsLegacyPrefix(disk) {
      LegacyIsOf(config, disk, input);
    } else {
      ReceiptCarriesRequest(config, WithoutReceipt(disk.state), disk.progress, WithoutPrefix(disk.history), request);
      CommitWritesState(config, WithoutReceipt(disk.state), disk.progress, WithoutPrefix(disk.history), request);
    }
  }

  lemma LegacyIsOf(config: Config, disk: Disk, input: Input)
    requires LegacyRetryCommit(config, disk.state, disk.progress, disk.history, input.capture).Ok? && IsLegacyPrefix(disk)
    ensures var c := LegacyRetryCommit(config, disk.state, disk.progress, disk.history, input.capture).value;
            && IsReceiptOf(c.receipt, disk, input) && c.receipt.receiptLabel == FINAL_BENCHMARK_LABEL
            && c.state == StateWith(WithoutReceipt(disk.state), c.receipt)
            && c.history == Appended(WithoutPrefix(disk.history), RecordFor(c.receipt))
  {
    OnlyAnExactPrefixIsRetried(config, disk.state, disk.progress, disk.history, input.capture);
    RetryIsACommit(config, disk.state, disk.progress, disk.history, input.capture);
  }

  /**
   * An accepted attempt, on any disk at all: the commit is of the given capture and
   * evidence, and whatever final state and record the disk holds are already its
   * own; nothing that was written is replaced, and nothing is written twice.
   */
  lemma NothingWrittenIsReplaced(config: Config, disk: Disk, input: Input)
    requires Reconcile(config, disk, input).Ok? && Reconcile(config, disk, input).value.Pending?
    ensures var c := Reconcile(config, disk, input).value.commit;
            && IsReceiptOf(c.receipt, disk, input)
            && HoldsAtMostTheState(disk.state, c) && HoldsAtMost(disk.history, c.receipt)
            && c.history == Appended(WithoutPrefix(disk.history), RecordFor(c.receipt))
            && !disk.progress.IsCompleted(StepId(Three, 13)) && !disk.progress.IsSkipped(StepId(Three, 13))
  {
    var c := Reconcile(config, disk, input).value.commit;
    PassedPartials(disk, input);
    ChosenIsOf(config, disk, input);
    if FinalIndices(disk.history) != [] {
      MatchIsTheRecord(c.receipt, HistoryPrefix(disk.history).value);
    }
    AtMostOne(disk.history, RecordFor(c.receipt));
    if disk.state.finalBenchmark.Some? {
      StateIsKept(disk.state, c.receipt, c);
    }
  }

  /** A bundle is reported complete exactly when it reads back as this capture, with no other evidence. */
  lemma CompleteExactly(config: Config, disk: Disk, input: Input, receipt: FinalBenchmarkReceipt)
    ensures Reconcile(config, disk, input) == Ok(Complete(receipt)) <==>
              && disk.progress.IsCompleted(StepId(Three, 13))
              && ValidatePersistedFinalBenchmark(disk.state, disk.progress, disk.history) == Ok(receipt)
              && receipt.avgFps == input.capture.averageFps && receipt.p1Fps == input.capture.p1Fps
              && receipt.runs == input.capture.runs
              && (receipt.runEvidence.None? || receipt.runEvidence == input.evidence)
  {
  }
}
