/** The transaction-bound final benchmark: commit preparation and readback. */
module Benchmark {
  import opened Wrappers
  import opened Catalog
  import opened ProgressModel
  import opened Fps
  import opened Handoff
  import opened StateModel
  import Text

  datatype Config = Config(valid: bool, strategy: FpsCapStrategy)

  datatype FinalBenchmarkCommit = FinalBenchmarkCommit(
    state: State, progress: Progress, history: seq<BenchmarkRecord>, receipt: FinalBenchmarkReceipt)

  datatype FinalError =
    | ConfigInvalid
    | StateInvalid
    | ReceiptAlreadyExists
    | DriverInstallNotCompleted
    | PhaseThreeNotReady
    | HistoryEvidenceInvalid
    | TransactionMissing
    | TransactionNotAuthorized
    | AlreadyRecorded
    | EvidenceInvalid
    | CapRejected
    | ReceiptInvalid
    | NextStateInvalid

  /** The request: which capture, under which identity, by which path. */
  datatype FinalRequest = FinalRequest(
    receiptId: string,
    capturedUtc: string,
    capture: BenchmarkCapture,
    runEvidence: Option<BenchmarkRunEvidence>,
    legacyRetry: bool)

  // ---------------------------------------------------------------------
  // Guards
  // ---------------------------------------------------------------------

  predicate IsLaterPhaseThreeEngineStep(step: Step) {
    step.role.EngineStep? && step.id != PHASE_THREE_DRIVER_INSTALL
  }

  predicate AnyUnresolved(p: Progress, rows: seq<Step>) {
    rows != []
    && ((IsLaterPhaseThreeEngineStep(rows[0]) && !p.IsCompleted(rows[0].id) && !p.IsSkipped(rows[0].id))
        || AnyUnresolved(p, rows[1..]))
  }

  predicate HasUnresolvedPhaseThreeEngineSteps(p: Progress) {
    AnyUnresolved(p, Rows(Three))
  }

  predicate FinalStageIsReady(p: Progress) {
    && !HasUnresolvedPhaseThreeEngineSteps(p)
    && !p.IsCompleted(PHASE_THREE_FINAL_BENCHMARK) && !p.IsSkipped(PHASE_THREE_FINAL_BENCHMARK)
  }

  predicate HasCollision(history: seq<BenchmarkRecord>, receiptId: string, transactionId: string) {
    exists r <- history :: r.receiptId == Some(receiptId) || r.transactionId == Some(transactionId)
  }

  /** The first failing guard, in the source's order, given what the progress file says. */
  function RefusalGiven(installed: bool, ready: bool, config: Config, s: State, history: seq<BenchmarkRecord>,
                        request: FinalRequest): Option<FinalError>
  {
    if !config.valid then Some(ConfigInvalid)
    else if !s.IsValid() then Some(StateInvalid)
    else if s.finalBenchmark.Some? then Some(ReceiptAlreadyExists)
    else if !installed then Some(DriverInstallNotCompleted)
    else if !ready then Some(PhaseThreeNotReady)
    else if !RunEvidenceIsValid(history) then Some(HistoryEvidenceInvalid)
    else if s.transaction.None? then Some(TransactionMissing)
    else if !s.transaction.value.IsAuthorizedAt(PhaseThreeArmed) then Some(TransactionNotAuthorized)
    else if HasCollision(history, request.receiptId, s.transaction.value.transactionId.value) then Some(AlreadyRecorded)
    else None
  }

  function Refusal(config: Config, s: State, p: Progress, history: seq<BenchmarkRecord>,
                   request: FinalRequest): Option<FinalError>
  {
    RefusalGiven(p.IsCompleted(PHASE_THREE_DRIVER_INSTALL), FinalStageIsReady(p), config, s, history, request)
  }

  /** The cap the capture may set: per-run evidence, the legacy aggregate, or uncapped only. */
  function GrantedCap(config: Config, request: FinalRequest): Result<nat, FinalError> {
    match request.runEvidence
    case Some(evidence) =>
      if !evidence.IsValidAgainst(request.capture) || !evidence.IsValidated() then Err(EvidenceInvalid)
      else OrRejected(MeasuredFpsCap(config.strategy, evidence))
    case None =>
      if request.legacyRetry then OrRejected(LegacyAggregateFpsCap(config.strategy, request.capture))
      else if config.strategy == RawLatency(None) then Ok(0)
      else Err(CapRejected)
  }

  function OrRejected(cap: Option<nat>): Result<nat, FinalError> {
    if cap.Some? then Ok(cap.value) else Err(CapRejected)
  }

  // ---------------------------------------------------------------------
  // The commit as a function
  // ---------------------------------------------------------------------

  function ReceiptFor(request: FinalRequest, transactionId: string, cap: nat): FinalBenchmarkReceipt {
    FinalBenchmarkReceipt(FINAL_BENCHMARK_SCHEMA_VERSION, request.receiptId, transactionId, request.capturedUtc,
                          request.capture.averageFps, request.capture.p1Fps, request.capture.runs,
                          request.runEvidence, cap, FINAL_BENCHMARK_LABEL)
  }

  function RecordFor(receipt: FinalBenchmarkReceipt): BenchmarkRecord {
    BenchmarkRecord(receipt.capturedUtc, receipt.avgFps, receipt.p1Fps, receipt.receiptLabel, receipt.runs,
                    receipt.runEvidence, Some(receipt.receiptId), Some(receipt.transactionId))
  }

  function StateWith(s: State, receipt: FinalBenchmarkReceipt): State
    requires s.transaction.Some?
  {
    s.(fpsCap := receipt.fpsCap,
       avgFps := receipt.avgFps,
       p1Fps := Some(receipt.p1Fps),
       capDate := Some(receipt.capturedUtc),
       finalBenchmark := Some(receipt),
       transaction := Some(s.transaction.value.(stage := PhaseThreeComplete, updatedUtc := Some(receipt.capturedUtc))))
  }

  /** The commit, given the refusal of its guards. */
  function CommitUnless(refusal: Option<FinalError>, config: Config, s: State, p: Progress, history: seq<BenchmarkRecord>,
                        request: FinalRequest): Result<FinalBenchmarkCommit, FinalError>
    requires refusal.None? ==> s.transaction.Some? && s.transaction.value.transactionId.Some?
  {
    if refusal.Some? then Err(refusal.value)
    else
      var cap :- GrantedCap(config, request);
      var receipt := ReceiptFor(request, s.transaction.value.transactionId.value, cap);
      if !receipt.IsValid() then Err(ReceiptInvalid)
      else if !StateWith(s, receipt).IsValid() then Err(NextStateInvalid)
      else
        Ok(FinalBenchmarkCommit(
          StateWith(s, receipt),
          Completing(p, PHASE_THREE_FINAL_BENCHMARK, request.capturedUtc),
          Appended(history, RecordFor(receipt)),
          receipt))
  }

  function FinalCommit(config: Config, s: State, p: Progress, history: seq<BenchmarkRecord>, request: FinalRequest)
    : Result<FinalBenchmarkCommit, FinalError>
  {
    CommitUnless(Refusal(config, s, p, history, request), config, s, p, history, request)
  }

  /** Edits a cloned state field by field and moves its transaction to the last stage. */
  method AdvanceState(s: State, receipt: FinalBenchmarkReceipt) returns (nextState: State)
    requires s.transaction.Some? && s.transaction.value.stage == PhaseThreeArmed
    ensures nextState == StateWith(s, receipt)
  {
    nextState := s;
    nextState := nextState.(fpsCap := receipt.fpsCap);
    nextState := nextState.(avgFps := receipt.avgFps);
    nextState := nextState.(p1Fps := Some(receipt.p1Fps));
    nextState := nextState.(capDate := Some(receipt.capturedUtc));
    nextState := nextState.(finalBenchmark := Some(receipt));
    var moved := nextState.transaction.value.TransitionTo(PhaseThreeComplete);
    nextState := nextState.(transaction := Some(moved.value.(updatedUtc := Some(receipt.capturedUtc))));
  }

  /** Prepares the commit on cloned values, without I/O. */
  method PrepareFinalBenchmarkCommit(config: Config, s: State, p: Progress, history: seq<BenchmarkRecord>,
                                     request: FinalRequest)
    returns (r: Result<FinalBenchmarkCommit, FinalError>)
    ensures r == FinalCommit(config, s, p, history, request)
  {
    var refusal := Refusal(config, s, p, history, request);
    if refusal.Some? {
      return Err(refusal.value);
    }
    var cap := GrantedCap(config, request);
    if cap.Err? {
      return Err(cap.error);
    }
    var receipt := ReceiptFor(request, s.transaction.value.transactionId.value, cap.value);
    if !receipt.IsValid() {
      return Err(ReceiptInvalid);
    }
    var nextState := AdvanceState(s, receipt);
    if !nextState.IsValid() {
      return Err(NextStateInvalid);
    }
    var nextProgress := new ProgressDraft(p);
    nextProgress.CompleteStep(PHASE_THREE_FINAL_BENCHMARK, request.capturedUtc);
    var nextHistory := history + [RecordFor(receipt)];
    if |nextHistory| > MAX_BENCHMARK_HISTORY {
      nextHistory := nextHistory[|nextHistory| - MAX_BENCHMARK_HISTORY..];
    }
    r := Ok(FinalBenchmarkCommit(nextState, nextProgress.Value(), nextHistory, receipt));
  }

  // ---------------------------------------------------------------------
  // Readback of the persisted bundle
  // ---------------------------------------------------------------------

  function SharingIdentity(receipt: FinalBenchmarkReceipt, history: seq<BenchmarkRecord>): seq<BenchmarkRecord> {
    if history == [] then []
    else
      var last := history[|history| - 1];
      SharingIdentity(receipt, history[..|history| - 1]) + (if receipt.SharesIdentityWith(last) then [last] else [])
  }

  predicate ProgressIsComplete(p: Progress, receipt: FinalBenchmarkReceipt) {
    && p.IsCompleted(PHASE_THREE_DRIVER_INSTALL)
    && p.IsCompleted(PHASE_THREE_FINAL_BENCHMARK)
    && !p.IsSkipped(PHASE_THREE_FINAL_BENCHMARK)
    && "3-13" in p.timestamps && p.timestamps["3-13"] == receipt.capturedUtc
  }

  predicate FpsStateMatches(s: State, receipt: FinalBenchmarkReceipt) {
    && s.fpsCap == receipt.fpsCap && s.avgFps == receipt.avgFps
    && s.p1Fps == Some(receipt.p1Fps) && s.capDate == Some(receipt.capturedUtc)
  }

  datatype ReadbackError =
    | PersistedStateInvalid
    | PersistedEvidenceInvalid
    | NoReceipt
    | NoTransaction
    | NotPhaseThreeComplete
    | ReceiptNotBound
    | ProgressIncomplete
    | EarlierWorkUnresolved
    | FpsStateDiffers
    | HistoryInconsistent

  /** The readback, given whether earlier work of Phase 3 is unresolved. */
  function ReadbackGiven(unresolved: bool, s: State, p: Progress, history: seq<BenchmarkRecord>)
    : Result<FinalBenchmarkReceipt, ReadbackError>
  {
    if !s.IsValid() then Err(PersistedStateInvalid)
    else if !RunEvidenceIsValid(history) then Err(PersistedEvidenceInvalid)
    else if s.finalBenchmark.None? then Err(NoReceipt)
    else if s.transaction.None? then Err(NoTransaction)
    else if !s.transaction.value.IsAuthorizedAt(PhaseThreeComplete) then Err(NotPhaseThreeComplete)
    else
      var receipt := s.finalBenchmark.value;
      if !receipt.IsValidForTransaction(s.transaction.value) then Err(ReceiptNotBound)
      else if !ProgressIsComplete(p, receipt) then Err(ProgressIncomplete)
      else if unresolved then Err(EarlierWorkUnresolved)
      else if !FpsStateMatches(s, receipt) then Err(FpsStateDiffers)
      else
        var matching := SharingIdentity(receipt, history);
        if |matching| != 1 || !receipt.MatchesHistoryRecord(matching[0]) then Err(HistoryInconsistent)
        else Ok(receipt)
  }

  function ValidatePersistedFinalBenchmark(s: State, p: Progress, history: seq<BenchmarkRecord>)
    : Result<FinalBenchmarkReceipt, ReadbackError>
  {
    ReadbackGiven(HasUnresolvedPhaseThreeEngineSteps(p), s, p, history)
  }

  // ---------------------------------------------------------------------
  // Round trip
  // ---------------------------------------------------------------------

  lemma {:induction false} NoIdentityShared(receipt: FinalBenchmarkReceipt, history: seq<BenchmarkRecord>)
    requires forall r <- history :: !receipt.SharesIdentityWith(r)
    ensures SharingIdentity(receipt, history) == []
  {
    if history != [] {
      assert history[|history| - 1] in history;
      assert forall r <- history[..|history| - 1] :: r in history;
      NoIdentityShared(receipt, history[..|history| - 1]);
    }
  }

  lemma OnlyTheNewRecordShares(receipt: FinalBenchmarkReceipt, history: seq<BenchmarkRecord>)
    requires !HasCollision(history, receipt.receiptId, receipt.transactionId)
    ensures SharingIdentity(receipt, Appended(history, RecordFor(receipt))) == [RecordFor(receipt)]
  {
    var record := RecordFor(receipt);
    AppendedKeepsASuffix(history, record);
    var next := Appended(history, record);
    var front := next[..|next| - 1];
    assert forall r <- front :: r in history;
    NoIdentityShared(receipt, front);
  }

  lemma AnyUnresolvedMeans(p: Progress, rows: seq<Step>)
    ensures AnyUnresolved(p, rows)
            <==> exists step <- rows :: IsLaterPhaseThreeEngineStep(step) && !p.IsCompleted(step.id) && !p.IsSkipped(step.id)
  {
    if rows != [] {
      AnyUnresolvedMeans(p, rows[1..]);
      assert rows == [rows[0]] + rows[1..];
    }
  }

  lemma FinalKeyIsItsOwn(step: Step)
    requires IsLaterPhaseThreeEngineStep(step) && step.id != PHASE_THREE_FINAL_BENCHMARK
    ensures ProgressKey(step.id) != ProgressKey(PHASE_THREE_FINAL_BENCHMARK)
  {
    ProgressKeyInjective(step.id, PHASE_THREE_FINAL_BENCHMARK);
  }

  lemma FinalIsNoEngineStep()
    ensures forall step <- Rows(Three) :: IsLaterPhaseThreeEngineStep(step) ==> step.id != PHASE_THREE_FINAL_BENCHMARK
  {
  }

  lemma {:induction false} CompletingFinalResolvesNoLess(p: Progress, timestamp: string, rows: seq<Step>)
    requires !AnyUnresolved(p, rows)
    requires forall step <- rows :: IsLaterPhaseThreeEngineStep(step) ==> step.id != PHASE_THREE_FINAL_BENCHMARK
    ensures !AnyUnresolved(Completing(p, PHASE_THREE_FINAL_BENCHMARK, timestamp), rows)
  {
    if rows != [] {
      assert rows[0] in rows;
      if IsLaterPhaseThreeEngineStep(rows[0]) {
        FinalKeyIsItsOwn(rows[0]);
      }
      CompletingFinalResolvesNoLess(p, timestamp, rows[1..]);
    }
  }

  lemma CompletingFinalKeepsTheRest(p: Progress, timestamp: string)
    ensures var q := Completing(p, PHASE_THREE_FINAL_BENCHMARK, timestamp);
            && (p.IsCompleted(PHASE_THREE_DRIVER_INSTALL) ==> q.IsCompleted(PHASE_THREE_DRIVER_INSTALL))
            && q.IsCompleted(PHASE_THREE_FINAL_BENCHMARK) && !q.IsSkipped(PHASE_THREE_FINAL_BENCHMARK)
            && "3-13" in q.timestamps && q.timestamps["3-13"] == timestamp
            && (!HasUnresolvedPhaseThreeEngineSteps(p) ==> !HasUnresolvedPhaseThreeEngineSteps(q))
  {
    assert TimestampKey(PHASE_THREE_FINAL_BENCHMARK) == "3-13" by { FinalTimestampKey(); }
    FinalIsNoEngineStep();
    if !HasUnresolvedPhaseThreeEngineSteps(p) {
      CompletingFinalResolvesNoLess(p, timestamp, Rows(Three));
    }
  }

  /** Rows 2 to 12 of the thirteen are the later engine steps. */
  predicate IsPhaseThreeSchedule(rows: seq<Step>) {
    && |rows| == 13
    && forall i :: 0 <= i < 13 ==> rows[i].id == StepId(Three, i + 1) && (IsLaterPhaseThreeEngineStep(rows[i]) <==> 1 <= i <= 11)
  }

  lemma PhaseThreeSchedule()
    ensures IsPhaseThreeSchedule(Rows(Three))
  {
  }

  /** P3:2 to P3:12 are each completed or skipped; an advisory does not count. */
  predicate PhaseThreeIsWorkedOff(p: Progress) {
    forall n: U8 :: 2 <= n <= 12 ==> p.IsCompleted(StepId(Three, n)) || p.IsSkipped(StepId(Three, n))
  }

  lemma NoneUnresolvedMeans(p: Progress, rows: seq<Step>)
    requires IsPhaseThreeSchedule(rows)
    ensures !AnyUnresolved(p, rows) <==> PhaseThreeIsWorkedOff(p)
  {
    AnyUnresolvedMeans(p, rows);
    if PhaseThreeIsWorkedOff(p) {
      forall step | step in rows && IsLaterPhaseThreeEngineStep(step) ensures p.IsCompleted(step.id) || p.IsSkipped(step.id) {
        var i :| 0 <= i < |rows| && rows[i] == step;
        assert step.id == StepId(Three, i + 1);
      }
    } else {
      var n: U8 :| 2 <= n <= 12 && !p.IsCompleted(StepId(Three, n)) && !p.IsSkipped(StepId(Three, n));
      assert rows[n - 1] in rows && rows[n - 1].id == StepId(Three, n);
    }
  }

  lemma ResolvedPhaseThreeMeans(p: Progress)
    ensures !HasUnresolvedPhaseThreeEngineSteps(p) <==> PhaseThreeIsWorkedOff(p)
  {
    PhaseThreeSchedule();
    NoneUnresolvedMeans(p, Rows(Three));
  }

  /** The readiness guard in ids: P3:2 to P3:12 completed or skipped, P3:13 neither. */
  lemma ReadinessMeans(p: Progress)
    ensures FinalStageIsReady(p) <==>
              && (forall n: U8 :: 2 <= n <= 12 ==> p.IsCompleted(StepId(Three, n)) || p.IsSkipped(StepId(Three, n)))
              && !p.IsCompleted(StepId(Three, 13)) && !p.IsSkipped(StepId(Three, 13))
  {
    ResolvedPhaseThreeMeans(p);
  }

  /** A final commit is made only over a finished Phase 3, and P3:13 itself is still open. */
  lemma FinalCommitNeedsPhaseThree(config: Config, s: State, p: Progress, history: seq<BenchmarkRecord>, request: FinalRequest)
    requires FinalCommit(config, s, p, history, request).Ok?
    ensures p.IsCompleted(StepId(Three, 1))
    ensures forall n: U8 :: 2 <= n <= 12 ==> p.IsCompleted(StepId(Three, n)) || p.IsSkipped(StepId(Three, n))
    ensures !p.IsCompleted(StepId(Three, 13)) && !p.IsSkipped(StepId(Three, 13))
  {
    ReadinessMeans(p);
  }

  /** The readback asks the same of the persisted progress, with P3:13 completed. */
  lemma ReadbackNeedsPhaseThree(s: State, p: Progress, history: seq<BenchmarkRecord>)
    requires ValidatePersistedFinalBenchmark(s, p, history).Ok?
    ensures p.IsCompleted(StepId(Three, 1)) && p.IsCompleted(StepId(Three, 13)) && !p.IsSkipped(StepId(Three, 13))
    ensures forall n: U8 :: 2 <= n <= 12 ==> p.IsCompleted(StepId(Three, n)) || p.IsSkipped(StepId(Three, n))
  {
    ResolvedPhaseThreeMeans(p);
  }

  lemma FinalTimestampKey()
    ensures TimestampKey(PHASE_THREE_FINAL_BENCHMARK) == "3-13"
  {
    assert Text.Decimal(3) == "3";
    assert Text.Decimal(1) == "1";
    assert Text.Decimal(13) == "1" + "3";
  }

  /**
   * A successful preparation is accepted by the readback of exactly what it
   * prepared, which returns exactly its receipt; the history ends at its record
   * and stays within the retention bound.
   */
  lemma FinalCommitRoundTrip(config: Config, s: State, p: Progress, history: seq<BenchmarkRecord>,
                             request: FinalRequest)
    requires FinalCommit(config, s, p, history, request).Ok?
    ensures var commit := FinalCommit(config, s, p, history, request).value;
            && ValidatePersistedFinalBenchmark(commit.state, commit.progress, commit.history) == Ok(commit.receipt)
            && |commit.history| <= MAX_BENCHMARK_HISTORY
            && commit.receipt.Capture() == request.capture && commit.receipt.receiptId == request.receiptId
            && commit.receipt.MatchesHistoryRecord(commit.history[|commit.history| - 1])
  {
    var commit := FinalCommit(config, s, p, history, request).value;
    CommittedStateIsBound(config, s, p, history, request);
    CommittedHistoryReadsBack(history, commit.receipt);
    CompletingFinalKeepsTheRest(p, request.capturedUtc);
  }

  lemma NotRefusedMeans(installed: bool, ready: bool, config: Config, s: State, history: seq<BenchmarkRecord>,
                        request: FinalRequest)
    requires RefusalGiven(installed, ready, config, s, history, request).None?
    ensures s.transaction.Some? && s.transaction.value.IsAuthorizedAt(PhaseThreeArmed) && RunEvidenceIsValid(history)
    ensures !HasCollision(history, request.receiptId, s.transaction.value.transactionId.value)
  {
  }

  lemma UnrefusedCommitIsBound(config: Config, s: State, p: Progress, history: seq<BenchmarkRecord>, request: FinalRequest)
    requires s.transaction.Some? && s.transaction.value.IsAuthorizedAt(PhaseThreeArmed)
    requires CommitUnless(None, config, s, p, history, request).Ok?
    ensures var commit := CommitUnless(None, config, s, p, history, request).value;
            && commit.state.IsValid() && commit.state.finalBenchmark == Some(commit.receipt)
            && commit.state.transaction.Some? && commit.state.transaction.value.IsAuthorizedAt(PhaseThreeComplete)
            && commit.receipt.IsValidForTransaction(commit.state.transaction.value)
            && FpsStateMatches(commit.state, commit.receipt)
            && commit.receipt.Capture() == request.capture && commit.receipt.receiptId == request.receiptId
            && commit.receipt.capturedUtc == request.capturedUtc
            && commit.receipt.transactionId == s.transaction.value.transactionId.value
            && commit.history == Appended(history, RecordFor(commit.receipt))
            && RecordFor(commit.receipt).EvidenceIsValid()
  {
  }

  /** The committed state is at its last stage, bound to the receipt it holds. */
  lemma CommittedStateIsBound(config: Config, s: State, p: Progress, history: seq<BenchmarkRecord>,
                              request: FinalRequest)
    requires FinalCommit(config, s, p, history, request).Ok?
    ensures var commit := FinalCommit(config, s, p, history, request).value;
            && commit.state.IsValid() && commit.state.finalBenchmark == Some(commit.receipt)
            && commit.state.transaction.Some? && commit.state.transaction.value.IsAuthorizedAt(PhaseThreeComplete)
            && commit.receipt.IsValidForTransaction(commit.state.transaction.value)
            && FpsStateMatches(commit.state, commit.receipt)
            && commit.receipt.Capture() == request.capture && commit.receipt.receiptId == request.receiptId
            && commit.receipt.capturedUtc == request.capturedUtc
            && commit.history == Appended(history, RecordFor(commit.receipt))
            && RunEvidenceIsValid(history) && !HasCollision(history, commit.receipt.receiptId, commit.receipt.transactionId)
            && RecordFor(commit.receipt).EvidenceIsValid()
  {
    NotRefusedMeans(p.IsCompleted(PHASE_THREE_DRIVER_INSTALL), FinalStageIsReady(p), config, s, history, request);
    UnrefusedCommitIsBound(config, s, p, history, request);
  }

  lemma CommittedHistoryReadsBack(history: seq<BenchmarkRecord>, receipt: FinalBenchmarkReceipt)
    requires RunEvidenceIsValid(history) && RecordFor(receipt).EvidenceIsValid()
    requires !HasCollision(history, receipt.receiptId, receipt.transactionId)
    ensures var next := Appended(history, RecordFor(receipt));
            && RunEvidenceIsValid(next) && |next| <= MAX_BENCHMARK_HISTORY
            && next != [] && receipt.MatchesHistoryRecord(next[|next| - 1])
            && SharingIdentity(receipt, next) == [RecordFor(receipt)]
  {
    var record := RecordFor(receipt);
    AppendedKeepsASuffix(history, record);
    OnlyTheNewRecordShares(receipt, history);
    forall r | r in Appended(history, record) ensures r.EvidenceIsValid() {
      assert r in history || r == record;
    }
  }

  /** Readback is exact: nothing but a completed bundle with one coherent record passes. */
  lemma ReadbackMeansComplete(s: State, p: Progress, history: seq<BenchmarkRecord>)
    requires ValidatePersistedFinalBenchmark(s, p, history).Ok?
    ensures var receipt := ValidatePersistedFinalBenchmark(s, p, history).value;
            && s.finalBenchmark == Some(receipt)
            && s.transaction.Some? && s.transaction.value.IsAuthorizedAt(PhaseThreeComplete)
            && p.IsCompleted(PHASE_THREE_DRIVER_INSTALL) && p.IsCompleted(PHASE_THREE_FINAL_BENCHMARK)
            && RecordFor(receipt) in history
            && forall r <- history :: receipt.SharesIdentityWith(r) ==> r == RecordFor(receipt)
  {
    var receipt := ValidatePersistedFinalBenchmark(s, p, history).value;
    var matching := SharingIdentity(receipt, history);
    SharingIdentityMembers(receipt, history);
    MatchIsTheRecord(receipt, matching[0]);
    assert matching == [matching[0]];
    assert matching[0] in matching;
  }

  lemma MatchIsTheRecord(receipt: FinalBenchmarkReceipt, r: BenchmarkRecord)
    requires receipt.MatchesHistoryRecord(r)
    ensures r == RecordFor(receipt)
  {
  }

  lemma {:induction false} SharingIdentityMembers(receipt: FinalBenchmarkReceipt, history: seq<BenchmarkRecord>)
    ensures forall r :: r in SharingIdentity(receipt, history) <==> r in history && receipt.SharesIdentityWith(r)
  {
    if history != [] {
      SharingIdentityMembers(receipt, history[..|history| - 1]);
      assert history == history[..|history| - 1] + [history[|history| - 1]];
    }
  }
}
