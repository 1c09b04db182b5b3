/** Retrying an aggregate-only final benchmark from whatever crash prefix is on disk. */
module LegacyRetry {
  import opened Wrappers
  import opened Catalog
  import opened ProgressModel
  import opened Fps
  import opened Handoff
  import opened StateModel
  import opened Benchmark

  datatype RetryError =
    | RetryConfigInvalid
    | RetryHistoryInvalid
    | NoActiveTransaction
    | CapNotSupported
    | ConflictingPrefixes
    | NoPrefix
    | ReceiptPrefixDiffers
    | HistoryPrefixDiffers
    | PrefixesDisagree
    | CommitRefused(cause: FinalError)

  /** A record that belongs to some final benchmark. */
  predicate IsFinalRecord(r: BenchmarkRecord) {
    r.recordLabel == FINAL_BENCHMARK_LABEL || r.receiptId.Some? || r.transactionId.Some?
  }

  function FinalIndices(history: seq<BenchmarkRecord>): (indices: seq<nat>)
    ensures forall j :: 0 <= j < |indices| ==> indices[j] < |history| && IsFinalRecord(history[indices[j]])
  {
    if history == [] then []
    else
      var n := |history| - 1;
      FinalIndices(history[..n]) + (if IsFinalRecord(history[n]) then [n] else [])
  }

  predicate ReceiptPrefixMatches(s: State, receipt: FinalBenchmarkReceipt, transactionId: string,
                                 capture: BenchmarkCapture, cap: nat)
  {
    && receipt.IsValid()
    && receipt.Capture() == capture
    && FpsStateMatches(s, receipt)
    && receipt.transactionId == transactionId
    && receipt.fpsCap == cap
    && receipt.runEvidence.None?
    && s.transaction.Some? && s.transaction.value.stage == PhaseThreeComplete
  }

  predicate HistoryPrefixMatches(r: BenchmarkRecord, transactionId: string, capture: BenchmarkCapture) {
    && r.runEvidence.None?
    && r.receiptId.Some?
    && r.transactionId == Some(transactionId)
    && r.Capture() == capture
    && r.recordLabel == FINAL_BENCHMARK_LABEL
  }

  function Without(history: seq<BenchmarkRecord>, i: nat): seq<BenchmarkRecord>
    requires i < |history|
  {
    history[..i] + history[i + 1..]
  }

  /** The first failing check of the prefixes, in the source's order. */
  function PrefixRefusal(s: State, history: seq<BenchmarkRecord>, transactionId: string,
                         capture: BenchmarkCapture, cap: nat): Option<RetryError>
  {
    var indices := FinalIndices(history);
    var receipt := s.finalBenchmark;
    if |indices| > 1 then Some(ConflictingPrefixes)
    else if indices == [] && receipt.None? then Some(NoPrefix)
    else if receipt.Some? && !ReceiptPrefixMatches(s, receipt.value, transactionId, capture, cap) then Some(ReceiptPrefixDiffers)
    else if indices != [] && !HistoryPrefixMatches(history[indices[0]], transactionId, capture) then Some(HistoryPrefixDiffers)
    else if indices != [] && receipt.Some? && !receipt.value.MatchesHistoryRecord(history[indices[0]]) then Some(PrefixesDisagree)
    else None
  }

  /** The receipt's state before it was written: no receipt, Phase 3 armed again. */
  function WithoutReceipt(s: State): State {
    if s.finalBenchmark.Some? && s.transaction.Some? then
      s.(finalBenchmark := None, transaction := Some(s.transaction.value.(stage := PhaseThreeArmed)))
    else s
  }

  function ReusedRequest(s: State, history: seq<BenchmarkRecord>, capture: BenchmarkCapture): FinalRequest
    requires s.finalBenchmark.Some? || (FinalIndices(history) != [] && history[FinalIndices(history)[0]].receiptId.Some?)
  {
    if s.finalBenchmark.Some? then
      FinalRequest(s.finalBenchmark.value.receiptId, s.finalBenchmark.value.capturedUtc, capture, None, true)
    else
      var r := history[FinalIndices(history)[0]];
      FinalRequest(r.receiptId.value, r.timestamp, capture, None, true)
  }

  function WithoutPrefix(history: seq<BenchmarkRecord>): seq<BenchmarkRecord> {
    if FinalIndices(history) == [] then history else Without(history, FinalIndices(history)[0])
  }

  function Lift(r: Result<FinalBenchmarkCommit, FinalError>): Result<FinalBenchmarkCommit, RetryError> {
    if r.Ok? then Ok(r.value) else Err(CommitRefused(r.error))
  }

  function LegacyRetryCommit(config: Config, s: State, p: Progress, history: seq<BenchmarkRecord>,
                             capture: BenchmarkCapture)
    : Result<FinalBenchmarkCommit, RetryError>
  {
    var cap := LegacyAggregateFpsCap(config.strategy, capture);
    if !config.valid then Err(RetryConfigInvalid)
    else if !HistoryIsValid(history) then Err(RetryHistoryInvalid)
    else if s.transaction.None? || s.transaction.value.transactionId.None? then Err(NoActiveTransaction)
    else if cap.None? then Err(CapNotSupported)
    else
      var refusal := PrefixRefusal(s, history, s.transaction.value.transactionId.value, capture, cap.value);
      if refusal.Some? then Err(refusal.value)
      else Lift(FinalCommit(config, WithoutReceipt(s), p, WithoutPrefix(history), ReusedRequest(s, history, capture)))
  }

  method CollectFinalIndices(history: seq<BenchmarkRecord>) returns (indices: seq<nat>)
    ensures indices == FinalIndices(history)
  {
    indices := [];
    var i := 0;
    while i < |history|
      invariant 0 <= i <= |history|
      invariant indices == FinalIndices(history[..i])
    {
      assert history[..i + 1][..i] == history[..i];
      if IsFinalRecord(history[i]) {
        indices := indices + [i];
      }
      i := i + 1;
    }
    assert history[..i] == history;
  }

  /** Edits clones back to what stood before the prefix was written. */
  method RecoverSource(s: State, history: seq<BenchmarkRecord>, indices: seq<nat>)
    returns (sourceState: State, sourceHistory: seq<BenchmarkRecord>)
    requires s.transaction.Some? && indices == FinalIndices(history)
    ensures sourceState == WithoutReceipt(s) && sourceHistory == WithoutPrefix(history)
  {
    sourceState := s;
    if s.finalBenchmark.Some? {
      sourceState := sourceState.(finalBenchmark := None);
      sourceState := sourceState.(transaction := Some(sourceState.transaction.value.(stage := PhaseThreeArmed)));
    }
    sourceHistory := history;
    if indices != [] {
      sourceHistory := sourceHistory[..indices[0]] + sourceHistory[indices[0] + 1..];
    }
  }

  /** Reproduces the commit after proving the supplied records hold that exact prefix. */
  method PrepareFinalBenchmarkLegacyRetry(config: Config, s: State, p: Progress, history: seq<BenchmarkRecord>,
                                          capture: BenchmarkCapture)
    returns (r: Result<FinalBenchmarkCommit, RetryError>)
    ensures r == LegacyRetryCommit(config, s, p, history, capture)
  {
    if !config.valid {
      return Err(RetryConfigInvalid);
    }
    if !HistoryIsValid(history) {
      return Err(RetryHistoryInvalid);
    }
    if s.transaction.None? || s.transaction.value.transactionId.None? {
      return Err(NoActiveTransaction);
    }
    var cap := LegacyAggregateFpsCap(config.strategy, capture);
    if cap.None? {
      return Err(CapNotSupported);
    }
    var indices := CollectFinalIndices(history);
    var refusal := PrefixRefusal(s, history, s.transaction.value.transactionId.value, capture, cap.value);
    if refusal.Some? {
      return Err(refusal.value);
    }
    var sourceState, sourceHistory := RecoverSource(s, history, indices);
    var commit := PrepareFinalBenchmarkCommit(config, sourceState, p, sourceHistory, ReusedRequest(s, history, capture));
    r := Lift(commit);
  }

  // ---------------------------------------------------------------------
  // Confluence
  // ---------------------------------------------------------------------

  predicate NoFinalRecord(history: seq<BenchmarkRecord>) {
    forall r <- history :: !IsFinalRecord(r)
  }

  lemma {:induction false} NoFinalNoIndex(history: seq<BenchmarkRecord>)
    requires NoFinalRecord(history)
    ensures FinalIndices(history) == []
  {
    if history != [] {
      assert history[|history| - 1] in history;
      assert forall r <- history[..|history| - 1] :: r in history;
      NoFinalNoIndex(history[..|history| - 1]);
    }
  }

  /** After a commit the only final record is the newest, and removing it leaves the retained rest. */
  lemma CommittedHistoryPrefix(history: seq<BenchmarkRecord>, record: BenchmarkRecord)
    requires NoFinalRecord(history) && IsFinalRecord(record)
    ensures var next := Appended(history, record);
            && next != []
            && FinalIndices(next) == [|next| - 1]
            && next[|next| - 1] == record
            && NoFinalRecord(WithoutPrefix(next))
            && (forall r <- WithoutPrefix(next) :: r in history)
            && (|history| <= MAX_BENCHMARK_HISTORY ==> Appended(WithoutPrefix(next), record) == next)
  {
    AppendedKeepsASuffix(history, record);
    var next := Appended(history, record);
    var n := |next| - 1;
    assert forall r <- next[..n] :: r in history;
    NoFinalNoIndex(next[..n]);
    assert FinalIndices(next) == [n];
    assert WithoutPrefix(next) == next[..n];
  }

  /** Stripping the receipt and committing it again writes the same state. */
  lemma StateIsReproduced(s: State, receipt: FinalBenchmarkReceipt)
    requires s.transaction.Some? && s.finalBenchmark.None? && s.transaction.value.stage == PhaseThreeArmed
    ensures StateWith(WithoutReceipt(StateWith(s, receipt)), receipt) == StateWith(s, receipt)
    ensures WithoutReceipt(s) == s
  {
  }

  /** The guards pass again from a bound state at the same stage and a history without final records. */
  lemma NotRefusedFrom(installed: bool, ready: bool, config: Config, s: State, history: seq<BenchmarkRecord>,
                       request: FinalRequest, t: State, other: seq<BenchmarkRecord>, legacyRetry: bool)
    requires RefusalGiven(installed, ready, config, s, history, request).None?
    requires t.transaction.Some? && t.transaction.value.IsAuthorizedAt(PhaseThreeArmed)
    requires t.IsValid() && t.finalBenchmark.None? && RunEvidenceIsValid(other) && NoFinalRecord(other)
    ensures RefusalGiven(installed, ready, config, t, other, request.(legacyRetry := legacyRetry)).None?
  {
    assert !HasCollision(other, request.receiptId, t.transaction.value.transactionId.value);
  }

  /** A commit depends on its history only through retention, evidence and collisions. */
  lemma SameCommitFrom(config: Config, s: State, p: Progress, history: seq<BenchmarkRecord>, request: FinalRequest,
                       t: State, other: seq<BenchmarkRecord>, legacyRetry: bool)
    requires FinalCommit(config, s, p, history, request).Ok?
    requires legacyRetry == request.legacyRetry || (legacyRetry && request.runEvidence.None?)
    requires var receipt := FinalCommit(config, s, p, history, request).value.receipt;
             && t.transaction.Some? && t.transaction.value.IsAuthorizedAt(PhaseThreeArmed)
             && t.transaction.value.transactionId == s.transaction.value.transactionId
             && t.IsValid() && t.finalBenchmark.None?
             && StateWith(t, receipt) == StateWith(s, receipt)
             && Appended(other, RecordFor(receipt)) == Appended(history, RecordFor(receipt))
    requires RunEvidenceIsValid(other) && NoFinalRecord(other)
    ensures FinalCommit(config, t, p, other, request.(legacyRetry := legacyRetry)) == FinalCommit(config, s, p, history, request)
  {
    NotRefusedFrom(p.IsCompleted(PHASE_THREE_DRIVER_INSTALL), FinalStageIsReady(p), config, s, history, request,
                   t, other, legacyRetry);
  }

  /**
   * An aggregate-only commit is rebuilt exactly from each crash prefix of its
   * writes, also when the history was full and its oldest record fell out; from
   * nothing written the retry is refused.
   */
  lemma FinalCrashConfluence(config: Config, s: State, p: Progress, history: seq<BenchmarkRecord>,
                             request: FinalRequest)
    requires FinalCommit(config, s, p, history, request).Ok? && request.runEvidence.None?
    requires HistoryIsValid(history) && NoFinalRecord(history)
    ensures var c := FinalCommit(config, s, p, history, request).value;
            && LegacyRetryCommit(config, s, p, c.history, request.capture) == Ok(c)
            && LegacyRetryCommit(config, c.state, p, c.history, request.capture) == Ok(c)
            && LegacyRetryCommit(config, c.state, p, history, request.capture) == Ok(c)
            && LegacyRetryCommit(config, s, p, history, request.capture) == Err(NoPrefix)
  {
    NoFinalNoIndex(history);
    ReceiptCarriesRequest(config, s, p, history, request);
    AppendedHistoryIsValid(history, RecordFor(FinalCommit(config, s, p, history, request).value.receipt));
    RetryWithHistory(config, s, p, history, request);
    RetryWithState(config, s, p, history, request, history);
    RetryWithState(config, s, p, history, request, FinalCommit(config, s, p, history, request).value.history);
    assert PrefixRefusal(s, history, s.transaction.value.transactionId.value, request.capture, 0) == Some(NoPrefix);
  }

  /** The aggregate cap of the retry is the one the commit granted. */
  lemma SameAggregateCap(config: Config, s: State, p: Progress, history: seq<BenchmarkRecord>, request: FinalRequest)
    requires FinalCommit(config, s, p, history, request).Ok? && request.runEvidence.None?
    ensures LegacyAggregateFpsCap(config.strategy, request.capture) == Some(FinalCommit(config, s, p, history, request).value.receipt.fpsCap)
  {
  }

  lemma RetryWithHistory(config: Config, s: State, p: Progress, history: seq<BenchmarkRecord>, request: FinalRequest)
    requires FinalCommit(config, s, p, history, request).Ok? && request.runEvidence.None?
    requires |history| <= MAX_BENCHMARK_HISTORY && NoFinalRecord(history)
    requires HistoryIsValid(FinalCommit(config, s, p, history, request).value.history)
    ensures var c := FinalCommit(config, s, p, history, request).value;
            LegacyRetryCommit(config, s, p, c.history, request.capture) == Ok(c)
  {
    var c := FinalCommit(config, s, p, history, request).value;
    var record := RecordFor(c.receipt);
    CommittedHistoryPrefix(history, record);
    SameAggregateCap(config, s, p, history, request);
    StateIsReproduced(s, c.receipt);
    SameCommitFrom(config, s, p, history, request, s, WithoutPrefix(c.history), true);
    ReceiptCarriesRequest(config, s, p, history, request);
    RecordIsAccepted(s, c.history, c.receipt, c.receipt.fpsCap);
    assert request.(legacyRetry := true)
           == FinalRequest(c.receipt.receiptId, c.receipt.capturedUtc, c.receipt.Capture(), None, true);
    RetryUnfolds(config, s, p, c.history, request.capture, c.receipt.fpsCap);
  }

  /** With no check failing, a retry is the commit from the recovered source. */
  lemma RetryUnfolds(config: Config, s: State, p: Progress, history: seq<BenchmarkRecord>, capture: BenchmarkCapture,
                     cap: nat)
    requires config.valid && HistoryIsValid(history)
    requires s.transaction.Some? && s.transaction.value.transactionId.Some?
    requires LegacyAggregateFpsCap(config.strategy, capture) == Some(cap)
    requires PrefixRefusal(s, history, s.transaction.value.transactionId.value, capture, cap).None?
    ensures LegacyRetryCommit(config, s, p, history, capture)
              == Lift(FinalCommit(config, WithoutReceipt(s), p, WithoutPrefix(history), ReusedRequest(s, history, capture)))
  {
  }

  /** With only the history written, its new record passes as the prefix and gives the request back. */
  lemma RecordIsAccepted(s: State, history: seq<BenchmarkRecord>, receipt: FinalBenchmarkReceipt, cap: nat)
    requires |FinalIndices(history)| == 1 && history[FinalIndices(history)[0]] == RecordFor(receipt)
    requires s.finalBenchmark.None? && receipt.runEvidence.None? && receipt.receiptLabel == FINAL_BENCHMARK_LABEL
    ensures PrefixRefusal(s, history, receipt.transactionId, receipt.Capture(), cap).None?
    ensures ReusedRequest(s, history, receipt.Capture())
              == FinalRequest(receipt.receiptId, receipt.capturedUtc, receipt.Capture(), None, true)
  {
    assert HistoryPrefixMatches(RecordFor(receipt), receipt.transactionId, receipt.Capture());
  }

  /** A commit's receipt carries its request. */
  lemma ReceiptCarriesRequest(config: Config, s: State, p: Progress, history: seq<BenchmarkRecord>,
                              request: FinalRequest)
    requires FinalCommit(config, s, p, history, request).Ok?
    ensures var receipt := FinalCommit(config, s, p, history, request).value.receipt;
            && receipt.Capture() == request.capture && receipt.runEvidence == request.runEvidence
            && receipt.receiptId == request.receiptId && receipt.capturedUtc == request.capturedUtc
            && receipt.receiptLabel == FINAL_BENCHMARK_LABEL && receipt.IsValid()
            && s.finalBenchmark.None? && s.transaction.Some?
            && s.transaction.value.transactionId == Some(receipt.transactionId) && config.valid
  {
  }

  lemma DiskPrefix(history: seq<BenchmarkRecord>, record: BenchmarkRecord, disk: seq<BenchmarkRecord>)
    requires |history| <= MAX_BENCHMARK_HISTORY && NoFinalRecord(history) && IsFinalRecord(record)
    requires (disk == history || disk == Appended(history, record)) && HistoryIsValid(disk)
    ensures |FinalIndices(disk)| <= 1
    ensures FinalIndices(disk) != [] ==> disk[FinalIndices(disk)[0]] == record
    ensures NoFinalRecord(WithoutPrefix(disk)) && RunEvidenceIsValid(WithoutPrefix(disk))
    ensures Appended(WithoutPrefix(disk), record) == Appended(history, record)
  {
    CommittedHistoryPrefix(history, record);
    NoFinalNoIndex(history);
    assert forall r <- WithoutPrefix(disk) :: r in disk;
  }

  /** The written state passes as the prefix, with the new record beside it or not. */
  lemma StateIsAccepted(s: State, disk: seq<BenchmarkRecord>, receipt: FinalBenchmarkReceipt)
    requires |FinalIndices(disk)| <= 1
    requires FinalIndices(disk) != [] ==> disk[FinalIndices(disk)[0]] == RecordFor(receipt)
    requires s.finalBenchmark == Some(receipt) && receipt.IsValid() && receipt.runEvidence.None?
    requires FpsStateMatches(s, receipt) && s.transaction.Some? && s.transaction.value.stage == PhaseThreeComplete
    ensures PrefixRefusal(s, disk, receipt.transactionId, receipt.Capture(), receipt.fpsCap).None?
    ensures ReusedRequest(s, disk, receipt.Capture())
              == FinalRequest(receipt.receiptId, receipt.capturedUtc, receipt.Capture(), None, true)
  {
    assert FinalIndices(disk) != [] ==> HistoryPrefixMatches(RecordFor(receipt), receipt.transactionId, receipt.Capture());
  }

  /** From the written state, with the history written or not, the same source is recovered. */
  lemma RetryWithState(config: Config, s: State, p: Progress, history: seq<BenchmarkRecord>, request: FinalRequest,
                       disk: seq<BenchmarkRecord>)
    requires FinalCommit(config, s, p, history, request).Ok? && request.runEvidence.None?
    requires |history| <= MAX_BENCHMARK_HISTORY && NoFinalRecord(history) && HistoryIsValid(disk)
    requires disk == history || disk == FinalCommit(config, s, p, history, request).value.history
    ensures var c := FinalCommit(config, s, p, history, request).value;
            LegacyRetryCommit(config, c.state, p, disk, request.capture) == Ok(c)
  {
    var c := FinalCommit(config, s, p, history, request).value;
    DiskPrefix(history, RecordFor(c.receipt), disk);
    ReceiptCarriesRequest(config, s, p, history, request);
    StateIsAccepted(c.state, disk, c.receipt);
    SameAggregateCap(config, s, p, history, request);
    StateIsReproduced(s, c.receipt);
    var t := WithoutReceipt(c.state);
    assert t.IsValid();
    SameCommitFrom(config, s, p, history, request, t, WithoutPrefix(disk), true);
    RetryUnfolds(config, c.state, p, disk, request.capture, c.receipt.fpsCap);
    assert request.(legacyRetry := true)
           == FinalRequest(c.receipt.receiptId, c.receipt.capturedUtc, c.receipt.Capture(), None, true);
  }

  // ---------------------------------------------------------------------
  // Nothing but an exact prefix is retried
  // ---------------------------------------------------------------------

  /** The collected indices are those of the final records, each once and in order. */
  lemma {:induction false} FinalIndicesAreExact(history: seq<BenchmarkRecord>)
    ensures forall i: nat :: i in FinalIndices(history) <==> i < |history| && IsFinalRecord(history[i])
    ensures forall j, k :: 0 <= j < k < |FinalIndices(history)| ==> FinalIndices(history)[j] < FinalIndices(history)[k]
  {
    if history != [] {
      FinalIndicesAreExact(history[..|history| - 1]);
    }
  }

  /** The final records of a history are at most one, the receipt's. */
  predicate HoldsAtMost(history: seq<BenchmarkRecord>, receipt: FinalBenchmarkReceipt) {
    && (forall r <- history ::
          r.recordLabel == "After all optimizations" || r.receiptId.Some? || r.transactionId.Some? ==>
            r == BenchmarkRecord(receipt.capturedUtc, receipt.avgFps, receipt.p1Fps, "After all optimizations", receipt.runs,
                                 receipt.runEvidence, Some(receipt.receiptId), Some(receipt.transactionId)))
    && forall i, j :: 0 <= i < j < |history| ==> !IsFinalRecord(history[i]) || !IsFinalRecord(history[j])
  }

  /** The state holds no receipt, or all the commit writes but the time of its transaction. */
  predicate HoldsAtMostTheState(s: State, commit: FinalBenchmarkCommit) {
    s.finalBenchmark.Some? ==>
      && s.transaction.Some?
      && s.(transaction := Some(s.transaction.value.(updatedUtc := Some(commit.receipt.capturedUtc)))) == commit.state
  }

  lemma PassedPrefixes(s: State, history: seq<BenchmarkRecord>, transactionId: string, capture: BenchmarkCapture, cap: nat)
    requires PrefixRefusal(s, history, transactionId, capture, cap).None?
    ensures var indices := FinalIndices(history);
            && |indices| <= 1 && (indices != [] || s.finalBenchmark.Some?)
            && (s.finalBenchmark.Some? ==> ReceiptPrefixMatches(s, s.finalBenchmark.value, transactionId, capture, cap))
            && (indices != [] ==> HistoryPrefixMatches(history[indices[0]], transactionId, capture))
            && (indices != [] && s.finalBenchmark.Some? ==> s.finalBenchmark.value.MatchesHistoryRecord(history[indices[0]]))
  {
  }

  lemma AtMostOne(history: seq<BenchmarkRecord>, record: BenchmarkRecord)
    requires |FinalIndices(history)| <= 1
    requires FinalIndices(history) != [] ==> history[FinalIndices(history)[0]] == record
    ensures forall r <- history :: IsFinalRecord(r) ==> r == record
    ensures forall i, j :: 0 <= i < j < |history| ==> !IsFinalRecord(history[i]) || !IsFinalRecord(history[j])
  {
    FinalIndicesAreExact(history);
    forall i | 0 <= i < |history| && IsFinalRecord(history[i])
      ensures FinalIndices(history) == [i]
    {
      assert i in FinalIndices(history);
    }
  }

  lemma PrefixGivesTheReceipt(config: Config, s: State, p: Progress, history: seq<BenchmarkRecord>, capture: BenchmarkCapture,
                              cap: nat)
    requires s.transaction.Some? && s.transaction.value.transactionId.Some?
    requires LegacyAggregateFpsCap(config.strategy, capture) == Some(cap)
    requires PrefixRefusal(s, history, s.transaction.value.transactionId.value, capture, cap).None?
    requires FinalCommit(config, WithoutReceipt(s), p, WithoutPrefix(history), ReusedRequest(s, history, capture)).Ok?
    ensures var c := FinalCommit(config, WithoutReceipt(s), p, WithoutPrefix(history), ReusedRequest(s, history, capture)).value;
            && c.receipt.Capture() == capture && c.receipt.runEvidence.None? && c.receipt.receiptLabel == FINAL_BENCHMARK_LABEL
            && s.transaction.value.transactionId == Some(c.receipt.transactionId) && c.receipt.fpsCap == cap
            && (s.finalBenchmark.Some? ==> s.finalBenchmark == Some(c.receipt))
            && (FinalIndices(history) != [] ==> history[FinalIndices(history)[0]] == RecordFor(c.receipt))
  {
    var request := ReusedRequest(s, history, capture);
    PassedPrefixes(s, history, s.transaction.value.transactionId.value, capture, cap);
    ReceiptCarriesRequest(config, WithoutReceipt(s), p, WithoutPrefix(history), request);
    SameAggregateCap(config, WithoutReceipt(s), p, WithoutPrefix(history), request);
  }

  /** The receipt's fields that a matched state already holds, and its stage. */
  lemma StateIsKept(s: State, receipt: FinalBenchmarkReceipt, c: FinalBenchmarkCommit)
    requires s.finalBenchmark == Some(receipt) && FpsStateMatches(s, receipt)
    requires s.transaction.Some? && s.transaction.value.stage == PhaseThreeComplete
    requires c.receipt == receipt && c.state == StateWith(WithoutReceipt(s), receipt)
    ensures HoldsAtMostTheState(s, c)
  {
  }

  lemma CommitWritesState(config: Config, s: State, p: Progress, history: seq<BenchmarkRecord>, request: FinalRequest)
    requires FinalCommit(config, s, p, history, request).Ok?
    ensures s.transaction.Some?
    ensures var c := FinalCommit(config, s, p, history, request).value;
            c.state == StateWith(s, c.receipt) && c.history == Appended(history, RecordFor(c.receipt))
  {
  }

  lemma RetryIsACommit(config: Config, s: State, p: Progress, history: seq<BenchmarkRecord>, capture: BenchmarkCapture)
    requires LegacyRetryCommit(config, s, p, history, capture).Ok?
    ensures var c := LegacyRetryCommit(config, s, p, history, capture).value;
            && c.receipt.receiptLabel == FINAL_BENCHMARK_LABEL
            && c.state == StateWith(WithoutReceipt(s), c.receipt)
            && c.history == Appended(WithoutPrefix(history), RecordFor(c.receipt))
  {
    var cap := LegacyAggregateFpsCap(config.strategy, capture).value;
    RetryUnfolds(config, s, p, history, capture, cap);
    CommitWritesState(config, WithoutReceipt(s), p, WithoutPrefix(history), ReusedRequest(s, history, capture));
    ReceiptCarriesRequest(config, WithoutReceipt(s), p, WithoutPrefix(history), ReusedRequest(s, history, capture));
  }

  /**
   * A retry that succeeds found an exact prefix of what it commits: the state and the
   * history hold its receipt and record or nothing final at all, at least one of
   * them does, and completing them changes nothing that was written.
   */
  lemma OnlyAnExactPrefixIsRetried(config: Config, s: State, p: Progress, history: seq<BenchmarkRecord>,
                                   capture: BenchmarkCapture)
    requires LegacyRetryCommit(config, s, p, history, capture).Ok?
    ensures var c := LegacyRetryCommit(config, s, p, history, capture).value;
            && c.receipt.Capture() == capture && c.receipt.runEvidence.None?
            && HoldsAtMostTheState(s, c) && HoldsAtMost(history, c.receipt)
            && (s.finalBenchmark == Some(c.receipt) || (s.finalBenchmark.None? && RecordFor(c.receipt) in history))
            && c.history == Appended(WithoutPrefix(history), RecordFor(c.receipt))
  {
    var c := LegacyRetryCommit(config, s, p, history, capture).value;
    var cap := LegacyAggregateFpsCap(config.strategy, capture).value;
    var request := ReusedRequest(s, history, capture);
    RetryUnfolds(config, s, p, history, capture, cap);
    assert FinalCommit(config, WithoutReceipt(s), p, WithoutPrefix(history), request) == Ok(c);
    PrefixGivesTheReceipt(config, s, p, history, capture, cap);
    PassedPrefixes(s, history, s.transaction.value.transactionId.value, capture, cap);
    CommitWritesState(config, WithoutReceipt(s), p, WithoutPrefix(history), request);
    AtMostOne(history, RecordFor(c.receipt));
    if s.finalBenchmark.Some? {
      StateIsKept(s, c.receipt, c);
    }
  }
}
