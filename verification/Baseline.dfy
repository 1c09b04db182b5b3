/** The P1:17 baseline: three files written history, state, progress; crashes in between. */
module Baseline {
  import opened Wrappers
  import opened Catalog
  import opened ProgressModel
  import opened Fps
  import opened StateModel
  import opened Benchmark
  import Text

  datatype BaselineCommit = BaselineCommit(
    state: State, progress: Progress, history: seq<BenchmarkRecord>, capturedUtc: string, idempotent: bool)

  datatype BaselineError =
    | InputStateInvalid
    | HistoryInvalid
    | CaptureIncomplete
    | TimestampInvalid
    | EvidenceMismatch
    | BaselineSkipped
    | BaselineDuplicated
    | ConflictsWithHistory
    | StateWithoutHistory
    | ConflictsWithState
    | ProgressPrecedesState
    | PersistedIncoherent
    | TargetStateInvalid

  function BaselineRecords(history: seq<BenchmarkRecord>): seq<BenchmarkRecord> {
    if history == [] then []
    else
      var last := history[|history| - 1];
      BaselineRecords(history[..|history| - 1]) + (if last.recordLabel == BASELINE_BENCHMARK_LABEL then [last] else [])
  }

  predicate RecordMatchesCapture(r: BenchmarkRecord, capture: BenchmarkCapture,
                                 evidence: Option<BenchmarkRunEvidence>)
  {
    && r.Capture() == capture
    && r.receiptId.None? && r.transactionId.None?
    && (r.runEvidence.Some? ==> r.runEvidence == evidence)
  }

  predicate HasBaseline(s: State) {
    s.baselineAvg > 0.0 || s.baselineP1.Some?
  }

  function BaselineRecordFor(timestamp: string, capture: BenchmarkCapture,
                             evidence: Option<BenchmarkRunEvidence>): BenchmarkRecord
  {
    BenchmarkRecord(timestamp, capture.averageFps, capture.p1Fps, BASELINE_BENCHMARK_LABEL, capture.runs, evidence, None, None)
  }

  function StateWithBaseline(s: State, capture: BenchmarkCapture): State {
    s.(baselineAvg := capture.averageFps, baselineP1 := Some(capture.p1Fps))
  }

  // ---------------------------------------------------------------------
  // Readback
  // ---------------------------------------------------------------------

  /** The records that could stand for the persisted baseline of the state. */
  function CoherentRecords(s: State, history: seq<BenchmarkRecord>): seq<BenchmarkRecord> {
    if history == [] then []
    else
      var last := history[|history| - 1];
      CoherentRecords(s, history[..|history| - 1]) + (if IsCoherentRecord(s, last) then [last] else [])
  }

  predicate IsCoherentRecord(s: State, r: BenchmarkRecord) {
    && r.recordLabel == BASELINE_BENCHMARK_LABEL
    && r.avgFps == s.baselineAvg
    && r.p1Fps == BaselineP1(s)
    && r.runs > 0
    && r.receiptId.None? && r.transactionId.None?
  }

  function BaselineP1(s: State): real {
    if s.baselineP1.Some? then s.baselineP1.value else 0.0
  }

  function ValidatePersistedBaseline(s: State, p: Progress, history: seq<BenchmarkRecord>)
    : Result<BenchmarkRecord, BaselineError>
  {
    if !s.IsValid() then Err(InputStateInvalid)
    else if !HistoryIsValid(history) then Err(HistoryInvalid)
    else if !(s.baselineAvg > 0.0 && 0.0 < BaselineP1(s) <= s.baselineAvg) then Err(PersistedIncoherent)
    else if !p.IsCompleted(PHASE_ONE_BASELINE_BENCHMARK) || p.IsSkipped(PHASE_ONE_BASELINE_BENCHMARK) then Err(PersistedIncoherent)
    else
      var matching := CoherentRecords(s, history);
      if |matching| != 1 || !("1-17" in p.timestamps && p.timestamps["1-17"] == matching[0].timestamp)
      then Err(PersistedIncoherent)
      else Ok(matching[0])
  }

  // ---------------------------------------------------------------------
  // The commit
  // ---------------------------------------------------------------------

  function InputRefusal(s: State, history: seq<BenchmarkRecord>, timestamp: string,
                        capture: BenchmarkCapture): Option<BaselineError>
  {
    if !s.IsValid() then Some(InputStateInvalid)
    else if !HistoryIsValid(history) then Some(HistoryInvalid)
    else if !CaptureIsComplete(capture) then Some(CaptureIncomplete)
    else if !ValidCaptureTimestamp(timestamp) then Some(TimestampInvalid)
    else None
  }

  /** The record an earlier, interrupted commit may have left behind. */
  function ExistingRecord(history: seq<BenchmarkRecord>): Option<BenchmarkRecord> {
    var records := BaselineRecords(history);
    if records == [] then None else Some(records[0])
  }

  function Conflict(s: State, p: Progress, history: seq<BenchmarkRecord>, capture: BenchmarkCapture,
                    evidence: Option<BenchmarkRunEvidence>): Option<BaselineError>
  {
    var existing := ExistingRecord(history);
    if evidence.Some? && !evidence.value.IsValidAgainst(capture) then Some(EvidenceMismatch)
    else if p.IsSkipped(PHASE_ONE_BASELINE_BENCHMARK) then Some(BaselineSkipped)
    else if |BaselineRecords(history)| > 1 then Some(BaselineDuplicated)
    else if existing.Some? && !RecordMatchesCapture(existing.value, capture, evidence) then Some(ConflictsWithHistory)
    else if HasBaseline(s) then
      if existing.None? then Some(StateWithoutHistory)
      else if s.baselineAvg != capture.averageFps || s.baselineP1 != Some(capture.p1Fps) then Some(ConflictsWithState)
      else None
    else if p.IsCompleted(PHASE_ONE_BASELINE_BENCHMARK) then Some(ProgressPrecedesState)
    else None
  }

  function BaselineTarget(s: State, p: Progress, history: seq<BenchmarkRecord>, timestamp: string,
                          capture: BenchmarkCapture,
                          evidence: Option<BenchmarkRunEvidence>): Result<BaselineCommit, BaselineError>
  {
    var refusal := InputRefusal(s, history, timestamp, capture);
    var conflict := Conflict(s, p, history, capture, evidence);
    var existing := ExistingRecord(history);
    if refusal.Some? then Err(refusal.value)
    else if conflict.Some? then Err(conflict.value)
    else if HasBaseline(s) && p.IsCompleted(PHASE_ONE_BASELINE_BENCHMARK) then
      var record :- ValidatePersistedBaseline(s, p, history);
      Ok(BaselineCommit(s, p, history, existing.value.timestamp, true))
    else
      var at := if existing.Some? then existing.value.timestamp else timestamp;
      if !StateWithBaseline(s, capture).IsValid() then Err(TargetStateInvalid)
      else
        Ok(BaselineCommit(
          StateWithBaseline(s, capture),
          Completing(p, PHASE_ONE_BASELINE_BENCHMARK, at),
          if existing.Some? then history else Appended(history, BaselineRecordFor(at, capture, evidence)),
          at,
          false))
  }

  /** The state holds no baseline yet, or exactly this capture's. */
  predicate StateFits(s: State, capture: BenchmarkCapture) {
    || (s.baselineAvg <= 0.0 && s.baselineP1.None?)
    || (s.baselineAvg == capture.averageFps && s.baselineP1 == Some(capture.p1Fps))
  }

  /** The last refusal cannot occur: a complete capture keeps a valid state valid. */
  lemma TargetStateIsValid(s: State, capture: BenchmarkCapture)
    ensures s.IsValid() && CaptureIsComplete(capture) ==> StateWithBaseline(s, capture).IsValid()
  {
  }

  /**
   * Exactly when a baseline is committed: valid input, a complete capture, P1:17 not
   * skipped, at most one baseline record and that of this capture, no state or
   * progress ahead of the record, and a readable bundle if all is written already.
   */
  lemma CommittedExactly(s: State, p: Progress, history: seq<BenchmarkRecord>, timestamp: string, capture: BenchmarkCapture,
                         evidence: Option<BenchmarkRunEvidence>)
    ensures BaselineTarget(s, p, history, timestamp, capture, evidence).Ok? <==>
              && s.IsValid() && |history| <= 200 && (forall r <- history :: r.IsValid())
              && capture.averageFps > 0.0 && 0.0 < capture.p1Fps <= capture.averageFps && capture.runs > 0
              && ValidCaptureTimestamp(timestamp)
              && (evidence.Some? ==> evidence.value.IsValid() && evidence.value.Aggregate() == capture)
              && !p.IsSkipped(StepId(One, 17))
              && |BaselineRecords(history)| <= 1
              && (forall r <- BaselineRecords(history) ::
                    r.Capture() == capture && r.receiptId.None? && r.transactionId.None?
                    && (r.runEvidence.Some? ==> r.runEvidence == evidence))
              && StateFits(s, capture)
              && (HasBaseline(s) ==> BaselineRecords(history) != [])
              && (p.IsCompleted(StepId(One, 17)) ==> HasBaseline(s) && ValidatePersistedBaseline(s, p, history).Ok?)
  {
    TargetStateIsValid(s, capture);
    var records := BaselineRecords(history);
    if records != [] {
      assert records[0] in records;
      assert |records| <= 1 ==> forall r <- records :: r == records[0];
    }
  }

  method CollectBaselineRecords(history: seq<BenchmarkRecord>) returns (matching: seq<BenchmarkRecord>)
    ensures matching == BaselineRecords(history)
  {
    matching := [];
    var i := 0;
    while i < |history|
      invariant 0 <= i <= |history|
      invariant matching == BaselineRecords(history[..i])
    {
      assert history[..i + 1][..i] == history[..i];
      if history[i].recordLabel == BASELINE_BENCHMARK_LABEL {
        matching := matching + [history[i]];
      }
      i := i + 1;
    }
    assert history[..i] == history;
  }

  /** Pushes a record and drops the oldest ones over the limit. */
  method AppendBounded(history: seq<BenchmarkRecord>, r: BenchmarkRecord) returns (nextHistory: seq<BenchmarkRecord>)
    ensures nextHistory == Appended(history, r)
  {
    nextHistory := history + [r];
    if |nextHistory| > MAX_BENCHMARK_HISTORY {
      nextHistory := nextHistory[|nextHistory| - MAX_BENCHMARK_HISTORY..];
    }
  }

  /** Prepares the baseline on cloned values; an exact retry repairs a crash prefix. */
  method PrepareBaselineBenchmarkCommit(s: State, p: Progress, history: seq<BenchmarkRecord>, timestamp: string,
                                        capture: BenchmarkCapture, evidence: Option<BenchmarkRunEvidence>)
    returns (r: Result<BaselineCommit, BaselineError>)
    ensures r == BaselineTarget(s, p, history, timestamp, capture, evidence)
  {
    var refusal := InputRefusal(s, history, timestamp, capture);
    if refusal.Some? {
      return Err(refusal.value);
    }
    var matching := CollectBaselineRecords(history);
    var conflict := Conflict(s, p, history, capture, evidence);
    if conflict.Some? {
      return Err(conflict.value);
    }
    if HasBaseline(s) && p.IsCompleted(PHASE_ONE_BASELINE_BENCHMARK) {
      var readback := ValidatePersistedBaseline(s, p, history);
      if readback.Err? {
        return Err(readback.error);
      }
      return Ok(BaselineCommit(s, p, history, matching[0].timestamp, true));
    }
    var at := if matching == [] then timestamp else matching[0].timestamp;
    var nextState := s;
    nextState := nextState.(baselineAvg := capture.averageFps);
    nextState := nextState.(baselineP1 := Some(capture.p1Fps));
    if !nextState.IsValid() {
      return Err(TargetStateInvalid);
    }
    var nextHistory := history;
    if matching == [] {
      nextHistory := AppendBounded(history, BaselineRecordFor(at, capture, evidence));
    }
    var nextProgress := new ProgressDraft(p);
    nextProgress.CompleteStep(PHASE_ONE_BASELINE_BENCHMARK, at);
    r := Ok(BaselineCommit(nextState, nextProgress.Value(), nextHistory, at, false));
  }

  // ---------------------------------------------------------------------
  // Facts about filtered histories
  // ---------------------------------------------------------------------

  lemma {:induction false} BaselineMembers(history: seq<BenchmarkRecord>)
    ensures forall r :: r in BaselineRecords(history) <==> r in history && r.recordLabel == BASELINE_BENCHMARK_LABEL
  {
    if history != [] {
      BaselineMembers(history[..|history| - 1]);
      assert history == history[..|history| - 1] + [history[|history| - 1]];
    }
  }

  lemma {:induction false} NoBaselineIsEmpty(history: seq<BenchmarkRecord>)
    requires forall r <- history :: r.recordLabel != BASELINE_BENCHMARK_LABEL
    ensures BaselineRecords(history) == []
  {
    BaselineMembers(history);
    assert BaselineRecords(history) != [] ==> BaselineRecords(history)[0] in BaselineRecords(history);
  }

  /** With one baseline record that is coherent, the coherent records are exactly it. */
  lemma {:induction false} CoherentAreBaselines(s: State, history: seq<BenchmarkRecord>)
    requires forall r <- BaselineRecords(history) :: IsCoherentRecord(s, r)
    ensures CoherentRecords(s, history) == BaselineRecords(history)
  {
    if history != [] {
      var front := history[..|history| - 1];
      assert forall r <- BaselineRecords(front) :: r in BaselineRecords(history);
      CoherentAreBaselines(s, front);
      var last := history[|history| - 1];
      assert last.recordLabel == BASELINE_BENCHMARK_LABEL ==> last in BaselineRecords(history);
    }
  }

  lemma NewBaselineIsOnly(history: seq<BenchmarkRecord>, record: BenchmarkRecord)
    requires BaselineRecords(history) == [] && record.recordLabel == BASELINE_BENCHMARK_LABEL
    ensures BaselineRecords(Appended(history, record)) == [record]
  {
    AppendedKeepsASuffix(history, record);
    var next := Appended(history, record);
    var front := next[..|next| - 1];
    BaselineMembers(history);
    forall r | r in front ensures r.recordLabel != BASELINE_BENCHMARK_LABEL {
      assert r in history;
    }
    NoBaselineIsEmpty(front);
  }

  lemma BaselineTimestampKey()
    ensures TimestampKey(PHASE_ONE_BASELINE_BENCHMARK) == "1-17"
  {
    assert Text.Decimal(1) == "1";
    assert Text.Decimal(17) == "1" + "7";
  }

  // ---------------------------------------------------------------------
  // Crash confluence
  // ---------------------------------------------------------------------

  lemma NewRecordIsValid(timestamp: string, capture: BenchmarkCapture, evidence: Option<BenchmarkRunEvidence>)
    requires CaptureIsComplete(capture) && ValidCaptureTimestamp(timestamp)
    requires evidence.Some? ==> evidence.value.IsValidAgainst(capture)
    ensures BaselineRecordFor(timestamp, capture, evidence).IsValid()
  {
  }

  /** What a commit leaves in the history: one matching, valid baseline record. */
  lemma CommitHistory(s: State, p: Progress, history: seq<BenchmarkRecord>, timestamp: string,
                      capture: BenchmarkCapture,
                      evidence: Option<BenchmarkRunEvidence>)
    requires BaselineTarget(s, p, history, timestamp, capture, evidence).Ok?
    ensures var c := BaselineTarget(s, p, history, timestamp, capture, evidence).value;
            && |BaselineRecords(c.history)| == 1
            && RecordMatchesCapture(BaselineRecords(c.history)[0], capture, evidence)
            && BaselineRecords(c.history)[0].timestamp == c.capturedUtc
            && HistoryIsValid(c.history)
  {
    if BaselineRecords(history) == [] {
      var record := BaselineRecordFor(timestamp, capture, evidence);
      NewBaselineIsOnly(history, record);
      NewRecordIsValid(timestamp, capture, evidence);
      AppendedHistoryIsValid(history, record);
      assert ExistingRecord(history).None?;
    } else {
      assert ExistingRecord(history) == Some(BaselineRecords(history)[0]);
    }
  }

  /** A successful commit always passes the readback that authorizes P1:17. */
  lemma CommitIsCoherent(s: State, p: Progress, history: seq<BenchmarkRecord>, timestamp: string,
                         capture: BenchmarkCapture,
                         evidence: Option<BenchmarkRunEvidence>)
    requires BaselineTarget(s, p, history, timestamp, capture, evidence).Ok?
    ensures var c := BaselineTarget(s, p, history, timestamp, capture, evidence).value;
            && ValidatePersistedBaseline(c.state, c.progress, c.history).Ok?
            && ValidatePersistedBaseline(c.state, c.progress, c.history).value.timestamp == c.capturedUtc
            && ValidatePersistedBaseline(c.state, c.progress, c.history).value.Capture() == capture
  {
    var c := BaselineTarget(s, p, history, timestamp, capture, evidence).value;
    CommitHistory(s, p, history, timestamp, capture, evidence);
    BaselineTimestampKey();
    var record := BaselineRecords(c.history)[0];
    BaselineMembers(c.history);
    assert record in BaselineRecords(c.history);
    assert IsCoherentRecord(c.state, record);
    forall r | r in BaselineRecords(c.history) ensures IsCoherentRecord(c.state, r) {
      assert r == record;
    }
    CoherentAreBaselines(c.state, c.history);
  }

  /** The retry of a capture from history written but neither or only the state written. */
  lemma RetryFromHistory(before: State, p: Progress, c: BaselineCommit, timestamp: string, capture: BenchmarkCapture,
                         evidence: Option<BenchmarkRunEvidence>)
    requires HistoryIsValid(c.history) && |BaselineRecords(c.history)| == 1
    requires RecordMatchesCapture(BaselineRecords(c.history)[0], capture, evidence)
    requires BaselineRecords(c.history)[0].timestamp == c.capturedUtc
    requires CaptureIsComplete(capture) && ValidCaptureTimestamp(timestamp)
    requires evidence.Some? ==> evidence.value.IsValidAgainst(capture)
    requires before.IsValid() && !p.IsSkipped(PHASE_ONE_BASELINE_BENCHMARK)
    requires !p.IsCompleted(PHASE_ONE_BASELINE_BENCHMARK)
    requires HasBaseline(before) ==> before == StateWithBaseline(before, capture)
    requires c.state == StateWithBaseline(before, capture) && c.state.IsValid()
    requires c.progress == Completing(p, PHASE_ONE_BASELINE_BENCHMARK, c.capturedUtc)
    ensures BaselineTarget(before, p, c.history, timestamp, capture, evidence) == Ok(c.(idempotent := false))
  {
    assert ExistingRecord(c.history) == Some(BaselineRecords(c.history)[0]);
    assert Conflict(before, p, c.history, capture, evidence).None?;
  }

  lemma SkippedKeyOfCommit(p: Progress, at: string)
    ensures var q := Completing(p, PHASE_ONE_BASELINE_BENCHMARK, at);
            q.IsCompleted(PHASE_ONE_BASELINE_BENCHMARK) && !q.IsSkipped(PHASE_ONE_BASELINE_BENCHMARK)
  {
  }

  /** What the record on disk asks of a retry: its numbers, and its evidence if it holds any. */
  predicate RetryAgrees(history: seq<BenchmarkRecord>, capture: BenchmarkCapture, evidence: Option<BenchmarkRunEvidence>) {
    && ExistingRecord(history).Some?
    && RecordMatchesCapture(ExistingRecord(history).value, capture, evidence)
    && (evidence.Some? ==> evidence.value.IsValidAgainst(capture))
  }

  lemma AgreeingRetry(s: State, p: Progress, history: seq<BenchmarkRecord>, timestamp: string, later: string,
                      capture: BenchmarkCapture, evidence: Option<BenchmarkRunEvidence>,
                      again: Option<BenchmarkRunEvidence>)
    requires BaselineTarget(s, p, history, timestamp, capture, evidence).Ok?
    requires ValidCaptureTimestamp(later)
    requires RetryAgrees(BaselineTarget(s, p, history, timestamp, capture, evidence).value.history, capture, again)
    ensures var c := BaselineTarget(s, p, history, timestamp, capture, evidence).value;
            && BaselineTarget(s, p, c.history, later, capture, again) == Ok(c)
            && BaselineTarget(c.state, p, c.history, later, capture, again) == Ok(c)
            && BaselineTarget(c.state, c.progress, c.history, later, capture, again) == Ok(c.(idempotent := true))
  {
    var c := BaselineTarget(s, p, history, timestamp, capture, evidence).value;
    CommitHistory(s, p, history, timestamp, capture, evidence);
    CommitIsCoherent(s, p, history, timestamp, capture, evidence);
    assert ExistingRecord(c.history) == Some(BaselineRecords(c.history)[0]);
    if c.idempotent {
      assert ExistingRecord(history) == ExistingRecord(c.history);
    } else {
      RetryFromHistory(s, p, c, later, capture, again);
      RetryFromHistory(c.state, p, c, later, capture, again);
      SkippedKeyOfCommit(p, c.capturedUtc);
      assert HasBaseline(c.state);
      assert Conflict(c.state, c.progress, c.history, capture, again).None?;
    }
  }

  /**
   * From every prefix of the writes history, state, progress, retrying the same
   * capture with any valid timestamp aims at the same three files; once all are
   * written the retry is flagged idempotent and changes nothing.
   */
  lemma BaselineCrashConfluence(s: State, p: Progress, history: seq<BenchmarkRecord>, timestamp: string, later: string,
                                capture: BenchmarkCapture, evidence: Option<BenchmarkRunEvidence>)
    requires BaselineTarget(s, p, history, timestamp, capture, evidence).Ok?
    requires ValidCaptureTimestamp(later)
    ensures var c := BaselineTarget(s, p, history, timestamp, capture, evidence).value;
            && BaselineTarget(s, p, c.history, later, capture, evidence) == Ok(c)
            && BaselineTarget(c.state, p, c.history, later, capture, evidence) == Ok(c)
            && BaselineTarget(c.state, c.progress, c.history, later, capture, evidence) == Ok(c.(idempotent := true))
  {
    CommitHistory(s, p, history, timestamp, capture, evidence);
    AgreeingRetry(s, p, history, timestamp, later, capture, evidence, evidence);
  }

  /**
   * Exactly which captures a prefix accepts: those with the numbers of the record,
   * and with its evidence if it holds any. All others are refused, whatever the
   * state and the progress.
   */
  lemma RetryIsExact(s: State, p: Progress, history: seq<BenchmarkRecord>, timestamp: string, later: string,
                     capture: BenchmarkCapture, evidence: Option<BenchmarkRunEvidence>,
                     other: BenchmarkCapture, otherEvidence: Option<BenchmarkRunEvidence>)
    requires BaselineTarget(s, p, history, timestamp, capture, evidence).Ok?
    requires ValidCaptureTimestamp(later)
    ensures var c := BaselineTarget(s, p, history, timestamp, capture, evidence).value;
            && (BaselineTarget(s, p, c.history, later, other, otherEvidence).Ok? <==> RetryAgrees(c.history, other, otherEvidence))
            && (BaselineTarget(c.state, p, c.history, later, other, otherEvidence).Ok? <==> RetryAgrees(c.history, other, otherEvidence))
            && (BaselineTarget(c.state, c.progress, c.history, later, other, otherEvidence).Ok?
                <==> RetryAgrees(c.history, other, otherEvidence))
  {
    var c := BaselineTarget(s, p, history, timestamp, capture, evidence).value;
    CommitHistory(s, p, history, timestamp, capture, evidence);
    assert ExistingRecord(c.history) == Some(BaselineRecords(c.history)[0]);
    if RetryAgrees(c.history, other, otherEvidence) {
      assert other == capture;
      AgreeingRetry(s, p, history, timestamp, later, capture, evidence, otherEvidence);
    } else {
      DisagreeingRetry(s, p, c.history, later, other, otherEvidence);
      DisagreeingRetry(c.state, p, c.history, later, other, otherEvidence);
      DisagreeingRetry(c.state, c.progress, c.history, later, other, otherEvidence);
    }
  }

  lemma DisagreeingRetry(anyState: State, anyProgress: Progress, history: seq<BenchmarkRecord>, later: string,
                         other: BenchmarkCapture, otherEvidence: Option<BenchmarkRunEvidence>)
    requires ExistingRecord(history).Some? && !RetryAgrees(history, other, otherEvidence)
    ensures BaselineTarget(anyState, anyProgress, history, later, other, otherEvidence).Err?
  {
    assert Conflict(anyState, anyProgress, history, other, otherEvidence).Some?;
  }

  /** Before anything is written the timestamp is still open: the retry agrees exactly when it is the same. */
  lemma RetryBeforeAnyWrite(s: State, p: Progress, history: seq<BenchmarkRecord>, timestamp: string, later: string,
                            capture: BenchmarkCapture, evidence: Option<BenchmarkRunEvidence>)
    requires BaselineTarget(s, p, history, timestamp, capture, evidence).Ok?
    requires ValidCaptureTimestamp(later)
    ensures BaselineTarget(s, p, history, later, capture, evidence) == BaselineTarget(s, p, history, timestamp, capture, evidence)
            <==> BaselineRecords(history) != [] || later == timestamp
  {
  }

  /** Once the history is written, a capture with other numbers or conflicting evidence is refused in any state. */
  lemma ConflictingCaptureIsRefused(s: State, p: Progress, history: seq<BenchmarkRecord>, timestamp: string,
                                    later: string,
                                    capture: BenchmarkCapture, evidence: Option<BenchmarkRunEvidence>,
                                    other: BenchmarkCapture, otherEvidence: Option<BenchmarkRunEvidence>,
                                    anyState: State, anyProgress: Progress)
    requires BaselineTarget(s, p, history, timestamp, capture, evidence).Ok?
    ensures var c := BaselineTarget(s, p, history, timestamp, capture, evidence).value;
            && ExistingRecord(c.history).Some?
            && (other != capture || !RetryAgrees(c.history, other, otherEvidence) ==>
                  BaselineTarget(anyState, anyProgress, c.history, later, other, otherEvidence).Err?)
  {
    var c := BaselineTarget(s, p, history, timestamp, capture, evidence).value;
    CommitHistory(s, p, history, timestamp, capture, evidence);
    assert ExistingRecord(c.history) == Some(BaselineRecords(c.history)[0]);
    if other != capture || !RetryAgrees(c.history, other, otherEvidence) {
      DisagreeingRetry(anyState, anyProgress, c.history, later, other, otherEvidence);
    }
  }

  // ---------------------------------------------------------------------
  // The baseline outlives later records
  // ---------------------------------------------------------------------

  lemma {:induction false} CoherentMembers(s: State, history: seq<BenchmarkRecord>)
    ensures forall r :: r in CoherentRecords(s, history) <==> r in history && IsCoherentRecord(s, r)
  {
    if history != [] {
      CoherentMembers(s, history[..|history| - 1]);
      assert history == history[..|history| - 1] + [history[|history| - 1]];
    }
  }

  lemma {:induction false} CoherentConcatenation(s: State, a: seq<BenchmarkRecord>, b: seq<BenchmarkRecord>)
    ensures CoherentRecords(s, a + b) == CoherentRecords(s, a) + CoherentRecords(s, b)
    decreases |b|
  {
    if b == [] {
      assert a + b == a;
    } else {
      var front := b[..|b| - 1];
      assert (a + b)[..|a + b| - 1] == a + front;
      CoherentConcatenation(s, a, front);
    }
  }

  /** Only the baseline fields of the state matter to the records. */
  lemma {:induction false} CoherenceReadsBaseline(s: State, t: State, history: seq<BenchmarkRecord>)
    requires s.baselineAvg == t.baselineAvg && s.baselineP1 == t.baselineP1
    ensures CoherentRecords(s, history) == CoherentRecords(t, history)
  {
    if history != [] {
      CoherenceReadsBaseline(s, t, history[..|history| - 1]);
    }
  }

  /** Records the baseline readback ignores. */
  predicate IsLater(r: BenchmarkRecord) {
    r.IsValid() && r.recordLabel != BASELINE_BENCHMARK_LABEL
  }

  function AppendAll(history: seq<BenchmarkRecord>, records: seq<BenchmarkRecord>): seq<BenchmarkRecord> {
    if records == [] then history
    else Appended(AppendAll(history, records[..|records| - 1]), records[|records| - 1])
  }

  lemma {:induction false} AppendAllRetainsNewest(history: seq<BenchmarkRecord>, records: seq<BenchmarkRecord>)
    requires |history| <= MAX_BENCHMARK_HISTORY
    ensures AppendAll(history, records) == Retained(history + records)
  {
    if records == [] {
      assert history + records == history;
    } else {
      var front, last := records[..|records| - 1], records[|records| - 1];
      AppendAllRetainsNewest(history, front);
      assert history + records == history + front + [last];
      RetainedTwice(history + front, last);
    }
  }

  lemma RetainedTwice(h: seq<BenchmarkRecord>, r: BenchmarkRecord)
    ensures Retained(Retained(h) + [r]) == Retained(h + [r])
  {
  }

  lemma NothingCoherent(s: State, history: seq<BenchmarkRecord>)
    requires forall r <- history :: !IsCoherentRecord(s, r)
    ensures CoherentRecords(s, history) == []
  {
    CoherentMembers(s, history);
    assert CoherentRecords(s, history) != [] ==> CoherentRecords(s, history)[0] in CoherentRecords(s, history);
  }

  lemma CoherentInSuffix(s: State, history: seq<BenchmarkRecord>, i: nat, k: nat)
    requires |CoherentRecords(s, history)| == 1 && i < |history| && IsCoherentRecord(s, history[i])
    requires k <= |history|
    ensures CoherentRecords(s, history[k..]) == if k <= i then [history[i]] else []
  {
    OneCoherent(s, history, i);
    if k <= i {
      assert history == history[..k] + history[k..];
      assert history[..i] == history[..k] + history[k..i];
      CoherentConcatenation(s, history[..k], history[k..]);
      CoherentConcatenation(s, history[..k], history[k..i]);
    } else {
      assert history[i + 1..][k - i - 1..] == history[k..];
      NoCoherentInside(s, history[i + 1..], k - i - 1);
    }
  }

  /** Cutting k records off the front keeps the single coherent record exactly when it lies behind the cut. */
  lemma CoherentBehindTheCut(s: State, history: seq<BenchmarkRecord>, records: seq<BenchmarkRecord>, i: nat, k: nat)
    requires |CoherentRecords(s, history)| == 1 && i < |history| && IsCoherentRecord(s, history[i])
    requires forall r <- records :: !IsCoherentRecord(s, r)
    requires k <= |history + records|
    ensures CoherentRecords(s, (history + records)[k..]) == if k <= i then [history[i]] else []
  {
    if k <= |history| {
      assert (history + records)[k..] == history[k..] + records;
      CoherentInSuffix(s, history, i, k);
      NothingCoherent(s, records);
      CoherentConcatenation(s, history[k..], records);
    } else {
      assert forall r <- (history + records)[k..] :: r in records;
      NothingCoherent(s, (history + records)[k..]);
    }
  }

  /** What a coherent bundle keeps if the state keeps its baseline and the history only grows later records. */
  lemma BundleAfterAppends(s: State, t: State, p: Progress, q: Progress, history: seq<BenchmarkRecord>,
                           records: seq<BenchmarkRecord>, i: nat)
    requires ValidatePersistedBaseline(s, p, history).Ok?
    requires i < |history| && IsCoherentRecord(s, history[i])
    requires t.IsValid() && t.baselineAvg == s.baselineAvg && t.baselineP1 == s.baselineP1
    requires q.IsCompleted(PHASE_ONE_BASELINE_BENCHMARK) && !q.IsSkipped(PHASE_ONE_BASELINE_BENCHMARK)
    requires "1-17" in p.timestamps && "1-17" in q.timestamps && p.timestamps["1-17"] == q.timestamps["1-17"]
    requires forall r <- records :: IsLater(r)
    ensures ValidatePersistedBaseline(t, q, Retained(history + records)).Ok?
            <==> |history| + |records| - i <= MAX_BENCHMARK_HISTORY
  {
    var whole := history + records;
    var kept := Retained(whole);
    var k := |whole| - |kept|;
    assert kept == whole[k..];
    forall r | r in kept ensures r.IsValid() {
      assert r in history || r in records;
    }
    OneCoherent(s, history, i);
    CoherentBehindTheCut(s, history, records, i, k);
    CoherenceReadsBaseline(s, t, kept);
    assert BaselineP1(t) == BaselineP1(s);
    assert k <= i <==> |history| + |records| - i <= MAX_BENCHMARK_HISTORY;
  }

  lemma OneCoherent(s: State, history: seq<BenchmarkRecord>, i: nat)
    requires |CoherentRecords(s, history)| == 1 && i < |history| && IsCoherentRecord(s, history[i])
    ensures CoherentRecords(s, history[..i]) == [] && CoherentRecords(s, history[i + 1..]) == []
    ensures CoherentRecords(s, history) == [history[i]]
  {
    var early, late := history[..i], history[i + 1..];
    assert history == early + [history[i]] + late;
    CoherentConcatenation(s, early + [history[i]], late);
    CoherentConcatenation(s, early, [history[i]]);
    assert [history[i]][..0] == [];
    assert CoherentRecords(s, [history[i]]) == [history[i]];
  }

  lemma NoCoherentInside(s: State, history: seq<BenchmarkRecord>, k: nat)
    requires CoherentRecords(s, history) == [] && k <= |history|
    ensures CoherentRecords(s, history[k..]) == []
  {
    assert history == history[..k] + history[k..];
    CoherentConcatenation(s, history[..k], history[k..]);
  }

  /**
   * Any number of later records leaves a coherent baseline coherent exactly as long
   * as its own record is still among the newest 200.
   */
  lemma BaselineOutlivesAppends(s: State, p: Progress, history: seq<BenchmarkRecord>, records: seq<BenchmarkRecord>,
                                i: nat)
    requires ValidatePersistedBaseline(s, p, history).Ok?
    requires i < |history| && IsCoherentRecord(s, history[i])
    requires forall r <- records :: IsLater(r)
    ensures ValidatePersistedBaseline(s, p, AppendAll(history, records)).Ok?
            <==> |history| + |records| - i <= MAX_BENCHMARK_HISTORY
  {
    AppendAllRetainsNewest(history, records);
    BundleAfterAppends(s, s, p, p, history, records, i);
  }

  lemma BaselineAndFinalKeysDiffer()
    ensures ProgressKey(PHASE_ONE_BASELINE_BENCHMARK) != ProgressKey(PHASE_THREE_FINAL_BENCHMARK)
    ensures "1-17" != TimestampKey(PHASE_THREE_FINAL_BENCHMARK)
  {
    ProgressKeyInjective(PHASE_ONE_BASELINE_BENCHMARK, PHASE_THREE_FINAL_BENCHMARK);
    FinalTimestampKey();
  }

  lemma FinalCommitLeavesBaseline(config: Config, s: State, p: Progress, history: seq<BenchmarkRecord>,
                                  request: FinalRequest)
    requires FinalCommit(config, s, p, history, request).Ok?
    ensures var c := FinalCommit(config, s, p, history, request).value;
            && c.state.IsValid() && c.state.baselineAvg == s.baselineAvg && c.state.baselineP1 == s.baselineP1
            && c.progress == Completing(p, PHASE_THREE_FINAL_BENCHMARK, request.capturedUtc)
            && c.history == Retained(history + [RecordFor(c.receipt)]) && IsLater(RecordFor(c.receipt))
  {
  }

  lemma FinalProgressKeepsBaseline(p: Progress, at: string)
    requires p.IsCompleted(PHASE_ONE_BASELINE_BENCHMARK) && !p.IsSkipped(PHASE_ONE_BASELINE_BENCHMARK)
    ensures var q := Completing(p, PHASE_THREE_FINAL_BENCHMARK, at);
            && q.IsCompleted(PHASE_ONE_BASELINE_BENCHMARK) && !q.IsSkipped(PHASE_ONE_BASELINE_BENCHMARK)
            && ("1-17" in p.timestamps ==> "1-17" in q.timestamps && q.timestamps["1-17"] == p.timestamps["1-17"])
  {
    BaselineAndFinalKeysDiffer();
  }

  /** A successful final commit counts as one more later record, and touches no other part of the baseline. */
  lemma BaselineOutlivesFinalCommit(config: Config, s: State, p: Progress, history: seq<BenchmarkRecord>,
                                    request: FinalRequest, i: nat)
    requires ValidatePersistedBaseline(s, p, history).Ok?
    requires i < |history| && IsCoherentRecord(s, history[i])
    requires FinalCommit(config, s, p, history, request).Ok?
    ensures var c := FinalCommit(config, s, p, history, request).value;
            ValidatePersistedBaseline(c.state, c.progress, c.history).Ok?
            <==> |history| + 1 - i <= MAX_BENCHMARK_HISTORY
  {
    var c := FinalCommit(config, s, p, history, request).value;
    FinalCommitLeavesBaseline(config, s, p, history, request);
    FinalProgressKeepsBaseline(p, request.capturedUtc);
    BundleAfterAppends(s, c.state, p, c.progress, history, [RecordFor(c.receipt)], i);
  }
}
