/**
 * What every reply leads to. A live run is one attempt for each step, in order;
 * an attempt's calls, the way it ends and the books it leaves are told here call
 * by call, without the engine's own functions.
 */
module EngineReactions {
  import opened Wrappers
  import opened Policy
  import opened Catalog
  import opened ProgressModel
  import opened Audit
  import opened Backend
  import opened EngineSpec
  import opened EngineAccounting

  /** How a piece of work ended: well, or with an error. */
  type Ending = Option<EngineError>

  function EndOf(run: Run): Ending {
    match run
    case Going(_, _) => None
    case Halted(_, error) => Some(error)
  }

  predicate Adds(s: Session, t: Session, calls: seq<Call>) {
    t.world.trace == s.world.trace + calls
  }

  /** One call whose failure is the given error. */
  predicate Tries(c: seq<Call>, request: Request, error: EngineError, end: Ending) {
    |c| == 1 && c[0].request == request && end == if c[0].reply.ok then None else Some(error)
  }

  // ---------------------------------------------------------------------
  // The work after an inspection, call by call
  // ---------------------------------------------------------------------

  /** Apply, then verify. */
  predicate AppliesAndVerifies(c: seq<Call>, step: Step, end: Ending) {
    var key := ProgressKey(step.id);
    && c != [] && c[0].request == Apply(step)
    && if !c[0].reply.ok then |c| == 1 && end == Some(ApplyError(key)) else Tries(c[1..], Verify(step), VerifyError(key), end)
  }

  /** Capture, then persist exactly what was captured, if it is anything. */
  predicate CapturesAndPersists(c: seq<Call>, step: Step, end: Ending) {
    var key := ProgressKey(step.id);
    && c != [] && c[0].request == CaptureBackups(step)
    && if !c[0].reply.ok || c[0].reply.entries == [] then |c| == 1 && end == Some(BackupError(key))
       else Tries(c[1..], PersistBackups(c[0].reply.entries), PersistError(key), end)
  }

  /** Recovery first: nothing is applied unless the backups were captured and persisted. */
  ghost predicate WorksLossless(c: seq<Call>, step: Step, end: Ending) {
    exists n, first ::
      && 0 <= n <= |c| && CapturesAndPersists(c[..n], step, first)
      && if first.Some? then n == |c| && end == first else AppliesAndVerifies(c[n..], step, end)
  }

  /** A pending audit is captured, checked and persisted before the apply, and finalized after the verify. */
  ghost predicate WorksRebuildable(c: seq<Call>, step: Step, end: Ending) {
    && c != [] && c[0].request == CapturePendingAudit(step)
    && WorksUnderCaptured(c[0].reply.ok && c[0].reply.audit.IsValidPendingFor(ProgressKey(step.id)), c[0].reply.audit, c, step, end)
  }

  ghost predicate WorksUnderCaptured(valid: bool, audit: RebuildableAudit, c: seq<Call>, step: Step, end: Ending) {
    var key := ProgressKey(step.id);
    if !valid then |c| == 1 && end == Some(AuditCaptureError(key))
    else
      && |c| > 1 && c[1].request == PersistPendingAudit(audit)
      && if !c[1].reply.ok then |c| == 2 && end == Some(AuditPersistError(key))
         else MutatesUnderRebuildable(c[2..], step, audit, end)
  }

  ghost predicate MutatesUnderRebuildable(c: seq<Call>, step: Step, audit: RebuildableAudit, end: Ending) {
    exists n, first :: 0 <= n <= |c| && AppliesAndVerifies(c[..n], step, first) && ClosesRebuildable(c[n..], step, audit, first, end)
  }

  predicate ClosesRebuildable(c: seq<Call>, step: Step, audit: RebuildableAudit, first: Ending, end: Ending) {
    if first.Some? then c == [] && end == first
    else
      && |c| == 2 && c[0].request == AskTimestamp
      && Tries(c[1..], FinalizeAudit(audit.(outcome := Verified(c[0].reply.timestamp))),
               AuditFinalizeError(ProgressKey(step.id)), end)
  }

  /** The same for an irreversible audit, which is failed when the apply or the verify fails. */
  ghost predicate WorksIrreversible(c: seq<Call>, step: Step, requirement: RecoveryRequirement, end: Ending) {
    && c != [] && c[0].request == CaptureIrreversible(step)
    && WorksUnderPending(c[0].reply.ok && c[0].reply.irreversible.IsValidPendingFor(requirement, ProgressKey(step.id)),
                         c[0].reply.irreversible, c, step, end)
  }

  ghost predicate WorksUnderPending(valid: bool, audit: IrreversibleAudit, c: seq<Call>, step: Step, end: Ending) {
    var key := ProgressKey(step.id);
    if !valid then |c| == 1 && end == Some(AuditCaptureError(key))
    else
      && |c| > 1 && c[1].request == PersistIrreversible(audit)
      && if !c[1].reply.ok then |c| == 2 && end == Some(AuditPersistError(key))
         else MutatesUnderIrreversible(c[2..], step, audit, end)
  }

  ghost predicate MutatesUnderIrreversible(c: seq<Call>, step: Step, audit: IrreversibleAudit, end: Ending) {
    exists n, first :: 0 <= n <= |c| && AppliesAndVerifies(c[..n], step, first) && ClosesIrreversible(c[n..], step, audit, first, end)
  }

  /** Failed after a failed apply or verify, finalized after a good one, and stamped in either case. */
  predicate ClosesIrreversible(c: seq<Call>, step: Step, audit: IrreversibleAudit, first: Ending, end: Ending) {
    var key := ProgressKey(step.id);
    && |c| == 2 && c[0].request == AskTimestamp
    && if first.Some?
       then
         && c[1].request == FailIrreversible(audit.(outcome := Failed(c[0].reply.timestamp)))
         && end == if c[1].reply.ok then first else Some(AuditFailurePersistError(key))
       else
         Tries(c[1..], FinalizeIrreversible(audit.(outcome := Verified(c[0].reply.timestamp))), AuditFinalizeError(key), end)
  }

  /** Backups first where the second answer is mixed. */
  ghost predicate WorksMixed(c: seq<Call>, step: Step, end: Ending) {
    exists n, first ::
      && 0 <= n <= |c| && CapturesAndPersists(c[..n], step, first)
      && if first.Some? then n == |c| && end == first else WorksIrreversible(c[n..], step, Mixed, end)
  }

  /** The recovery the backend demands chooses the path; the irreversible ones ask for it twice. */
  ghost predicate Mutates(c: seq<Call>, step: Step, end: Ending) {
    && c != [] && c[0].request == AskRecovery(step)
    && match c[0].reply.recovery
       case LosslessBackup => WorksLossless(c[1..], step, end)
       case RebuildableAuditing => WorksRebuildable(c[1..], step, end)
       case _ => WorksAsAnswered(c[1..], step, end)
  }

  /** The two ways on after the second answer. */
  ghost predicate WorksAsAnswered(c: seq<Call>, step: Step, end: Ending) {
    && c != [] && c[0].request == AskRecovery(step)
    && if c[0].reply.recovery.Mixed? then WorksMixed(c[1..], step, end)
       else WorksIrreversible(c[1..], step, c[0].reply.recovery, end)
  }

  /** A receipt is captured, checked, persisted and verified before the step is. */
  predicate ObservesDurably(c: seq<Call>, step: Step, end: Ending) {
    var key := ProgressKey(step.id);
    && c != [] && c[0].request == CaptureEvidence(step)
    && var receipt := c[0].reply.receipt;
       if !c[0].reply.ok || !receipt.IsValidFor(key) then |c| == 1 && end == Some(EvidenceCaptureError(key))
       else
         && |c| > 1 && c[1].request == PersistEvidence(receipt)
         && if !c[1].reply.ok then |c| == 2 && end == Some(EvidencePersistError(key))
            else
              && |c| > 2 && c[2].request == VerifyEvidence(step, receipt)
              && if !c[2].reply.ok then |c| == 3 && end == Some(EvidenceVerifyError(key))
                 else Tries(c[3..], Verify(step), VerifyError(key), end)
  }

  predicate Observes(c: seq<Call>, step: Step, end: Ending) {
    && c != [] && c[0].request == AskEvidence(step)
    && if c[0].reply.evidence.DurableReceipt? then ObservesDurably(c[1..], step, end)
       else Tries(c[1..], Verify(step), VerifyError(ProgressKey(step.id)), end)
  }

  // ---------------------------------------------------------------------
  // One attempt
  // ---------------------------------------------------------------------

  /** A step with the books before it, the calls it made, how it ended and the books after it. */
  datatype Attempt = Attempt(step: Step, before: Progress, report: RunReport, calls: seq<Call>, end: Ending,
                             after: Progress, counted: RunReport)
  {
    function Key(): string {
      ProgressKey(step.id)
    }

    predicate Unmoved() {
      after == before && counted == report
    }

    predicate StopsAt(k: nat, error: EngineError) {
      |calls| == k && end == Some(error) && Unmoved()
    }

    /** The last call, at k, persists exactly this progress; the books follow only if it succeeds. */
    predicate Persists(k: nat, next: Progress, nextReport: RunReport) {
      && |calls| == k + 1 && calls[k].request == PersistProgress(next)
      && if calls[k].reply.ok then end.None? && after == next && counted == nextReport
         else end == Some(ProgressError(Key())) && Unmoved()
    }

    predicate RecordsSkip(k: nat) {
      Persists(k,
        Progress(step.id.phase.Number(), before.lastCompletedStep,
                 if before.lastSkippedStep < step.id.number then step.id.number else before.lastSkippedStep,
                 before.completed - {Key()}, before.skipped + {Key()}, before.timestamps, before.advisories - {Key()}),
        RunReport(report.completed, report.skipped + 1, report.advisories, report.failed))
    }

    predicate RecordsAdvisory(k: nat, reason: string) {
      Persists(k,
        Progress(step.id.phase.Number(), before.lastCompletedStep, before.lastSkippedStep,
                 before.completed - {Key()}, before.skipped - {Key()}, before.timestamps, before.advisories[Key() := reason]),
        RunReport(report.completed, report.skipped, report.advisories + 1, report.failed))
    }

    /** The completion carries the time asked for just before. */
    predicate RecordsCompletion(k: nat) {
      && |calls| > k && calls[k].request == AskTimestamp
      && Persists(k + 1,
           Progress(step.id.phase.Number(), step.id.number, before.lastSkippedStep,
                    before.completed + {Key()}, before.skipped - {Key()},
                    before.timestamps[TimestampKey(step.id) := calls[k].reply.timestamp], before.advisories - {Key()}),
           RunReport(report.completed + 1, report.skipped, report.advisories, report.failed))
    }

    /** The work from call k on, then the completion. */
    ghost predicate Works(k: nat)
      requires 0 < k <= |calls|
    {
      exists n, worked :: WorksUntil(k, n, worked)
    }

    /** A step that needs its apply, and may be applied, is mutated; any other is observed. */
    ghost predicate WorksUntil(k: nat, n: int, worked: Ending)
      requires 0 < k <= |calls|
    {
      && k <= n <= |calls|
      && (if calls[k - 1].reply.inspection.NeedsApply? && !step.checkOnly then Mutates(calls[k..n], step, worked)
          else Observes(calls[k..n], step, worked))
      && if worked.Some? then StopsAt(n, worked.value) else RecordsCompletion(n)
    }

    /** What the inspection at k leads to. */
    ghost predicate Reacts(k: nat) {
      && |calls| > k && calls[k].request == Inspect(step)
      && if !calls[k].reply.ok then StopsAt(k + 1, InspectError(Key()))
         else match calls[k].reply.inspection
              case Unsupported => StopsAt(k + 1, UnsupportedError(Key()))
              case Inapplicable => RecordsSkip(k + 1)
              case Advisory(reason) => RecordsAdvisory(k + 1, reason)
              case _ => Works(k + 1)
    }

    /** What the profile, or the consent it asks for, leads to from call k on. */
    ghost predicate Decides(profile: Profile, k: nat) {
      match Decide(profile, step.tier, step.risk)
      case Skip => RecordsSkip(k)
      case Auto => Reacts(k)
      case Prompt =>
        && |calls| > k && calls[k].request == AskConsent(step)
        && if calls[k].reply.yes then Reacts(k + 1) else RecordsSkip(k + 1)
    }

    /** A live attempt: nothing for a recorded step, else cancellation is asked first. */
    ghost predicate IsLive(profile: Profile) {
      if before.Recorded(Key()) then calls == [] && end.None? && Unmoved()
      else
        && calls != [] && calls[0].request == AskCancelled
        && if calls[0].reply.yes then StopsAt(1, CancelledError(Key())) else Decides(profile, 1)
    }

    predicate Counts(completed: nat, skipped: nat, advisories: nat, failed: nat) {
      && end.None? && after == before
      && counted == RunReport(report.completed + completed, report.skipped + skipped, report.advisories + advisories,
                              report.failed + failed)
    }

    /** A dry attempt only inspects and plans, and counts what it would have come to. */
    predicate IsDry(profile: Profile) {
      if before.Recorded(Key()) then calls == [] && end.None? && Unmoved()
      else if Decide(profile, step.tier, step.risk).Skip? then calls == [] && Counts(0, 1, 0, 0)
      else InspectsDry()
    }

    predicate InspectsDry() {
      && calls != [] && calls[0].request == Inspect(step)
      && if !calls[0].reply.ok then StopsAt(1, InspectError(Key())) else Previews()
    }

    predicate Previews() {
      && |calls| == 2 && calls[1].request == Plan(step)
      && if !calls[1].reply.ok then StopsAt(2, InspectError(Key()))
         else match calls[0].reply.inspection
              case Inapplicable => Counts(0, 1, 0, 0)
              case Unsupported => Counts(0, 0, 0, 1)
              case Advisory(_) => Counts(0, 0, 1, 0)
              case _ => Counts(1, 0, 0, 0)
    }
  }

  // ---------------------------------------------------------------------
  // The engine's work obeys
  // ---------------------------------------------------------------------

  lemma Split(a: seq<Call>, b: seq<Call>)
    ensures (a + b)[..|a|] == a && (a + b)[|a|..] == b
  {
  }

  lemma Head(c: Call, b: seq<Call>)
    ensures ([c] + b)[0] == c && ([c] + b)[1..] == b && |[c] + b| == |b| + 1
  {
  }

  lemma AskAdds(o: Oracle, s: Session, request: Request)
    ensures Adds(s, Ask(o, s, request).0, [Call(request, Ask(o, s, request).1)])
  {
  }

  lemma AddsBoth(s: Session, t: Session, u: Session, a: seq<Call>, b: seq<Call>)
    requires Adds(s, t, a) && Adds(t, u, b)
    ensures Adds(s, u, a + b)
  {
    assert s.world.trace + a + b == s.world.trace + (a + b);
  }

  lemma DoCalls(o: Oracle, s: Session, request: Request, error: EngineError) returns (c: seq<Call>)
    ensures Adds(s, Do(o, s, request, error).session, c) && Tries(c, request, error, EndOf(Do(o, s, request, error)))
  {
    AskAdds(o, s, request);
    c := [Call(request, Ask(o, s, request).1)];
  }

  lemma ApplyCalls(o: Oracle, s: Session, step: Step) returns (c: seq<Call>)
    ensures Adds(s, ApplyAndVerify(o, s, step).session, c)
    ensures AppliesAndVerifies(c, step, EndOf(ApplyAndVerify(o, s, step)))
  {
    var (applied, reply) := Ask(o, s, Apply(step));
    AskAdds(o, s, Apply(step));
    c := [Call(Apply(step), reply)];
    if reply.ok {
      var d := DoCalls(o, applied, Verify(step), VerifyError(ProgressKey(step.id)));
      AddsBoth(s, applied, ApplyAndVerify(o, s, step).session, c, d);
      Head(c[0], d);
      c := c + d;
    }
  }

  lemma CaptureCalls(o: Oracle, s: Session, step: Step) returns (c: seq<Call>)
    ensures Adds(s, CaptureLosslessBackups(o, s, step).session, c)
    ensures CapturesAndPersists(c, step, EndOf(CaptureLosslessBackups(o, s, step)))
  {
    var (captured, reply) := Ask(o, s, CaptureBackups(step));
    AskAdds(o, s, CaptureBackups(step));
    c := [Call(CaptureBackups(step), reply)];
    if reply.ok && reply.entries != [] {
      var d := DoCalls(o, captured, PersistBackups(reply.entries), PersistError(ProgressKey(step.id)));
      AddsBoth(s, captured, CaptureLosslessBackups(o, s, step).session, c, d);
      Head(c[0], d);
      c := c + d;
    }
  }

  lemma LosslessFrom(a: seq<Call>, b: seq<Call>, step: Step, first: Ending, end: Ending)
    requires CapturesAndPersists(a, step, first)
    requires if first.Some? then b == [] && end == first else AppliesAndVerifies(b, step, end)
    ensures WorksLossless(a + b, step, end)
  {
    Split(a, b);
    assert CapturesAndPersists((a + b)[..|a|], step, first);
  }

  lemma LosslessCalls(o: Oracle, s: Session, step: Step) returns (c: seq<Call>)
    ensures Adds(s, RunLosslessOperation(o, s, step).session, c)
    ensures WorksLossless(c, step, EndOf(RunLosslessOperation(o, s, step)))
  {
    var captured := CaptureLosslessBackups(o, s, step);
    var a := CaptureCalls(o, s, step);
    if captured.Going? {
      var b := ApplyCalls(o, captured.session, step);
      AddsBoth(s, captured.session, RunLosslessOperation(o, s, step).session, a, b);
      LosslessFrom(a, b, step, None, EndOf(RunLosslessOperation(o, s, step)));
      c := a + b;
    } else {
      LosslessFrom(a, [], step, EndOf(captured), EndOf(captured));
      assert a + [] == a;
      c := a;
    }
  }

  lemma RebuildableFrom(a: seq<Call>, b: seq<Call>, step: Step, audit: RebuildableAudit, first: Ending, end: Ending)
    requires AppliesAndVerifies(a, step, first) && ClosesRebuildable(b, step, audit, first, end)
    ensures MutatesUnderRebuildable(a + b, step, audit, end)
  {
    Split(a, b);
    assert AppliesAndVerifies((a + b)[..|a|], step, first);
  }

  lemma StampCalls(o: Oracle, s: Session, audit: RebuildableAudit, error: EngineError) returns (c: seq<Call>)
    ensures var (stamped, now) := Ask(o, s, AskTimestamp);
            var run := Do(o, stamped, FinalizeAudit(audit.Finalized(now.timestamp)), error);
            && Adds(s, run.session, c)
            && |c| == 2 && c[0].request == AskTimestamp
            && Tries(c[1..], FinalizeAudit(audit.(outcome := Verified(c[0].reply.timestamp))), error, EndOf(run))
  {
    var (stamped, now) := Ask(o, s, AskTimestamp);
    AskAdds(o, s, AskTimestamp);
    var d := DoCalls(o, stamped, FinalizeAudit(audit.Finalized(now.timestamp)), error);
    AddsBoth(s, stamped, Do(o, stamped, FinalizeAudit(audit.Finalized(now.timestamp)), error).session,
             [Call(AskTimestamp, now)], d);
    Head(Call(AskTimestamp, now), d);
    c := [Call(AskTimestamp, now)] + d;
  }

  lemma UnderRebuildableCalls(o: Oracle, s: Session, step: Step, audit: RebuildableAudit) returns (c: seq<Call>)
    ensures Adds(s, MutateUnderRebuildableAudit(o, s, step, audit).session, c)
    ensures MutatesUnderRebuildable(c, step, audit, EndOf(MutateUnderRebuildableAudit(o, s, step, audit)))
  {
    var applied := ApplyAndVerify(o, s, step);
    var a := ApplyCalls(o, s, step);
    var end := EndOf(MutateUnderRebuildableAudit(o, s, step, audit));
    if applied.Going? {
      var b := StampCalls(o, applied.session, audit, AuditFinalizeError(ProgressKey(step.id)));
      AddsBoth(s, applied.session, MutateUnderRebuildableAudit(o, s, step, audit).session, a, b);
      RebuildableFrom(a, b, step, audit, None, end);
      c := a + b;
    } else {
      RebuildableFrom(a, [], step, audit, end, end);
      assert a + [] == a;
      c := a;
    }
  }

  lemma RebuildableUnfolds(o: Oracle, s: Session, step: Step, valid: bool)
    requires valid == (Ask(o, s, CapturePendingAudit(step)).1.ok
                       && Ask(o, s, CapturePendingAudit(step)).1.audit.IsValidPendingFor(ProgressKey(step.id)))
    ensures var key := ProgressKey(step.id);
            var (captured, reply) := Ask(o, s, CapturePendingAudit(step));
            RunRebuildableOperation(o, s, step)
            == if valid then UnderPersistedAudit(o, captured, step, reply.audit) else Halted(captured, AuditCaptureError(key))
  {
  }

  function UnderPersistedAudit(o: Oracle, s: Session, step: Step, audit: RebuildableAudit): Run {
    var (persisted, _) :- Do(o, s, PersistPendingAudit(audit), AuditPersistError(ProgressKey(step.id)));
    MutateUnderRebuildableAudit(o, persisted, step, audit)
  }

  lemma UnderPersistedCalls(o: Oracle, s: Session, t: Session, first: Call, step: Step, audit: RebuildableAudit)
    returns (c: seq<Call>)
    requires Adds(s, t, [first])
    ensures var run := UnderPersistedAudit(o, t, step, audit);
            Adds(s, run.session, c) && |c| > 0 && c[0] == first && WorksUnderCaptured(true, audit, c, step, EndOf(run))
  {
    var (persisted, stored) := Ask(o, t, PersistPendingAudit(audit));
    var second := Call(PersistPendingAudit(audit), stored);
    AskAdds(o, t, PersistPendingAudit(audit));
    AddsBoth(s, t, persisted, [first], [second]);
    c := [first] + [second];
    if stored.ok {
      var d := UnderRebuildableCalls(o, persisted, step, audit);
      AddsBoth(s, persisted, MutateUnderRebuildableAudit(o, persisted, step, audit).session, c, d);
      Split(c, d);
      c := c + d;
    }
  }

  lemma RebuildableCalls(o: Oracle, s: Session, step: Step) returns (c: seq<Call>)
    ensures Adds(s, RunRebuildableOperation(o, s, step).session, c)
    ensures WorksRebuildable(c, step, EndOf(RunRebuildableOperation(o, s, step)))
  {
    var (captured, reply) := Ask(o, s, CapturePendingAudit(step));
    var valid := reply.ok && reply.audit.IsValidPendingFor(ProgressKey(step.id));
    AskAdds(o, s, CapturePendingAudit(step));
    RebuildableUnfolds(o, s, step, valid);
    c := [Call(CapturePendingAudit(step), reply)];
    if valid {
      c := UnderPersistedCalls(o, s, captured, c[0], step, reply.audit);
    }
  }

  lemma FinalCalls(o: Oracle, s: Session, step: Step, audit: IrreversibleAudit) returns (c: seq<Call>)
    ensures var run := FinalizeIrreversibleAudit(o, s, step, audit);
            && Adds(s, run.session, c) && |c| == 2 && c[0].request == AskTimestamp
            && Tries(c[1..], FinalizeIrreversible(audit.(outcome := Verified(c[0].reply.timestamp))),
                     AuditFinalizeError(ProgressKey(step.id)), EndOf(run))
  {
    var (stamped, now) := Ask(o, s, AskTimestamp);
    AskAdds(o, s, AskTimestamp);
    var request := FinalizeIrreversible(audit.Finalized(now.timestamp));
    var d := DoCalls(o, stamped, request, AuditFinalizeError(ProgressKey(step.id)));
    AddsBoth(s, stamped, FinalizeIrreversibleAudit(o, s, step, audit).session, [Call(AskTimestamp, now)], d);
    Head(Call(AskTimestamp, now), d);
    c := [Call(AskTimestamp, now)] + d;
  }

  lemma FailCalls(o: Oracle, s: Session, step: Step, audit: IrreversibleAudit, error: EngineError) returns (c: seq<Call>)
    ensures var run := FailAudit(o, s, step, audit, error);
            && Adds(s, run.session, c) && |c| == 2 && c[0].request == AskTimestamp
            && c[1].request == FailIrreversible(audit.(outcome := Failed(c[0].reply.timestamp)))
            && EndOf(run) == Some(if c[1].reply.ok then error else AuditFailurePersistError(ProgressKey(step.id)))
  {
    var (stamped, now) := Ask(o, s, AskTimestamp);
    AskAdds(o, s, AskTimestamp);
    var request := FailIrreversible(audit.FailedAt(now.timestamp));
    var d := DoCalls(o, stamped, request, AuditFailurePersistError(ProgressKey(step.id)));
    AddsBoth(s, stamped, FailAudit(o, s, step, audit, error).session, [Call(AskTimestamp, now)], d);
    Head(Call(AskTimestamp, now), d);
    c := [Call(AskTimestamp, now)] + d;
  }

  lemma IrreversibleFrom(a: seq<Call>, b: seq<Call>, step: Step, audit: IrreversibleAudit, first: Ending, end: Ending)
    requires AppliesAndVerifies(a, step, first) && ClosesIrreversible(b, step, audit, first, end)
    ensures MutatesUnderIrreversible(a + b, step, audit, end)
  {
    Split(a, b);
    assert AppliesAndVerifies((a + b)[..|a|], step, first);
  }

  lemma CloseCalls(o: Oracle, s: Session, step: Step, audit: IrreversibleAudit) returns (c: seq<Call>)
    ensures Adds(s, CloseAudit(o, s, step, audit).session, c)
    ensures MutatesUnderIrreversible(c, step, audit, EndOf(CloseAudit(o, s, step, audit)))
  {
    var applied := ApplyAndVerify(o, s, step);
    var a := ApplyCalls(o, s, step);
    var b: seq<Call>;
    if applied.Halted? {
      b := FailCalls(o, applied.session, step, audit, applied.error);
    } else {
      b := FinalCalls(o, applied.session, step, audit);
    }
    AddsBoth(s, applied.session, CloseAudit(o, s, step, audit).session, a, b);
    IrreversibleFrom(a, b, step, audit, EndOf(applied), EndOf(CloseAudit(o, s, step, audit)));
    c := a + b;
  }

  lemma PendingUnfolds(o: Oracle, s: Session, step: Step, requirement: RecoveryRequirement, valid: bool)
    requires valid == (Ask(o, s, CaptureIrreversible(step)).1.ok
                       && Ask(o, s, CaptureIrreversible(step)).1.irreversible.IsValidPendingFor(requirement, ProgressKey(step.id)))
    ensures var key := ProgressKey(step.id);
            var (captured, reply) := Ask(o, s, CaptureIrreversible(step));
            RunPendingIrreversibleAudit(o, s, step, requirement)
            == if valid then UnderPendingAudit(o, captured, step, reply.irreversible) else Halted(captured, AuditCaptureError(key))
  {
  }

  function UnderPendingAudit(o: Oracle, s: Session, step: Step, audit: IrreversibleAudit): Run {
    var (persisted, _) :- Do(o, s, PersistIrreversible(audit), AuditPersistError(ProgressKey(step.id)));
    CloseAudit(o, persisted, step, audit)
  }

  lemma UnderPendingCalls(o: Oracle, s: Session, t: Session, first: Call, step: Step, audit: IrreversibleAudit)
    returns (c: seq<Call>)
    requires Adds(s, t, [first])
    ensures var run := UnderPendingAudit(o, t, step, audit);
            Adds(s, run.session, c) && |c| > 0 && c[0] == first && WorksUnderPending(true, audit, c, step, EndOf(run))
  {
    var (persisted, stored) := Ask(o, t, PersistIrreversible(audit));
    var second := Call(PersistIrreversible(audit), stored);
    AskAdds(o, t, PersistIrreversible(audit));
    AddsBoth(s, t, persisted, [first], [second]);
    c := [first] + [second];
    if stored.ok {
      var d := CloseCalls(o, persisted, step, audit);
      AddsBoth(s, persisted, CloseAudit(o, persisted, step, audit).session, c, d);
      Split(c, d);
      c := c + d;
    }
  }

  lemma PendingCalls(o: Oracle, s: Session, step: Step, requirement: RecoveryRequirement) returns (c: seq<Call>)
    ensures Adds(s, RunPendingIrreversibleAudit(o, s, step, requirement).session, c)
    ensures WorksIrreversible(c, step, requirement, EndOf(RunPendingIrreversibleAudit(o, s, step, requirement)))
  {
    var (captured, reply) := Ask(o, s, CaptureIrreversible(step));
    var valid := reply.ok && reply.irreversible.IsValidPendingFor(requirement, ProgressKey(step.id));
    AskAdds(o, s, CaptureIrreversible(step));
    PendingUnfolds(o, s, step, requirement, valid);
    c := [Call(CaptureIrreversible(step), reply)];
    if valid {
      c := UnderPendingCalls(o, s, captured, c[0], step, reply.irreversible);
    }
  }

  lemma MixedFrom(a: seq<Call>, b: seq<Call>, step: Step, first: Ending, end: Ending)
    requires CapturesAndPersists(a, step, first)
    requires if first.Some? then b == [] && end == first else WorksIrreversible(b, step, Mixed, end)
    ensures WorksMixed(a + b, step, end)
  {
    Split(a, b);
    assert CapturesAndPersists((a + b)[..|a|], step, first);
  }

  lemma MixedCalls(o: Oracle, s: Session, step: Step) returns (c: seq<Call>)
    ensures var captured := CaptureLosslessBackups(o, s, step);
            var run := if captured.Going? then RunPendingIrreversibleAudit(o, captured.session, step, Mixed) else captured;
            Adds(s, run.session, c) && WorksMixed(c, step, EndOf(run))
  {
    var captured := CaptureLosslessBackups(o, s, step);
    var a := CaptureCalls(o, s, step);
    if captured.Going? {
      var run := RunPendingIrreversibleAudit(o, captured.session, step, Mixed);
      var b := PendingCalls(o, captured.session, step, Mixed);
      AddsBoth(s, captured.session, run.session, a, b);
      MixedFrom(a, b, step, None, EndOf(run));
      c := a + b;
    } else {
      MixedFrom(a, [], step, EndOf(captured), EndOf(captured));
      assert a + [] == a;
      c := a;
    }
  }

  lemma IrreversibleCalls(o: Oracle, s: Session, step: Step) returns (c: seq<Call>)
    ensures Adds(s, RunIrreversibleOperation(o, s, step).session, c)
    ensures WorksAsAnswered(c, step, EndOf(RunIrreversibleOperation(o, s, step)))
  {
    var (asked, reply) := Ask(o, s, AskRecovery(step));
    AskAdds(o, s, AskRecovery(step));
    var d: seq<Call>;
    if reply.recovery.Mixed? {
      d := MixedCalls(o, asked, step);
    } else {
      d := PendingCalls(o, asked, step, reply.recovery);
    }
    AddsBoth(s, asked, RunIrreversibleOperation(o, s, step).session, [Call(AskRecovery(step), reply)], d);
    Head(Call(AskRecovery(step), reply), d);
    c := [Call(AskRecovery(step), reply)] + d;
  }

  lemma MutatesFrom(first: Call, d: seq<Call>, step: Step, end: Ending)
    requires first.request == AskRecovery(step)
    requires match first.reply.recovery
             case LosslessBackup => WorksLossless(d, step, end)
             case RebuildableAuditing => WorksRebuildable(d, step, end)
             case _ => WorksAsAnswered(d, step, end)
    ensures Mutates([first] + d, step, end)
  {
    Head(first, d);
  }

  lemma MutationCalls(o: Oracle, s: Session, step: Step) returns (c: seq<Call>)
    ensures Adds(s, RunMutation(o, s, step).session, c) && Mutates(c, step, EndOf(RunMutation(o, s, step)))
  {
    var (asked, reply) := Ask(o, s, AskRecovery(step));
    AskAdds(o, s, AskRecovery(step));
    var d: seq<Call>;
    match reply.recovery {
      case LosslessBackup => d := LosslessCalls(o, asked, step);
      case RebuildableAuditing => d := RebuildableCalls(o, asked, step);
      case ManualRecoveryAuditing => d := IrreversibleCalls(o, asked, step);
      case Mixed => d := IrreversibleCalls(o, asked, step);
    }
    AddsBoth(s, asked, RunMutation(o, s, step).session, [Call(AskRecovery(step), reply)], d);
    MutatesFrom(Call(AskRecovery(step), reply), d, step, EndOf(RunMutation(o, s, step)));
    c := [Call(AskRecovery(step), reply)] + d;
  }

  lemma EvidenceUnfolds(o: Oracle, s: Session, step: Step)
    ensures var key := ProgressKey(step.id);
            var (captured, first) := Ask(o, s, CaptureEvidence(step));
            var (persisted, second) := Ask(o, captured, PersistEvidence(first.receipt));
            var (verified, third) := Ask(o, persisted, VerifyEvidence(step, first.receipt));
            RunEvidenceOperation(o, s, step)
            == if !first.ok || !first.receipt.IsValidFor(key) then Halted(captured, EvidenceCaptureError(key))
               else if !second.ok then Halted(persisted, EvidencePersistError(key))
               else if !third.ok then Halted(verified, EvidenceVerifyError(key))
               else VerifyOperation(o, verified, step)
  {
  }

  lemma EvidenceCalls(o: Oracle, s: Session, step: Step) returns (c: seq<Call>)
    ensures Adds(s, RunEvidenceOperation(o, s, step).session, c)
    ensures ObservesDurably(c, step, EndOf(RunEvidenceOperation(o, s, step)))
  {
    EvidenceUnfolds(o, s, step);
    var (captured, first) := Ask(o, s, CaptureEvidence(step));
    AskAdds(o, s, CaptureEvidence(step));
    c := [Call(CaptureEvidence(step), first)];
    if first.ok && first.receipt.IsValidFor(ProgressKey(step.id)) {
      var (persisted, second) := Ask(o, captured, PersistEvidence(first.receipt));
      AskAdds(o, captured, PersistEvidence(first.receipt));
      var d := c + [Call(PersistEvidence(first.receipt), second)];
      AddsBoth(s, captured, persisted, c, [Call(PersistEvidence(first.receipt), second)]);
      c := d;
      if second.ok {
        c := EvidenceEnd(o, s, step, persisted, first, d);
        assert c[0] == c[..2][0] && c[1] == c[..2][1];
      }
    }
  }

  lemma EvidenceEnd(o: Oracle, s: Session, step: Step, persisted: Session, first: Reply, so: seq<Call>)
    returns (c: seq<Call>)
    requires Adds(s, persisted, so) && |so| == 2
    ensures var (verified, third) := Ask(o, persisted, VerifyEvidence(step, first.receipt));
            var run := if third.ok then VerifyOperation(o, verified, step)
                       else Halted(verified, EvidenceVerifyError(ProgressKey(step.id)));
            && Adds(s, run.session, c) && |c| > 2 && c[..2] == so && c[2].request == VerifyEvidence(step, first.receipt)
            && if !c[2].reply.ok then |c| == 3 && EndOf(run) == Some(EvidenceVerifyError(ProgressKey(step.id)))
               else Tries(c[3..], Verify(step), VerifyError(ProgressKey(step.id)), EndOf(run))
  {
    var (verified, third) := Ask(o, persisted, VerifyEvidence(step, first.receipt));
    AskAdds(o, persisted, VerifyEvidence(step, first.receipt));
    var last := [Call(VerifyEvidence(step, first.receipt), third)];
    AddsBoth(s, persisted, verified, so, last);
    c := so + last;
    if third.ok {
      var d := DoCalls(o, verified, Verify(step), VerifyError(ProgressKey(step.id)));
      AddsBoth(s, verified, VerifyOperation(o, verified, step).session, c, d);
      Split(c, d);
      c := c + d;
    }
  }

  lemma ObservationCalls(o: Oracle, s: Session, step: Step) returns (c: seq<Call>)
    ensures Adds(s, RunObservation(o, s, step).session, c) && Observes(c, step, EndOf(RunObservation(o, s, step)))
  {
    var (asked, reply) := Ask(o, s, AskEvidence(step));
    AskAdds(o, s, AskEvidence(step));
    var d: seq<Call>;
    if reply.evidence.DurableReceipt? {
      d := EvidenceCalls(o, asked, step);
    } else {
      d := DoCalls(o, asked, Verify(step), VerifyError(ProgressKey(step.id)));
    }
    AddsBoth(s, asked, RunObservation(o, s, step).session, [Call(AskEvidence(step), reply)], d);
    Head(Call(AskEvidence(step), reply), d);
    c := [Call(AskEvidence(step), reply)] + d;
  }

  // ---------------------------------------------------------------------
  // The attempt obeys
  // ---------------------------------------------------------------------

  function AttemptOf(s: Session, step: Step, run: Run, calls: seq<Call>): Attempt {
    Attempt(step, s.progress, s.report, calls, EndOf(run), run.session.progress, run.session.report)
  }

  /** So far the attempt made these calls and left the books alone. */
  predicate SoFar(s: Session, t: Session, c: seq<Call>) {
    Adds(s, t, c) && SameBooks(s, t)
  }

  lemma OneMoreCall(o: Oracle, s: Session, t: Session, c: seq<Call>, request: Request)
    requires SoFar(s, t, c)
    ensures SoFar(s, Ask(o, t, request).0, c + [Call(request, Ask(o, t, request).1)])
  {
    AskAdds(o, t, request);
    AddsBoth(s, t, Ask(o, t, request).0, c, [Call(request, Ask(o, t, request).1)]);
  }

  lemma RecordCalls(o: Oracle, s: Session, t: Session, c: seq<Call>, step: Step, how: Resolution) returns (d: seq<Call>)
    requires SoFar(s, t, c)
    ensures var run := Record(o, t, step, how);
            && Adds(s, run.session, d) && d[..|c|] == c
            && AttemptOf(s, step, run, d).Persists(|c|, Resolve(s.progress, step.id, how), Counted(s.report, how))
  {
    var request := PersistProgress(Resolve(t.progress, step.id, how));
    OneMoreCall(o, s, t, c, request);
    d := c + [Call(request, Ask(o, t, request).1)];
  }

  lemma SkipCalls(o: Oracle, s: Session, t: Session, c: seq<Call>, step: Step) returns (d: seq<Call>)
    requires SoFar(s, t, c)
    ensures var run := Record(o, t, step, AsSkipped);
            Adds(s, run.session, d) && d[..|c|] == c && AttemptOf(s, step, run, d).RecordsSkip(|c|)
  {
    d := RecordCalls(o, s, t, c, step, AsSkipped);
  }

  lemma AdvisoryCalls(o: Oracle, s: Session, t: Session, c: seq<Call>, step: Step, reason: string) returns (d: seq<Call>)
    requires SoFar(s, t, c)
    ensures var run := Record(o, t, step, AsAdvisory(reason));
            Adds(s, run.session, d) && d[..|c|] == c && AttemptOf(s, step, run, d).RecordsAdvisory(|c|, reason)
  {
    d := RecordCalls(o, s, t, c, step, AsAdvisory(reason));
  }

  lemma CompletionCalls(o: Oracle, s: Session, t: Session, c: seq<Call>, step: Step) returns (d: seq<Call>)
    requires SoFar(s, t, c)
    ensures var run := CompleteLiveStep(o, t, step);
            Adds(s, run.session, d) && |d| >= |c| && d[..|c|] == c && AttemptOf(s, step, run, d).RecordsCompletion(|c|)
  {
    var (stamped, now) := Ask(o, t, AskTimestamp);
    OneMoreCall(o, s, t, c, AskTimestamp);
    var e := c + [Call(AskTimestamp, now)];
    d := RecordCalls(o, s, stamped, e, step, AsCompleted(now.timestamp));
    assert d[|c|] == d[..|e|][|c|] == Call(AskTimestamp, now);
    assert d[..|c|] == d[..|e|][..|c|] == c;
  }

  /** Work whose calls are known, then the completion if it went well. */
  lemma WorkThenComplete(o: Oracle, s: Session, t: Session, c: seq<Call>, step: Step, work: Run, w: seq<Call>)
    returns (d: seq<Call>)
    requires SoFar(s, t, c) && Adds(t, work.session, w) && SameBooks(t, work.session)
    ensures var run := if work.Going? then CompleteLiveStep(o, work.session, step) else work;
            var a := AttemptOf(s, step, run, d);
            var n := |c| + |w|;
            && Adds(s, run.session, d) && n <= |d| && d[..|c|] == c && d[|c|..n] == w
            && if work.Halted? then a.StopsAt(n, work.error) else a.RecordsCompletion(n)
  {
    AddsBoth(s, t, work.session, c, w);
    Split(c, w);
    if work.Going? {
      d := CompletionCalls(o, s, work.session, c + w, step);
      assert d[..|c|] == d[..|c + w|][..|c|] == c && d[|c|..|c| + |w|] == d[..|c + w|][|c|..] == w;
    } else {
      d := c + w;
    }
  }

  lemma SatisfiedUnfolds(o: Oracle, t: Session, step: Step, inspection: Inspection)
    requires inspection.Satisfied? || inspection.NeedsApply?
    ensures var work := if inspection.NeedsApply? && !step.checkOnly then RunMutation(o, t, step) else RunObservation(o, t, step);
            RunLiveStep(o, t, step, inspection) == if work.Going? then CompleteLiveStep(o, work.session, step) else work
  {
  }

  lemma LiveCalls(o: Oracle, s: Session, t: Session, c: seq<Call>, step: Step) returns (d: seq<Call>)
    requires SoFar(s, t, c) && c != [] && c[|c| - 1].request == Inspect(step) && c[|c| - 1].reply.ok
    ensures var run := RunLiveStep(o, t, step, c[|c| - 1].reply.inspection);
            Adds(s, run.session, d) && |d| >= |c| && d[..|c|] == c && AttemptOf(s, step, run, d).Reacts(|c| - 1)
  {
    var inspection := c[|c| - 1].reply.inspection;
    var run := RunLiveStep(o, t, step, inspection);
    match inspection
    case Unsupported =>
      d := c;
    case Inapplicable =>
      d := SkipCalls(o, s, t, c, step);
      SameLast(c, d);
    case Advisory(reason) =>
      d := AdvisoryCalls(o, s, t, c, step, reason);
      SameLast(c, d);
    case Satisfied =>
      d := WorkCalls(o, s, t, c, step);
    case NeedsApply =>
      d := WorkCalls(o, s, t, c, step);
  }

  lemma SameLast(c: seq<Call>, d: seq<Call>)
    requires c != [] && |d| >= |c| && d[..|c|] == c
    ensures d[|c| - 1] == c[|c| - 1]
  {
    assert d[|c| - 1] == d[..|c|][|c| - 1];
  }

  lemma WorkOf(o: Oracle, t: Session, step: Step, mutates: bool) returns (w: seq<Call>)
    ensures var work := if mutates then RunMutation(o, t, step) else RunObservation(o, t, step);
            && Adds(t, work.session, w) && SameBooks(t, work.session)
            && if mutates then Mutates(w, step, EndOf(work)) else Observes(w, step, EndOf(work))
  {
    if mutates {
      w := MutationCalls(o, t, step);
      MutationKeepsBooks(o, t, step);
    } else {
      w := ObservationCalls(o, t, step);
      ObservationKeepsBooks(o, t, step);
    }
  }

  lemma ReactsByWork(a: Attempt, c: seq<Call>, w: seq<Call>, worked: Ending)
    requires c != [] && c[|c| - 1].request == Inspect(a.step) && c[|c| - 1].reply.ok
    requires c[|c| - 1].reply.inspection.Satisfied? || c[|c| - 1].reply.inspection.NeedsApply?
    requires |c| + |w| <= |a.calls| && a.calls[..|c|] == c && a.calls[|c|..|c| + |w|] == w
    requires if c[|c| - 1].reply.inspection.NeedsApply? && !a.step.checkOnly then Mutates(w, a.step, worked)
             else Observes(w, a.step, worked)
    requires if worked.Some? then a.StopsAt(|c| + |w|, worked.value) else a.RecordsCompletion(|c| + |w|)
    ensures a.Reacts(|c| - 1)
  {
    SameLast(c, a.calls);
    assert a.WorksUntil(|c|, |c| + |w|, worked);
  }

  lemma WorkCalls(o: Oracle, s: Session, t: Session, c: seq<Call>, step: Step) returns (d: seq<Call>)
    requires SoFar(s, t, c) && c != [] && c[|c| - 1].request == Inspect(step) && c[|c| - 1].reply.ok
    requires c[|c| - 1].reply.inspection.Satisfied? || c[|c| - 1].reply.inspection.NeedsApply?
    ensures var run := RunLiveStep(o, t, step, c[|c| - 1].reply.inspection);
            Adds(s, run.session, d) && |d| >= |c| && d[..|c|] == c && AttemptOf(s, step, run, d).Reacts(|c| - 1)
  {
    var inspection := c[|c| - 1].reply.inspection;
    var mutates := inspection.NeedsApply? && !step.checkOnly;
    var w := WorkOf(o, t, step, mutates);
    d := FinishedWork(o, s, t, c, step, inspection, w);
  }

  lemma FinishedWork(o: Oracle, s: Session, t: Session, c: seq<Call>, step: Step, inspection: Inspection, w: seq<Call>)
    returns (d: seq<Call>)
    requires SoFar(s, t, c) && c != [] && c[|c| - 1].request == Inspect(step) && c[|c| - 1].reply.ok
    requires inspection == c[|c| - 1].reply.inspection && (inspection.Satisfied? || inspection.NeedsApply?)
    requires var mutates := inspection.NeedsApply? && !step.checkOnly;
             var work := if mutates then RunMutation(o, t, step) else RunObservation(o, t, step);
             && Adds(t, work.session, w) && SameBooks(t, work.session)
             && if mutates then Mutates(w, step, EndOf(work)) else Observes(w, step, EndOf(work))
    ensures var run := RunLiveStep(o, t, step, inspection);
            Adds(s, run.session, d) && |d| >= |c| && d[..|c|] == c && AttemptOf(s, step, run, d).Reacts(|c| - 1)
  {
    var work := if inspection.NeedsApply? && !step.checkOnly then RunMutation(o, t, step) else RunObservation(o, t, step);
    SatisfiedUnfolds(o, t, step, inspection);
    d := WorkThenComplete(o, s, t, c, step, work, w);
    var run := if work.Going? then CompleteLiveStep(o, work.session, step) else work;
    ReactsByWork(AttemptOf(s, step, run, d), c, w, EndOf(work));
  }

  lemma InspectCalls(o: Oracle, s: Session, t: Session, c: seq<Call>, step: Step) returns (d: seq<Call>)
    requires SoFar(s, t, c)
    ensures var run := InspectAndRun(o, false, t, step);
            Adds(s, run.session, d) && |d| >= |c| && d[..|c|] == c && AttemptOf(s, step, run, d).Reacts(|c|)
  {
    var (inspected, reply) := Ask(o, t, Inspect(step));
    OneMoreCall(o, s, t, c, Inspect(step));
    d := c + [Call(Inspect(step), reply)];
    if reply.ok {
      var e := LiveCalls(o, s, inspected, d, step);
      assert e[..|c|] == e[..|d|][..|c|] == c;
      d := e;
    }
  }

  lemma ConsentCalls(o: Oracle, s: Session, t: Session, c: seq<Call>, step: Step) returns (d: seq<Call>)
    requires SoFar(s, t, c)
    ensures var (asked, answer) := Ask(o, t, AskConsent(step));
            var run := if answer.yes then InspectAndRun(o, false, asked, step) else Record(o, asked, step, AsSkipped);
            var a := AttemptOf(s, step, run, d);
            && Adds(s, run.session, d) && |d| > |c| && d[..|c|] == c && d[|c|].request == AskConsent(step)
            && if d[|c|].reply.yes then a.Reacts(|c| + 1) else a.RecordsSkip(|c| + 1)
  {
    var (asked, answer) := Ask(o, t, AskConsent(step));
    OneMoreCall(o, s, t, c, AskConsent(step));
    var e := c + [Call(AskConsent(step), answer)];
    if answer.yes {
      d := InspectCalls(o, s, asked, e, step);
    } else {
      d := SkipCalls(o, s, asked, e, step);
    }
    SameLast(e, d);
    assert d[..|c|] == d[..|e|][..|c|] == c;
  }

  lemma DecisionUnfolds(o: Oracle, t: Session, step: Step, profile: Profile)
    ensures var (asked, answer) := Ask(o, t, AskConsent(step));
            DecideAndRun(o, false, t, step, profile)
            == (match Decide(profile, step.tier, step.risk)
                case Skip => Record(o, t, step, AsSkipped)
                case Auto => InspectAndRun(o, false, t, step)
                case Prompt => if answer.yes then InspectAndRun(o, false, asked, step) else Record(o, asked, step, AsSkipped))
  {
  }

  lemma DecideCalls(o: Oracle, s: Session, t: Session, c: seq<Call>, step: Step, profile: Profile) returns (d: seq<Call>)
    requires SoFar(s, t, c)
    ensures var run := DecideAndRun(o, false, t, step, profile);
            Adds(s, run.session, d) && |d| >= |c| && d[..|c|] == c && AttemptOf(s, step, run, d).Decides(profile, |c|)
  {
    DecisionUnfolds(o, t, step, profile);
    match Decide(profile, step.tier, step.risk)
    case Skip => d := SkipCalls(o, s, t, c, step);
    case Auto => d := InspectCalls(o, s, t, c, step);
    case Prompt => d := ConsentCalls(o, s, t, c, step);
  }

  /** Every live attempt obeys, whatever the backend answers. */
  lemma LiveAttempt(o: Oracle, s: Session, step: Step, profile: Profile) returns (c: seq<Call>)
    ensures var run := RunStep(o, false, s, step, profile);
            Adds(s, run.session, c) && AttemptOf(s, step, run, c).IsLive(profile)
  {
    c := [];
    if !s.progress.Recorded(ProgressKey(step.id)) {
      var (asked, answer) := Ask(o, s, AskCancelled);
      OneMoreCall(o, s, s, [], AskCancelled);
      c := [Call(AskCancelled, answer)];
      assert [] + c == c;
      if !answer.yes {
        var d := DecideCalls(o, s, asked, c, step, profile);
        SameLast(c, d);
        c := d;
      }
    }
  }

  lemma PreviewCalls(o: Oracle, s: Session, t: Session, c: seq<Call>, step: Step) returns (d: seq<Call>)
    requires SoFar(s, t, c) && |c| == 1 && c[0].request == Inspect(step) && c[0].reply.ok
    ensures var run := ReportDryRun(o, t, step, c[0].reply.inspection);
            var a := AttemptOf(s, step, run, d);
            && Adds(s, run.session, d) && |d| == 2 && d[0] == c[0] && a.Previews()
  {
    OneMoreCall(o, s, t, c, Plan(step));
    d := c + [Call(Plan(step), Ask(o, t, Plan(step)).1)];
  }

  lemma DryInspection(o: Oracle, s: Session, step: Step) returns (c: seq<Call>)
    ensures var run := InspectAndRun(o, true, s, step);
            var a := AttemptOf(s, step, run, c);
            && Adds(s, run.session, c) && a.InspectsDry()
  {
    var (inspected, reply) := Ask(o, s, Inspect(step));
    OneMoreCall(o, s, s, [], Inspect(step));
    c := [Call(Inspect(step), reply)];
    assert [] + c == c;
    if reply.ok {
      c := PreviewCalls(o, s, inspected, c, step);
    }
  }

  lemma DryUnfolds(o: Oracle, s: Session, step: Step, profile: Profile)
    ensures RunStep(o, true, s, step, profile)
            == if s.progress.Recorded(ProgressKey(step.id)) then Done(s)
               else if Decide(profile, step.tier, step.risk).Skip? then Done(s.(report := Counted(s.report, AsSkipped)))
               else InspectAndRun(o, true, s, step)
  {
  }

  lemma DryAttempt(o: Oracle, s: Session, step: Step, profile: Profile) returns (c: seq<Call>)
    ensures var run := RunStep(o, true, s, step, profile);
            Adds(s, run.session, c) && AttemptOf(s, step, run, c).IsDry(profile)
  {
    DryUnfolds(o, s, step, profile);
    c := [];
    if !s.progress.Recorded(ProgressKey(step.id)) && !Decide(profile, step.tier, step.risk).Skip? {
      c := DryInspection(o, s, step);
    }
  }

  // ---------------------------------------------------------------------
  // Whole runs
  // ---------------------------------------------------------------------

  function AllCalls(attempts: seq<Attempt>): seq<Call> {
    if attempts == [] then [] else attempts[0].calls + AllCalls(attempts[1..])
  }

  /**
   * A run is one attempt for each step in order, each taking over the books the one
   * before left; it goes on exactly past attempts that ended well, and ends as its
   * last attempt did.
   */
  ghost predicate AreTheAttempts(dry: bool, profile: Profile, progress: Progress, report: RunReport, steps: seq<Step>, run: Run,
                                 attempts: seq<Attempt>)
    decreases |attempts|
  {
    if attempts == [] then steps == [] && run.Going? && run.session.progress == progress && run.session.report == report
    else
      var a := attempts[0];
      && steps != [] && a.step == steps[0] && a.before == progress && a.report == report
      && (if dry then a.IsDry(profile) else a.IsLive(profile))
      && if a.end.Some? then
           && |attempts| == 1 && EndOf(run) == a.end
           && run.session.progress == a.after && run.session.report == a.counted
         else AreTheAttempts(dry, profile, a.after, a.counted, steps[1..], run, attempts[1..])
  }

  lemma OneAttempt(o: Oracle, dry: bool, s: Session, step: Step, profile: Profile) returns (c: seq<Call>)
    ensures var run := RunStep(o, dry, s, step, profile);
            var a := AttemptOf(s, step, run, c);
            Adds(s, run.session, c) && if dry then a.IsDry(profile) else a.IsLive(profile)
  {
    if dry {
      c := DryAttempt(o, s, step, profile);
    } else {
      c := LiveAttempt(o, s, step, profile);
    }
  }

  /** Every run, live or dry, on every backend, is made of attempts that obey. */
  lemma {:induction false} RunIsMadeOfAttempts(o: Oracle, dry: bool, s: Session, steps: seq<Step>, profile: Profile)
    returns (attempts: seq<Attempt>)
    ensures var run := RunSteps(o, dry, s, steps, profile);
            && Adds(s, run.session, AllCalls(attempts))
            && AreTheAttempts(dry, profile, s.progress, s.report, steps, run, attempts)
    decreases |steps|
  {
    if steps == [] {
      attempts := [];
      assert s.world.trace + [] == s.world.trace;
    } else {
      var first := RunStep(o, dry, s, steps[0], profile);
      var c := OneAttempt(o, dry, s, steps[0], profile);
      var a := AttemptOf(s, steps[0], first, c);
      if first.Halted? {
        attempts := [a];
        assert c + [] == c;
      } else {
        var rest := RunIsMadeOfAttempts(o, dry, first.session, steps[1..], profile);
        attempts := [a] + rest;
        assert attempts[1..] == rest;
        AddsBoth(s, first.session, RunSteps(o, dry, s, steps, profile).session, c, AllCalls(rest));
      }
    }
  }

  // ---------------------------------------------------------------------
  // Where in an attempt the questions stand
  // ---------------------------------------------------------------------

  /** No question to the user, no inspection and no progress. */
  predicate IsWork(r: Request) {
    !r.AskCancelled? && !r.AskConsent? && !r.Inspect? && !r.Plan? && !r.PersistProgress?
  }

  predicate AreWork(c: seq<Call>) {
    forall i :: 0 <= i < |c| ==> IsWork(c[i].request)
  }

  lemma PartsAreWork(c: seq<Call>, n: nat)
    requires n <= |c| && AreWork(c[..n]) && AreWork(c[n..])
    ensures AreWork(c)
  {
    forall i | 0 <= i < |c| ensures IsWork(c[i].request) {
      if i < n {
        assert c[i] == c[..n][i];
      } else {
        assert c[i] == c[n..][i - n];
      }
    }
  }

  lemma TriesIsWork(c: seq<Call>, request: Request, error: EngineError, end: Ending)
    requires Tries(c, request, error, end) && IsWork(request)
    ensures AreWork(c)
  {
  }

  lemma ApplyIsWork(c: seq<Call>, step: Step, end: Ending)
    requires AppliesAndVerifies(c, step, end)
    ensures AreWork(c)
  {
    PartsAreWork(c, 1);
  }

  lemma CaptureIsWork(c: seq<Call>, step: Step, end: Ending)
    requires CapturesAndPersists(c, step, end)
    ensures AreWork(c)
  {
    PartsAreWork(c, 1);
  }

  lemma LosslessIsWork(c: seq<Call>, step: Step, end: Ending)
    requires WorksLossless(c, step, end)
    ensures AreWork(c)
  {
    var n, first :| 0 <= n <= |c| && CapturesAndPersists(c[..n], step, first)
                    && if first.Some? then n == |c| && end == first else AppliesAndVerifies(c[n..], step, end);
    CaptureIsWork(c[..n], step, first);
    if first.None? {
      ApplyIsWork(c[n..], step, end);
    }
    PartsAreWork(c, n);
  }

  lemma UnderRebuildableIsWork(c: seq<Call>, step: Step, audit: RebuildableAudit, end: Ending)
    requires MutatesUnderRebuildable(c, step, audit, end)
    ensures AreWork(c)
  {
    var n, first :| 0 <= n <= |c| && AppliesAndVerifies(c[..n], step, first) && ClosesRebuildable(c[n..], step, audit, first, end);
    ApplyIsWork(c[..n], step, first);
    PartsAreWork(c, n);
  }

  lemma CapturedIsWork(valid: bool, audit: RebuildableAudit, c: seq<Call>, step: Step, end: Ending)
    requires c != [] && IsWork(c[0].request) && WorksUnderCaptured(valid, audit, c, step, end)
    ensures AreWork(c)
  {
    if |c| > 1 && c[1].reply.ok {
      UnderRebuildableIsWork(c[2..], step, audit, end);
      PartsAreWork(c, 2);
    }
  }

  lemma RebuildableIsWork(c: seq<Call>, step: Step, end: Ending)
    requires WorksRebuildable(c, step, end)
    ensures AreWork(c)
  {
    CapturedIsWork(c[0].reply.ok && c[0].reply.audit.IsValidPendingFor(ProgressKey(step.id)), c[0].reply.audit, c, step, end);
  }

  lemma CloseIsWork(c: seq<Call>, step: Step, audit: IrreversibleAudit, first: Ending, end: Ending)
    requires ClosesIrreversible(c, step, audit, first, end)
    ensures AreWork(c)
  {
    assert c[1..][0] == c[1];
  }

  lemma UnderIrreversibleIsWork(c: seq<Call>, step: Step, audit: IrreversibleAudit, end: Ending)
    requires MutatesUnderIrreversible(c, step, audit, end)
    ensures AreWork(c)
  {
    var n, first :| 0 <= n <= |c| && AppliesAndVerifies(c[..n], step, first) && ClosesIrreversible(c[n..], step, audit, first, end);
    ApplyIsWork(c[..n], step, first);
    CloseIsWork(c[n..], step, audit, first, end);
    PartsAreWork(c, n);
  }

  lemma PendingIsWork(valid: bool, audit: IrreversibleAudit, c: seq<Call>, step: Step, end: Ending)
    requires c != [] && IsWork(c[0].request) && WorksUnderPending(valid, audit, c, step, end)
    ensures AreWork(c)
  {
    if |c| > 1 && c[1].reply.ok {
      UnderIrreversibleIsWork(c[2..], step, audit, end);
      PartsAreWork(c, 2);
    }
  }

  lemma IrreversibleIsWork(c: seq<Call>, step: Step, requirement: RecoveryRequirement, end: Ending)
    requires WorksIrreversible(c, step, requirement, end)
    ensures AreWork(c)
  {
    PendingIsWork(c[0].reply.ok && c[0].reply.irreversible.IsValidPendingFor(requirement, ProgressKey(step.id)),
                  c[0].reply.irreversible, c, step, end);
  }

  lemma MixedIsWork(c: seq<Call>, step: Step, end: Ending)
    requires WorksMixed(c, step, end)
    ensures AreWork(c)
  {
    var n, first :| 0 <= n <= |c| && CapturesAndPersists(c[..n], step, first)
                    && if first.Some? then n == |c| && end == first else WorksIrreversible(c[n..], step, Mixed, end);
    CaptureIsWork(c[..n], step, first);
    if first.None? {
      IrreversibleIsWork(c[n..], step, Mixed, end);
    }
    PartsAreWork(c, n);
  }

  lemma AnsweredIsWork(c: seq<Call>, step: Step, end: Ending)
    requires WorksAsAnswered(c, step, end)
    ensures AreWork(c)
  {
    if c[0].reply.recovery.Mixed? {
      MixedIsWork(c[1..], step, end);
    } else {
      IrreversibleIsWork(c[1..], step, c[0].reply.recovery, end);
    }
    PartsAreWork(c, 1);
  }

  lemma ChosenIsWork(c: seq<Call>, step: Step, recovery: RecoveryRequirement, end: Ending)
    requires match recovery
             case LosslessBackup => WorksLossless(c, step, end)
             case RebuildableAuditing => WorksRebuildable(c, step, end)
             case _ => WorksAsAnswered(c, step, end)
    ensures AreWork(c)
  {
    match recovery
    case LosslessBackup => LosslessIsWork(c, step, end);
    case RebuildableAuditing => RebuildableIsWork(c, step, end);
    case _ => AnsweredIsWork(c, step, end);
  }

  lemma MutationIsWork(c: seq<Call>, step: Step, end: Ending)
    requires Mutates(c, step, end)
    ensures AreWork(c)
  {
    ChosenIsWork(c[1..], step, c[0].reply.recovery, end);
    PartsAreWork(c, 1);
  }

  lemma DurableIsWork(c: seq<Call>, step: Step, end: Ending)
    requires ObservesDurably(c, step, end)
    ensures AreWork(c)
  {
    if |c| > 3 {
      assert c[3..][0] == c[3];
    }
  }

  lemma ObservationIsWork(c: seq<Call>, step: Step, end: Ending)
    requires Observes(c, step, end)
    ensures AreWork(c)
  {
    if c[0].reply.evidence.DurableReceipt? {
      DurableIsWork(c[1..], step, end);
    }
    PartsAreWork(c, 1);
  }

  lemma WorkedIsWork(a: Attempt, k: nat, n: int, worked: Ending, w: seq<Call>)
    requires 0 < k <= |a.calls| && a.WorksUntil(k, n, worked) && w == a.calls[k..n]
    ensures AreWork(w)
  {
    if a.calls[k - 1].reply.inspection.NeedsApply? && !a.step.checkOnly {
      MutationIsWork(w, a.step, worked);
    } else {
      ObservationIsWork(w, a.step, worked);
    }
  }

  lemma AfterTheWork(a: Attempt, n: nat, worked: Ending, i: nat)
    requires if worked.Some? then a.StopsAt(n, worked.value) else a.RecordsCompletion(n)
    requires n <= i < |a.calls|
    ensures a.calls[i].request.AskTimestamp? || a.calls[i].request.PersistProgress?
  {
  }

  /** From the inspection at k on, no question is asked and nothing is inspected again. */
  lemma NoQuestionsAfterInspection(a: Attempt, k: nat, i: nat)
    requires a.Reacts(k) && k < i < |a.calls|
    ensures !a.calls[i].request.AskCancelled? && !a.calls[i].request.AskConsent? && !a.calls[i].request.Inspect?
  {
    if a.calls[k].reply.ok && (a.calls[k].reply.inspection.Satisfied? || a.calls[k].reply.inspection.NeedsApply?) {
      assert a.Works(k + 1);
      var n, worked :| a.WorksUntil(k + 1, n, worked);
      NoQuestionsInWork(a, k + 1, n, worked, i);
    }
  }

  lemma NoQuestionsInWork(a: Attempt, k: nat, n: int, worked: Ending, i: nat)
    requires 0 < k <= i < |a.calls| && a.WorksUntil(k, n, worked)
    ensures !a.calls[i].request.AskCancelled? && !a.calls[i].request.AskConsent? && !a.calls[i].request.Inspect?
  {
    if i < n {
      var w := a.calls[k..n];
      WorkedIsWork(a, k, n, worked, w);
      assert a.calls[i] == w[i - k];
      assert IsWork(w[i - k].request);
    } else {
      AfterTheWork(a, n, worked, i);
    }
  }

  // ---------------------------------------------------------------------
  // What replies lead to
  // ---------------------------------------------------------------------

  /** A cancellation is the last call: it changes no books and names the step it stopped at. */
  lemma CancellationIsLast(a: Attempt, profile: Profile, k: nat)
    requires a.IsLive(profile) && k < |a.calls| && a.calls[k].request.AskCancelled?
    ensures k == 0
    ensures a.calls[k].reply.yes ==> |a.calls| == 1 && a.end == Some(CancelledError(a.Key())) && a.Unmoved()
  {
    QuestionsComeFirst(a, profile, k);
  }

  /** Where the questions and the inspection of a live attempt stand, and under which decision. */
  lemma QuestionsComeFirst(a: Attempt, profile: Profile, k: nat)
    requires a.IsLive(profile) && k < |a.calls|
    ensures a.calls[k].request.AskCancelled? ==> k == 0
    ensures a.calls[k].request.AskConsent? ==> k == 1 && Decide(profile, a.step.tier, a.step.risk).Prompt?
    ensures a.calls[k].request.Inspect? ==>
              || (k == 1 && Decide(profile, a.step.tier, a.step.risk).Auto?)
              || (k == 2 && Decide(profile, a.step.tier, a.step.risk).Prompt? && a.calls[1].reply.yes)
  {
    if k > 0 {
      match Decide(profile, a.step.tier, a.step.risk)
      case Skip =>
      case Auto =>
        if k > 1 {
          NoQuestionsAfterInspection(a, 1, k);
        }
      case Prompt =>
        if k > 2 && a.calls[1].reply.yes {
          NoQuestionsAfterInspection(a, 2, k);
        }
    }
  }

  /**
   * A consent asked for is followed at once by the inspection if it is given. If it
   * is refused it is followed at once, and finally, by the persist that adds the key
   * to the skipped ones; nothing of the step is inspected or applied.
   */
  lemma ConsentDecides(a: Attempt, profile: Profile, k: nat)
    requires a.IsLive(profile) && k < |a.calls| && a.calls[k].request.AskConsent?
    ensures a.calls[k].request == AskConsent(a.step) && k + 1 < |a.calls|
    ensures a.calls[k].reply.yes ==> a.calls[k + 1].request == Inspect(a.step)
    ensures !a.calls[k].reply.yes ==>
              && |a.calls| == k + 2 && a.calls[k + 1].request.PersistProgress?
              && a.calls[k + 1].request.progress.skipped == a.before.skipped + {a.Key()}
              && (forall c <- a.calls :: !c.request.Inspect? && !c.request.Apply?)
              && (a.end.None? ==> a.Key() in a.after.skipped && a.counted.skipped == a.report.skipped + 1)
  {
    QuestionsComeFirst(a, profile, k);
    if !a.calls[k].reply.yes {
      forall c | c in a.calls ensures !c.request.Inspect? && !c.request.Apply? {
        var i :| 0 <= i < |a.calls| && a.calls[i] == c;
      }
    }
  }

  /** A step the profile skips is recorded as skipped without being inspected. */
  lemma SkippedStepIsNotInspected(a: Attempt, profile: Profile)
    requires a.IsLive(profile) && Decide(profile, a.step.tier, a.step.risk).Skip?
    ensures forall c <- a.calls :: !c.request.Inspect? && !c.request.Apply? && !c.request.AskConsent?
    ensures a.end.None? && !a.before.Recorded(a.Key()) ==> a.Key() in a.after.skipped
  {
  }

  /** What the step is recorded as is what its inspection found; an unsupported step is an error. */
  lemma InspectionDecides(a: Attempt, profile: Profile, k: nat)
    requires a.IsLive(profile) && k < |a.calls| && a.calls[k].request.Inspect?
    ensures a.calls[k].request == Inspect(a.step)
    ensures a.end.Some? ==> a.Unmoved()
    ensures a.end.None? ==>
              && a.calls[k].reply.ok
              && match a.calls[k].reply.inspection
                 case Unsupported => false
                 case Inapplicable =>
                   a.Key() in a.after.skipped && a.Key() !in a.after.completed && a.Key() !in a.after.advisories
                   && a.counted == a.report.(skipped := a.report.skipped + 1)
                 case Advisory(reason) =>
                   a.Key() in a.after.advisories && a.after.advisories[a.Key()] == reason
                   && a.Key() !in a.after.completed && a.Key() !in a.after.skipped
                   && a.counted == a.report.(advisories := a.report.advisories + 1)
                 case _ =>
                   a.Key() in a.after.completed && a.Key() !in a.after.skipped && a.Key() !in a.after.advisories
                   && a.counted == a.report.(completed := a.report.completed + 1)
    ensures a.calls[k].reply.ok && a.calls[k].reply.inspection.Unsupported? ==>
              |a.calls| == k + 1 && a.end == Some(UnsupportedError(a.Key()))
  {
    QuestionsComeFirst(a, profile, k);
  }
}
