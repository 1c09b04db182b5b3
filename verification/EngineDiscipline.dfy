/** Every run of the engine, against every backend, keeps the trace disciplined. */
module EngineDiscipline {
  import opened Wrappers
  import opened Policy
  import opened Catalog
  import opened ProgressModel
  import opened Audit
  import opened Backend
  import opened EngineSpec
  import opened EngineLedger

  /** A backend, a property of worlds that its calls preserve, and the initial progress. */
  datatype Context = Context(oracle: Oracle, stable: World -> bool, initial: Progress) {
    ghost predicate Valid() {
      forall w, r :: stable(w) ==> stable(After(w, r, oracle(w, r)))
    }
  }

  ghost predicate Kept(c: Context, s: Session) {
    c.Valid() && Disciplined(c.initial, s.world.trace) && c.stable(s.world)
  }

  function LedgerOf(c: Context, s: Session): Ledger {
    Read(c.initial, s.world.trace)
  }

  /** Between steps: disciplined so far, no audit left open, memory in step with the trace. */
  ghost predicate AtRest(c: Context, s: Session) {
    && Kept(c, s)
    && LedgerOf(c, s).open.None?
    && LedgerOf(c, s).memory == s.progress
  }

  /** Inside a step attempt on `step`, the last inspection being its own. */
  ghost predicate Within(c: Context, s: Session, step: Step) {
    AtRest(c, s) && LedgerOf(c, s).subject == Some(step)
  }

  lemma AskKeeps(c: Context, s: Session, request: Request)
    requires Kept(c, s) && Permits(LedgerOf(c, s), request)
    ensures var (next, reply) := Ask(c.oracle, s, request);
            && Kept(c, next)
            && LedgerOf(c, next) == Observe(LedgerOf(c, s), Call(request, reply))
            && next.progress == s.progress && next.report == s.report
  {
    Extend(c.initial, s.world.trace, Call(request, c.oracle(s.world, request)));
  }

  lemma VerifyKeeps(c: Context, s: Session, step: Step)
    requires Kept(c, s) && LedgerOf(c, s).subject == Some(step) && !LedgerOf(c, s).verified
    ensures var run := VerifyOperation(c.oracle, s, step);
            && Kept(c, run.session)
            && LedgerOf(c, run.session) == LedgerOf(c, s).(verified := run.Going?)
            && run.session.progress == s.progress
  {
    AskKeeps(c, s, Verify(step));
  }

  lemma ApplyAndVerifyKeeps(c: Context, s: Session, step: Step)
    requires Kept(c, s) && LedgerOf(c, s).subject == Some(step)
    requires LedgerOf(c, s).needsApply && !step.checkOnly && Protected(LedgerOf(c, s))
    ensures var run := ApplyAndVerify(c.oracle, s, step);
            && Kept(c, run.session)
            && LedgerOf(c, run.session) == LedgerOf(c, s).(verified := run.Going?, captured := None)
            && run.session.progress == s.progress
  {
    AskKeeps(c, s, Apply(step));
    var (applied, reply) := Ask(c.oracle, s, Apply(step));
    if reply.ok {
      VerifyKeeps(c, applied, step);
    }
  }

  lemma CaptureKeeps(c: Context, s: Session, step: Step)
    requires Kept(c, s) && LedgerOf(c, s).subject == Some(step)
    ensures var run := CaptureLosslessBackups(c.oracle, s, step);
            var l, m := LedgerOf(c, s), LedgerOf(c, run.session);
            && Kept(c, run.session)
            && m == l.(captured := m.captured, backups := m.backups)
            && (run.Going? ==> m.backups)
            && run.session.progress == s.progress
  {
    AskKeeps(c, s, CaptureBackups(step));
    var (captured, reply) := Ask(c.oracle, s, CaptureBackups(step));
    if reply.ok && reply.entries != [] {
      AskKeeps(c, captured, PersistBackups(reply.entries));
    }
  }

  lemma LosslessKeeps(c: Context, s: Session, step: Step)
    requires Within(c, s, step) && LedgerOf(c, s).needsApply && !step.checkOnly
    requires LedgerOf(c, s).recovery == Some(LosslessBackup)
    ensures var run := RunLosslessOperation(c.oracle, s, step);
            && Within(c, run.session, step)
            && (run.Going? ==> LedgerOf(c, run.session).verified)
            && run.session.progress == s.progress
  {
    CaptureKeeps(c, s, step);
    var captured := CaptureLosslessBackups(c.oracle, s, step);
    if captured.Going? {
      ApplyAndVerifyKeeps(c, captured.session, step);
    }
  }

  /** Calls the ledger does not look at. */
  predicate Neutral(r: Request) {
    r.AskTimestamp? || r.CaptureEvidence? || r.PersistEvidence? || r.VerifyEvidence?
    || r.CapturePendingAudit? || r.CaptureIrreversible? || r.AskEvidence? || r.FinalizeAudit?
  }

  lemma NeutralKeeps(c: Context, s: Session, request: Request)
    requires Kept(c, s) && Neutral(request) && Permits(LedgerOf(c, s), request)
    ensures var next := Ask(c.oracle, s, request).0;
            && Kept(c, next) && LedgerOf(c, next) == LedgerOf(c, s)
            && next.progress == s.progress
  {
    AskKeeps(c, s, request);
  }

  lemma EvidenceKeeps(c: Context, s: Session, step: Step)
    requires Within(c, s, step) && !LedgerOf(c, s).verified
    ensures var run := RunEvidenceOperation(c.oracle, s, step);
            && Within(c, run.session, step)
            && (run.Going? ==> LedgerOf(c, run.session).verified)
            && run.session.progress == s.progress
  {
    NeutralKeeps(c, s, CaptureEvidence(step));
    var (captured, reply) := Ask(c.oracle, s, CaptureEvidence(step));
    if reply.ok && reply.receipt.IsValidFor(ProgressKey(step.id)) {
      NeutralKeeps(c, captured, PersistEvidence(reply.receipt));
      var (persisted, stored) := Ask(c.oracle, captured, PersistEvidence(reply.receipt));
      if stored.ok {
        NeutralKeeps(c, persisted, VerifyEvidence(step, reply.receipt));
        var (verified, again) := Ask(c.oracle, persisted, VerifyEvidence(step, reply.receipt));
        if again.ok {
          VerifyKeeps(c, verified, step);
        }
      }
    }
  }

  lemma MutateUnderRebuildableKeeps(c: Context, s: Session, step: Step, audit: RebuildableAudit)
    requires Within(c, s, step) && LedgerOf(c, s).needsApply && !step.checkOnly
    requires Protected(LedgerOf(c, s)) && LedgerOf(c, s).audit
    ensures var run := MutateUnderRebuildableAudit(c.oracle, s, step, audit);
            && Within(c, run.session, step)
            && (run.Going? ==> LedgerOf(c, run.session).verified)
            && run.session.progress == s.progress
  {
    ApplyAndVerifyKeeps(c, s, step);
    var applied := ApplyAndVerify(c.oracle, s, step);
    if applied.Going? {
      NeutralKeeps(c, applied.session, AskTimestamp);
      var (stamped, now) := Ask(c.oracle, applied.session, AskTimestamp);
      NeutralKeeps(c, stamped, FinalizeAudit(audit.Finalized(now.timestamp)));
    }
  }

  lemma RebuildableKeeps(c: Context, s: Session, step: Step)
    requires Within(c, s, step) && LedgerOf(c, s).needsApply && !step.checkOnly
    requires LedgerOf(c, s).recovery == Some(RebuildableAuditing)
    ensures var run := RunRebuildableOperation(c.oracle, s, step);
            && Within(c, run.session, step)
            && (run.Going? ==> LedgerOf(c, run.session).verified)
            && run.session.progress == s.progress
  {
    NeutralKeeps(c, s, CapturePendingAudit(step));
    var (captured, reply) := Ask(c.oracle, s, CapturePendingAudit(step));
    if reply.ok && reply.audit.IsValidPendingFor(ProgressKey(step.id)) {
      AskKeeps(c, captured, PersistPendingAudit(reply.audit));
      var (persisted, stored) := Ask(c.oracle, captured, PersistPendingAudit(reply.audit));
      if stored.ok {
        MutateUnderRebuildableKeeps(c, persisted, step, reply.audit);
      }
    }
  }

  lemma FailingCloses(c: Context, s: Session, audit: IrreversibleAudit, now: string)
    requires Kept(c, s) && LedgerOf(c, s).open == Some(audit) && !LedgerOf(c, s).verified
    ensures var next := Ask(c.oracle, s, FailIrreversible(audit.FailedAt(now))).0;
            && Kept(c, next) && next.progress == s.progress
            && LedgerOf(c, next) == LedgerOf(c, s).(open := None)
  {
    var failed := audit.FailedAt(now);
    assert failed.SameSubject(audit) && failed.outcome.Failed?;
    AskKeeps(c, s, FailIrreversible(failed));
  }

  lemma FailKeeps(c: Context, s: Session, step: Step, audit: IrreversibleAudit, error: EngineError)
    requires Kept(c, s) && LedgerOf(c, s).subject == Some(step)
    requires LedgerOf(c, s).open == Some(audit) && !LedgerOf(c, s).verified
    requires LedgerOf(c, s).memory == s.progress
    ensures var run := FailAudit(c.oracle, s, step, audit, error);
            && Within(c, run.session, step) && run.Halted? && run.session.progress == s.progress
  {
    NeutralKeeps(c, s, AskTimestamp);
    var (stamped, now) := Ask(c.oracle, s, AskTimestamp);
    FailingCloses(c, stamped, audit, now.timestamp);
  }

  lemma FinalizeKeeps(c: Context, s: Session, step: Step, audit: IrreversibleAudit)
    requires Kept(c, s) && LedgerOf(c, s).subject == Some(step)
    requires LedgerOf(c, s).open == Some(audit) && LedgerOf(c, s).verified
    requires LedgerOf(c, s).memory == s.progress
    ensures var run := FinalizeIrreversibleAudit(c.oracle, s, step, audit);
            && Within(c, run.session, step) && LedgerOf(c, run.session).verified
            && run.session.progress == s.progress
  {
    NeutralKeeps(c, s, AskTimestamp);
    var (stamped, now) := Ask(c.oracle, s, AskTimestamp);
    AskKeeps(c, stamped, FinalizeIrreversible(audit.Finalized(now.timestamp)));
  }

  lemma CloseKeeps(c: Context, s: Session, step: Step, audit: IrreversibleAudit)
    requires Kept(c, s) && LedgerOf(c, s).subject == Some(step)
    requires LedgerOf(c, s).needsApply && !step.checkOnly && Protected(LedgerOf(c, s))
    requires LedgerOf(c, s).open == Some(audit) && LedgerOf(c, s).memory == s.progress
    ensures var run := CloseAudit(c.oracle, s, step, audit);
            && Within(c, run.session, step)
            && (run.Going? ==> LedgerOf(c, run.session).verified)
            && run.session.progress == s.progress
  {
    ApplyAndVerifyKeeps(c, s, step);
    var applied := ApplyAndVerify(c.oracle, s, step);
    if applied.Halted? {
      FailKeeps(c, applied.session, step, audit, applied.error);
    } else {
      FinalizeKeeps(c, applied.session, step, audit);
    }
  }

  /** A valid pending audit may be persisted, and once it is the step is protected. */
  lemma PersistingOpens(c: Context, s: Session, step: Step, requirement: RecoveryRequirement, audit: IrreversibleAudit)
    requires Within(c, s, step) && LedgerOf(c, s).needsApply
    requires LedgerOf(c, s).recovery == Some(requirement) && audit.IsValidPendingFor(requirement, ProgressKey(step.id))
    requires requirement.Mixed? ==> LedgerOf(c, s).backups
    ensures var (next, stored) := Ask(c.oracle, s, PersistIrreversible(audit));
            && Kept(c, next) && next.progress == s.progress && next.report == s.report
            && LedgerOf(c, next) == LedgerOf(c, s).(open := if stored.ok then Some(audit) else None, verified := false)
            && (stored.ok ==> Protected(LedgerOf(c, next)))
  {
    AskKeeps(c, s, PersistIrreversible(audit));
  }

  lemma PendingIrreversibleKeeps(c: Context, s: Session, step: Step, requirement: RecoveryRequirement)
    requires Within(c, s, step) && LedgerOf(c, s).needsApply && !step.checkOnly
    requires LedgerOf(c, s).recovery == Some(requirement)
    requires requirement.Mixed? ==> LedgerOf(c, s).backups
    ensures var run := RunPendingIrreversibleAudit(c.oracle, s, step, requirement);
            && Within(c, run.session, step)
            && (run.Going? ==> LedgerOf(c, run.session).verified)
            && run.session.progress == s.progress
  {
    AskKeeps(c, s, CaptureIrreversible(step));
    var (captured, reply) := Ask(c.oracle, s, CaptureIrreversible(step));
    if reply.ok && reply.irreversible.IsValidPendingFor(requirement, ProgressKey(step.id)) {
      PersistingOpens(c, captured, step, requirement, reply.irreversible);
      var (persisted, stored) := Ask(c.oracle, captured, PersistIrreversible(reply.irreversible));
      if stored.ok {
        CloseKeeps(c, persisted, step, reply.irreversible);
      }
    }
  }

  lemma IrreversibleKeeps(c: Context, s: Session, step: Step)
    requires Within(c, s, step) && LedgerOf(c, s).needsApply && !step.checkOnly
    ensures var run := RunIrreversibleOperation(c.oracle, s, step);
            && Within(c, run.session, step)
            && (run.Going? ==> LedgerOf(c, run.session).verified)
            && run.session.progress == s.progress
  {
    AskKeeps(c, s, AskRecovery(step));
    var (asked, reply) := Ask(c.oracle, s, AskRecovery(step));
    if reply.recovery.Mixed? {
      CaptureKeeps(c, asked, step);
      var captured := CaptureLosslessBackups(c.oracle, asked, step);
      if captured.Going? {
        PendingIrreversibleKeeps(c, captured.session, step, reply.recovery);
      }
    } else {
      PendingIrreversibleKeeps(c, asked, step, reply.recovery);
    }
  }

  lemma MutationKeeps(c: Context, s: Session, step: Step)
    requires Within(c, s, step) && LedgerOf(c, s).needsApply && !step.checkOnly
    ensures var run := RunMutation(c.oracle, s, step);
            && Within(c, run.session, step)
            && (run.Going? ==> LedgerOf(c, run.session).verified)
            && run.session.progress == s.progress
  {
    AskKeeps(c, s, AskRecovery(step));
    var (asked, reply) := Ask(c.oracle, s, AskRecovery(step));
    match reply.recovery
    case RebuildableAuditing => RebuildableKeeps(c, asked, step);
    case ManualRecoveryAuditing => IrreversibleKeeps(c, asked, step);
    case Mixed => IrreversibleKeeps(c, asked, step);
    case LosslessBackup => LosslessKeeps(c, asked, step);
  }

  lemma ObservationKeeps(c: Context, s: Session, step: Step)
    requires Within(c, s, step) && !LedgerOf(c, s).verified
    ensures var run := RunObservation(c.oracle, s, step);
            && Within(c, run.session, step)
            && (run.Going? ==> LedgerOf(c, run.session).verified)
            && run.session.progress == s.progress
  {
    AskKeeps(c, s, AskEvidence(step));
    var (asked, reply) := Ask(c.oracle, s, AskEvidence(step));
    if reply.evidence.DurableReceipt? {
      EvidenceKeeps(c, asked, step);
    } else {
      VerifyKeeps(c, asked, step);
    }
  }

  lemma RecordKeeps(c: Context, s: Session, step: Step, how: Resolution)
    requires AtRest(c, s)
    requires how.AsCompleted? ==> LedgerOf(c, s).verified && LedgerOf(c, s).subject == Some(step)
    ensures AtRest(c, Record(c.oracle, s, step, how).session)
  {
    AskKeeps(c, s, PersistProgress(Resolve(s.progress, step.id, how)));
  }

  lemma LiveStepKeeps(c: Context, s: Session, step: Step, inspection: Inspection)
    requires Within(c, s, step) && !LedgerOf(c, s).verified
    requires LedgerOf(c, s).needsApply <==> inspection.NeedsApply?
    ensures AtRest(c, RunLiveStep(c.oracle, s, step, inspection).session)
  {
    match inspection
    case Unsupported =>
    case Inapplicable => RecordKeeps(c, s, step, AsSkipped);
    case Advisory(reason) => RecordKeeps(c, s, step, AsAdvisory(reason));
    case Satisfied =>
      ObservationKeeps(c, s, step);
      CompleteKeeps(c, RunObservation(c.oracle, s, step), step);
    case NeedsApply =>
      if step.checkOnly {
        ObservationKeeps(c, s, step);
        CompleteKeeps(c, RunObservation(c.oracle, s, step), step);
      } else {
        MutationKeeps(c, s, step);
        CompleteKeeps(c, RunMutation(c.oracle, s, step), step);
      }
  }

  lemma CompleteKeeps(c: Context, run: Run, step: Step)
    requires Within(c, run.session, step)
    requires run.Going? ==> LedgerOf(c, run.session).verified
    ensures run.Going? ==> AtRest(c, CompleteLiveStep(c.oracle, run.session, step).session)
  {
    if run.Going? {
      AskKeeps(c, run.session, AskTimestamp);
      var (stamped, now) := Ask(c.oracle, run.session, AskTimestamp);
      RecordKeeps(c, stamped, step, AsCompleted(now.timestamp));
    }
  }

  lemma InspectAndRunKeeps(c: Context, dry: bool, s: Session, step: Step)
    requires AtRest(c, s)
    ensures AtRest(c, InspectAndRun(c.oracle, dry, s, step).session)
  {
    AskKeeps(c, s, Inspect(step));
    var (inspected, reply) := Ask(c.oracle, s, Inspect(step));
    if reply.ok {
      if dry {
        AskKeeps(c, inspected, Plan(step));
      } else {
        LiveStepKeeps(c, inspected, step, reply.inspection);
      }
    }
  }

  lemma SkipKeeps(c: Context, dry: bool, s: Session, step: Step)
    requires AtRest(c, s)
    ensures AtRest(c, RecordSkip(c.oracle, dry, s, step).session)
  {
    if !dry {
      RecordKeeps(c, s, step, AsSkipped);
    }
  }

  lemma DecideAndRunKeeps(c: Context, dry: bool, s: Session, step: Step, profile: Profile)
    requires AtRest(c, s)
    ensures AtRest(c, DecideAndRun(c.oracle, dry, s, step, profile).session)
  {
    match Decide(profile, step.tier, step.risk)
    case Skip => SkipKeeps(c, dry, s, step);
    case Auto => InspectAndRunKeeps(c, dry, s, step);
    case Prompt =>
      if dry {
        InspectAndRunKeeps(c, dry, s, step);
      } else {
        AskKeeps(c, s, AskConsent(step));
        var (asked, answer) := Ask(c.oracle, s, AskConsent(step));
        if answer.yes {
          InspectAndRunKeeps(c, dry, asked, step);
        } else {
          SkipKeeps(c, dry, asked, step);
        }
      }
  }

  lemma StepKeeps(c: Context, dry: bool, s: Session, step: Step, profile: Profile)
    requires AtRest(c, s)
    ensures AtRest(c, RunStep(c.oracle, dry, s, step, profile).session)
  {
    DecideAndRunKeeps(c, dry, s, step, profile);
    AskKeeps(c, s, AskCancelled);
    DecideAndRunKeeps(c, dry, Ask(c.oracle, s, AskCancelled).0, step, profile);
  }

  /**
   * Whatever the backend answers and wherever the run stops, the trace stays
   * disciplined, no audit stays open and the memory is what was last persisted.
   */
  lemma {:induction false} RunIsDisciplined(c: Context, dry: bool, s: Session,
                                            steps: seq<Step>, profile: Profile)
    requires AtRest(c, s)
    ensures AtRest(c, RunSteps(c.oracle, dry, s, steps, profile).session)
    decreases |steps|
  {
    if steps != [] {
      StepKeeps(c, dry, s, steps[0], profile);
      var first := RunStep(c.oracle, dry, s, steps[0], profile);
      if first.Going? {
        RunIsDisciplined(c, dry, first.session, steps[1..], profile);
      }
    }
  }

  function StartOf(w: World, progress: Progress): Session {
    Session(w.(trace := []), progress, EMPTY_REPORT)
  }

  /**
   * The engine's safety in one statement, for a run on a fresh trace: every apply
   * was protected, every new completion verified, every irreversible audit closed
   * exactly once and truthfully, every close owed to an audit, and memory holds
   * exactly the last persisted progress.
   */
  lemma EveryRunIsSafe(o: Oracle, dry: bool, w: World, progress: Progress, steps: seq<Step>, profile: Profile)
    ensures var end := RunSteps(o, dry, StartOf(w, progress), steps, profile).session;
            var t := end.world.trace;
            && end.progress == LastPersisted(progress, t)
            && (forall i :: 0 <= i < |t| && t[i].request.Apply? ==> ProtectedApply(t, i, t[i].request.step))
            && (forall i, key :: 0 <= i < |t| && t[i].request.PersistProgress?
                  && key in t[i].request.progress.completed && key !in LastPersisted(progress, t[..i]).completed
                  ==> VerifiedCompletion(t, i, key))
            && (forall i, audit :: IrreversiblePersisted(t, i, audit) ==> exists j :: ClosedAt(t, i, j, audit))
            && (forall j :: 0 <= j < |t| && Closes(t[j]) ==> exists i, audit :: OwedBy(t, i, j, audit))
  {
    var s := StartOf(w, progress);
    RunIsDisciplined(Context(o, w => true, progress), dry, s, steps, profile);
    var end := RunSteps(o, dry, s, steps, profile).session;
    var t := end.world.trace;
    MemoryIsLastPersisted(progress, t);
    forall i | 0 <= i < |t| && t[i].request.Apply? ensures ProtectedApply(t, i, t[i].request.step) {
      ApplyIsProtected(progress, t, i);
    }
    forall i, key | 0 <= i < |t| && t[i].request.PersistProgress?
                    && key in t[i].request.progress.completed && key !in LastPersisted(progress, t[..i]).completed
      ensures VerifiedCompletion(t, i, key)
    {
      CompletionsAreVerified(progress, t, i, key);
    }
    forall i, audit | IrreversiblePersisted(t, i, audit) ensures exists j :: ClosedAt(t, i, j, audit) {
      EveryAuditIsClosedOnce(progress, t, i, audit);
    }
    forall j | 0 <= j < |t| && Closes(t[j]) ensures exists i, audit :: OwedBy(t, i, j, audit) {
      ClosesAreOwed(progress, t, j);
    }
  }
}
