/** The recovery engine as a function of the backend's replies. */
module EngineSpec {
  import opened Policy
  import opened Catalog
  import opened ProgressModel
  import opened Audit
  import opened Backend

  /** Which stage of which step failed. The display text is left out. */
  datatype EngineError =
    | InspectError(key: string)
    | UnsupportedError(key: string)
    | CancelledError(key: string)
    | BackupError(key: string)
    | PersistError(key: string)
    | AuditCaptureError(key: string)
    | AuditPersistError(key: string)
    | EvidenceCaptureError(key: string)
    | EvidencePersistError(key: string)
    | EvidenceVerifyError(key: string)
    | ApplyError(key: string)
    | VerifyError(key: string)
    | AuditFinalizeError(key: string)
    | AuditFailurePersistError(key: string)
    | ProgressError(key: string)

  datatype RunReport = RunReport(completed: nat, skipped: nat, advisories: nat, failed: nat)

  const EMPTY_REPORT := RunReport(0, 0, 0, 0)

  /** The world, the engine's in-memory progress and the report so far. */
  datatype Session = Session(world: World, progress: Progress, report: RunReport)

  /** Failure-compatible: a halted attempt still carries the session it left behind. */
  datatype Attempt<+T> = Going(session: Session, value: T) | Halted(session: Session, error: EngineError) {
    predicate IsFailure() {
      Halted?
    }

    function PropagateFailure<U>(): Attempt<U>
      requires Halted?
    {
      Halted(session, error)
    }

    function Extract(): (Session, T)
      requires Going?
    {
      (session, value)
    }
  }

  type Run = Attempt<()>

  function Done(s: Session): Run {
    Going(s, ())
  }

  /** A call that always goes on: queries, consent and cancellation. */
  function Ask(o: Oracle, s: Session, request: Request): (Session, Reply) {
    var reply := o(s.world, request);
    (s.(world := After(s.world, request, reply)), reply)
  }

  /** A call whose failure ends the step with `error`. */
  function Try(o: Oracle, s: Session, request: Request, error: EngineError): Attempt<Reply> {
    var (next, reply) := Ask(o, s, request);
    if reply.ok then Going(next, reply) else Halted(next, error)
  }

  /** The same when the reply carries nothing the caller needs. */
  function Do(o: Oracle, s: Session, request: Request, error: EngineError): Run {
    var (next, _) :- Try(o, s, request, error);
    Done(next)
  }

  function VerifyOperation(o: Oracle, s: Session, step: Step): Run {
    Do(o, s, Verify(step), VerifyError(ProgressKey(step.id)))
  }

  function ApplyAndVerify(o: Oracle, s: Session, step: Step): Run {
    var (applied, _) :- Do(o, s, Apply(step), ApplyError(ProgressKey(step.id)));
    VerifyOperation(o, applied, step)
  }

  function CaptureLosslessBackups(o: Oracle, s: Session, step: Step): Run {
    var key := ProgressKey(step.id);
    var (captured, backups) :- Try(o, s, CaptureBackups(step), BackupError(key));
    if backups.entries == [] then Halted(captured, BackupError(key))
    else Do(o, captured, PersistBackups(backups.entries), PersistError(key))
  }

  function RunLosslessOperation(o: Oracle, s: Session, step: Step): Run {
    var (protected, _) :- CaptureLosslessBackups(o, s, step);
    ApplyAndVerify(o, protected, step)
  }

  function RunEvidenceOperation(o: Oracle, s: Session, step: Step): Run {
    var key := ProgressKey(step.id);
    var (captured, reply) :- Try(o, s, CaptureEvidence(step), EvidenceCaptureError(key));
    if !reply.receipt.IsValidFor(key) then Halted(captured, EvidenceCaptureError(key))
    else
      var (persisted, _) :- Do(o, captured, PersistEvidence(reply.receipt), EvidencePersistError(key));
      var (verified, _) :- Do(o, persisted, VerifyEvidence(step, reply.receipt), EvidenceVerifyError(key));
      VerifyOperation(o, verified, step)
  }

  function RunRebuildableOperation(o: Oracle, s: Session, step: Step): Run {
    var key := ProgressKey(step.id);
    var (captured, reply) :- Try(o, s, CapturePendingAudit(step), AuditCaptureError(key));
    if !reply.audit.IsValidPendingFor(key) then Halted(captured, AuditCaptureError(key))
    else
      var (persisted, _) :- Do(o, captured, PersistPendingAudit(reply.audit), AuditPersistError(key));
      MutateUnderRebuildableAudit(o, persisted, step, reply.audit)
  }

  function MutateUnderRebuildableAudit(o: Oracle, s: Session, step: Step, audit: RebuildableAudit): Run {
    var (applied, _) :- ApplyAndVerify(o, s, step);
    var (stamped, now) := Ask(o, applied, AskTimestamp);
    Do(o, stamped, FinalizeAudit(audit.Finalized(now.timestamp)), AuditFinalizeError(ProgressKey(step.id)))
  }

  function FailAudit(o: Oracle, s: Session, step: Step, audit: IrreversibleAudit, error: EngineError): Run {
    var (stamped, now) := Ask(o, s, AskTimestamp);
    var (failed, _) :- Do(o, stamped, FailIrreversible(audit.FailedAt(now.timestamp)),
                           AuditFailurePersistError(ProgressKey(step.id)));
    Halted(failed, error)
  }

  function FinalizeIrreversibleAudit(o: Oracle, s: Session, step: Step, audit: IrreversibleAudit): Run {
    var (stamped, now) := Ask(o, s, AskTimestamp);
    Do(o, stamped, FinalizeIrreversible(audit.Finalized(now.timestamp)), AuditFinalizeError(ProgressKey(step.id)))
  }

  function CloseAudit(o: Oracle, s: Session, step: Step, audit: IrreversibleAudit): Run {
    match ApplyAndVerify(o, s, step)
    case Halted(stopped, error) => FailAudit(o, stopped, step, audit, error)
    case Going(applied, _) => FinalizeIrreversibleAudit(o, applied, step, audit)
  }

  function RunPendingIrreversibleAudit(o: Oracle, s: Session, step: Step, requirement: RecoveryRequirement): Run {
    var key := ProgressKey(step.id);
    var (captured, reply) :- Try(o, s, CaptureIrreversible(step), AuditCaptureError(key));
    if !reply.irreversible.IsValidPendingFor(requirement, key) then Halted(captured, AuditCaptureError(key))
    else
      var (persisted, _) :- Do(o, captured, PersistIrreversible(reply.irreversible), AuditPersistError(key));
      CloseAudit(o, persisted, step, reply.irreversible)
  }

  function RunIrreversibleOperation(o: Oracle, s: Session, step: Step): Run {
    var (asked, reply) := Ask(o, s, AskRecovery(step));
    if reply.recovery.Mixed? then
      var (protected, _) :- CaptureLosslessBackups(o, asked, step);
      RunPendingIrreversibleAudit(o, protected, step, reply.recovery)
    else
      RunPendingIrreversibleAudit(o, asked, step, reply.recovery)
  }

  /** The mutating paths, chosen by the recovery the backend demands. */
  function RunMutation(o: Oracle, s: Session, step: Step): Run {
    var (asked, reply) := Ask(o, s, AskRecovery(step));
    match reply.recovery
    case RebuildableAuditing => RunRebuildableOperation(o, asked, step)
    case ManualRecoveryAuditing => RunIrreversibleOperation(o, asked, step)
    case Mixed => RunIrreversibleOperation(o, asked, step)
    case LosslessBackup => RunLosslessOperation(o, asked, step)
  }

  /** Observation only: the step is satisfied already, or never mutates. */
  function RunObservation(o: Oracle, s: Session, step: Step): Run {
    var (asked, reply) := Ask(o, s, AskEvidence(step));
    if reply.evidence.DurableReceipt? then RunEvidenceOperation(o, asked, step)
    else VerifyOperation(o, asked, step)
  }

  /** Persist first; only a persisted resolution becomes the in-memory progress. */
  function Record(o: Oracle, s: Session, step: Step, how: Resolution): Run {
    var next := Resolve(s.progress, step.id, how);
    var (persisted, _) :- Do(o, s, PersistProgress(next), ProgressError(ProgressKey(step.id)));
    Done(persisted.(progress := next, report := Counted(s.report, how)))
  }

  function Counted(report: RunReport, how: Resolution): RunReport {
    match how
    case AsCompleted(_) => report.(completed := report.completed + 1)
    case AsSkipped => report.(skipped := report.skipped + 1)
    case AsAdvisory(_) => report.(advisories := report.advisories + 1)
  }

  function CompleteLiveStep(o: Oracle, s: Session, step: Step): Run {
    var (stamped, now) := Ask(o, s, AskTimestamp);
    Record(o, stamped, step, AsCompleted(now.timestamp))
  }

  function RunLiveStep(o: Oracle, s: Session, step: Step, inspection: Inspection): Run {
    match inspection
    case Unsupported => Halted(s, UnsupportedError(ProgressKey(step.id)))
    case Inapplicable => Record(o, s, step, AsSkipped)
    case Advisory(reason) => Record(o, s, step, AsAdvisory(reason))
    case _ =>
      var (done, _) :- if inspection.Satisfied? || step.checkOnly then RunObservation(o, s, step)
                       else RunMutation(o, s, step);
      CompleteLiveStep(o, done, step)
  }

  function ReportDryRun(o: Oracle, s: Session, step: Step, inspection: Inspection): Run {
    var (planned, _) :- Do(o, s, Plan(step), InspectError(ProgressKey(step.id)));
    Done(planned.(report := match inspection
      case Inapplicable => planned.report.(skipped := planned.report.skipped + 1)
      case Unsupported => planned.report.(failed := planned.report.failed + 1)
      case Advisory(_) => planned.report.(advisories := planned.report.advisories + 1)
      case _ => planned.report.(completed := planned.report.completed + 1)))
  }

  /** A step that policy and consent let through. */
  function InspectAndRun(o: Oracle, dry: bool, s: Session, step: Step): Run {
    var (inspected, reply) :- Try(o, s, Inspect(step), InspectError(ProgressKey(step.id)));
    if dry then ReportDryRun(o, inspected, step, reply.inspection)
    else RunLiveStep(o, inspected, step, reply.inspection)
  }

  function RecordSkip(o: Oracle, dry: bool, s: Session, step: Step): Run {
    if dry then Done(s.(report := Counted(s.report, AsSkipped)))
    else Record(o, s, step, AsSkipped)
  }

  function DecideAndRun(o: Oracle, dry: bool, s: Session, step: Step, profile: Profile): Run {
    match Decide(profile, step.tier, step.risk)
    case Skip => RecordSkip(o, dry, s, step)
    case Auto => InspectAndRun(o, dry, s, step)
    case Prompt =>
      if dry then InspectAndRun(o, dry, s, step)
      else
        var (asked, answer) := Ask(o, s, AskConsent(step));
        if answer.yes then InspectAndRun(o, dry, asked, step)
        else RecordSkip(o, dry, asked, step)
  }

  function RunStep(o: Oracle, dry: bool, s: Session, step: Step, profile: Profile): Run {
    if s.progress.Recorded(ProgressKey(step.id)) then Done(s)
    else if dry then DecideAndRun(o, dry, s, step, profile)
    else
      var (asked, answer) := Ask(o, s, AskCancelled);
      if answer.yes then Halted(asked, CancelledError(ProgressKey(step.id)))
      else DecideAndRun(o, dry, asked, step, profile)
  }

  /** The whole run, over a report that starts wherever `s.report` does. */
  function RunSteps(o: Oracle, dry: bool, s: Session, steps: seq<Step>, profile: Profile): Run
    decreases |steps|
  {
    if steps == [] then Done(s)
    else
      var (next, _) :- RunStep(o, dry, s, steps[0], profile);
      RunSteps(o, dry, next, steps[1..], profile)
  }
}
