/** The imperative engine: every path edits its own fields and calls the backend object. */
module Engine {
  import opened Wrappers
  import opened Policy
  import opened Catalog
  import opened ProgressModel
  import opened Audit
  import opened Backend
  import opened EngineSpec

  class RecoveryEngine {
    const host: Host
    var progress: Progress
    var report: RunReport

    function State(): Session
      reads this, host
    {
      Session(host.State(), progress, report)
    }

    /** The object ended as the specification's run does, with the same verdict. */
    predicate Ended(r: Outcome<EngineError>, run: Run)
      reads this, host
    {
      match run
      case Going(s, _) => r.Pass? && State() == s
      case Halted(s, error) => r == Fail(error) && State() == s
    }

    constructor (host: Host, progress: Progress)
      ensures this.host == host
      ensures State() == Session(host.State(), progress, EMPTY_REPORT)
    {
      this.host, this.progress, this.report := host, progress, EMPTY_REPORT;
    }

    method Attempt(request: Request, error: EngineError) returns (r: Outcome<EngineError>, reply: Reply)
      modifies this, host
      ensures reply == host.oracle(old(State()).world, request)
      ensures r == if reply.ok then Pass else Fail(error)
      ensures State() == Ask(host.oracle, old(State()), request).0
    {
      reply := host.Invoke(request);
      r := if reply.ok then Pass else Fail(error);
    }

    method Command(request: Request, error: EngineError) returns (r: Outcome<EngineError>)
      modifies this, host
      ensures Ended(r, Do(host.oracle, old(State()), request, error))
    {
      var _ :- Attempt(request, error);
      r := Pass;
    }

    method VerifyStep(step: Step) returns (r: Outcome<EngineError>)
      modifies this, host
      ensures Ended(r, VerifyOperation(host.oracle, old(State()), step))
    {
      r := Command(Verify(step), VerifyError(ProgressKey(step.id)));
    }

    method ApplyAndVerifyStep(step: Step) returns (r: Outcome<EngineError>)
      modifies this, host
      ensures Ended(r, ApplyAndVerify(host.oracle, old(State()), step))
    {
      var key := ProgressKey(step.id);
      :- Command(Apply(step), ApplyError(key));
      r := VerifyStep(step);
    }

    method CaptureBackups(step: Step) returns (r: Outcome<EngineError>)
      modifies this, host
      ensures Ended(r, CaptureLosslessBackups(host.oracle, old(State()), step))
    {
      var key := ProgressKey(step.id);
      var backups :- Attempt(Request.CaptureBackups(step), BackupError(key));
      if backups.entries == [] {
        return Fail(BackupError(key));
      }
      r := Command(PersistBackups(backups.entries), PersistError(key));
    }

    method RunLossless(step: Step) returns (r: Outcome<EngineError>)
      modifies this, host
      ensures Ended(r, RunLosslessOperation(host.oracle, old(State()), step))
    {
      r := CaptureBackups(step);
      if r.Pass? {
        r := ApplyAndVerifyStep(step);
      }
    }

    method RunEvidence(step: Step) returns (r: Outcome<EngineError>)
      modifies this, host
      ensures Ended(r, RunEvidenceOperation(host.oracle, old(State()), step))
    {
      var key := ProgressKey(step.id);
      var captured :- Attempt(CaptureEvidence(step), EvidenceCaptureError(key));
      if !captured.receipt.IsValidFor(key) {
        return Fail(EvidenceCaptureError(key));
      }
      :- Command(PersistEvidence(captured.receipt), EvidencePersistError(key));
      :- Command(VerifyEvidence(step, captured.receipt), EvidenceVerifyError(key));
      r := VerifyStep(step);
    }

    method RunRebuildable(step: Step) returns (r: Outcome<EngineError>)
      modifies this, host
      ensures Ended(r, RunRebuildableOperation(host.oracle, old(State()), step))
    {
      var key := ProgressKey(step.id);
      var captured :- Attempt(CapturePendingAudit(step), AuditCaptureError(key));
      var audit := captured.audit;
      if !audit.IsValidPendingFor(key) {
        return Fail(AuditCaptureError(key));
      }
      :- Command(PersistPendingAudit(audit), AuditPersistError(key));
      :- ApplyAndVerifyStep(step);
      var now := host.Invoke(AskTimestamp);
      r := Command(FinalizeAudit(audit.Finalized(now.timestamp)), AuditFinalizeError(key));
    }

    method RunIrreversible(step: Step) returns (r: Outcome<EngineError>)
      modifies this, host
      ensures Ended(r, RunIrreversibleOperation(host.oracle, old(State()), step))
    {
      var answer := host.Invoke(AskRecovery(step));
      if answer.recovery.Mixed? {
        :- CaptureBackups(step);
      }
      r := RunPendingIrreversible(step, answer.recovery);
    }

    method RunPendingIrreversible(step: Step, requirement: RecoveryRequirement) returns (r: Outcome<EngineError>)
      modifies this, host
      ensures Ended(r, RunPendingIrreversibleAudit(host.oracle, old(State()), step, requirement))
    {
      var key := ProgressKey(step.id);
      var captured :- Attempt(CaptureIrreversible(step), AuditCaptureError(key));
      var audit := captured.irreversible;
      if !audit.IsValidPendingFor(requirement, key) {
        return Fail(AuditCaptureError(key));
      }
      :- Command(PersistIrreversible(audit), AuditPersistError(key));
      r := CloseIrreversible(step, audit);
    }

    /** Mutates under a persisted pending audit, then finalizes it or records its failure. */
    method CloseIrreversible(step: Step, audit: IrreversibleAudit) returns (r: Outcome<EngineError>)
      modifies this, host
      ensures Ended(r, CloseAudit(host.oracle, old(State()), step, audit))
    {
      var key := ProgressKey(step.id);
      r := ApplyAndVerifyStep(step);
      var now := host.Invoke(AskTimestamp);
      if r.Fail? {
        var error := r;
        :- Command(FailIrreversible(audit.FailedAt(now.timestamp)), AuditFailurePersistError(key));
        return error;
      }
      r := Command(FinalizeIrreversible(audit.Finalized(now.timestamp)), AuditFinalizeError(key));
    }

    /** Persists the edited clone and only then makes it the engine's progress. */
    method PersistDraft(step: Step, draft: ProgressDraft) returns (r: Outcome<EngineError>)
      modifies this, host
      ensures r == if host.oracle(old(State()).world, PersistProgress(old(draft.Value()))).ok
                   then Pass else Fail(ProgressError(ProgressKey(step.id)))
      ensures report == old(report)
      ensures progress == if r.Pass? then old(draft.Value()) else old(progress)
      ensures host.State() == Ask(host.oracle, old(State()), PersistProgress(old(draft.Value()))).0.world
    {
      var next := draft.Value();
      r := Command(PersistProgress(next), ProgressError(ProgressKey(step.id)));
      if r.Pass? {
        progress := next;
      }
    }

    method CompleteLive(step: Step) returns (r: Outcome<EngineError>)
      modifies this, host
      ensures Ended(r, CompleteLiveStep(host.oracle, old(State()), step))
    {
      var now := host.Invoke(AskTimestamp);
      var draft := new ProgressDraft(progress);
      draft.CompleteStep(step.id, now.timestamp);
      r := PersistDraft(step, draft);
      if r.Pass? {
        report := report.(completed := report.completed + 1);
      }
    }

    method RecordAdvisory(step: Step, reason: string) returns (r: Outcome<EngineError>)
      modifies this, host
      ensures Ended(r, Record(host.oracle, old(State()), step, AsAdvisory(reason)))
    {
      var draft := new ProgressDraft(progress);
      draft.AcknowledgeStepAdvisory(step.id, reason);
      r := PersistDraft(step, draft);
      if r.Pass? {
        report := report.(advisories := report.advisories + 1);
      }
    }

    method Skip(step: Step, persist: bool) returns (r: Outcome<EngineError>)
      modifies this, host
      ensures Ended(r, RecordSkip(host.oracle, !persist, old(State()), step))
    {
      r := Pass;
      if persist {
        var draft := new ProgressDraft(progress);
        draft.SkipStep(step.id);
        r := PersistDraft(step, draft);
      }
      if r.Pass? {
        report := report.(skipped := report.skipped + 1);
      }
    }

    method Observe(step: Step) returns (r: Outcome<EngineError>)
      modifies this, host
      ensures Ended(r, RunObservation(host.oracle, old(State()), step))
    {
      var answer := host.Invoke(AskEvidence(step));
      if answer.evidence.DurableReceipt? {
        r := RunEvidence(step);
      } else {
        r := VerifyStep(step);
      }
    }

    method Mutate(step: Step) returns (r: Outcome<EngineError>)
      modifies this, host
      ensures Ended(r, RunMutation(host.oracle, old(State()), step))
    {
      var answer := host.Invoke(AskRecovery(step));
      match answer.recovery
      case RebuildableAuditing =>
        r := RunRebuildable(step);
      case ManualRecoveryAuditing =>
        r := RunIrreversible(step);
      case Mixed =>
        r := RunIrreversible(step);
      case LosslessBackup =>
        r := RunLossless(step);
    }

    method RunLive(step: Step, inspection: Inspection) returns (r: Outcome<EngineError>)
      modifies this, host
      ensures Ended(r, RunLiveStep(host.oracle, old(State()), step, inspection))
    {
      if inspection.Unsupported? {
        return Fail(UnsupportedError(ProgressKey(step.id)));
      } else if inspection.Inapplicable? {
        r := Skip(step, true);
        return;
      } else if inspection.Advisory? {
        r := RecordAdvisory(step, inspection.reason);
        return;
      }
      if inspection.Satisfied? || step.checkOnly {
        :- Observe(step);
      } else {
        :- Mutate(step);
      }
      r := CompleteLive(step);
    }

    method DryRun(step: Step, inspection: Inspection) returns (r: Outcome<EngineError>)
      modifies this, host
      ensures Ended(r, ReportDryRun(host.oracle, old(State()), step, inspection))
    {
      var key := ProgressKey(step.id);
      :- Command(Plan(step), InspectError(key));
      r := Pass;
      match inspection
      case Inapplicable =>
        report := report.(skipped := report.skipped + 1);
      case Unsupported =>
        report := report.(failed := report.failed + 1);
      case Advisory(_) =>
        report := report.(advisories := report.advisories + 1);
      case _ =>
        report := report.(completed := report.completed + 1);
    }

    method InspectStep(step: Step) returns (r: Outcome<EngineError>)
      modifies this, host
      ensures Ended(r, InspectAndRun(host.oracle, host.dryRun, old(State()), step))
    {
      var answer :- Attempt(Inspect(step), InspectError(ProgressKey(step.id)));
      if host.dryRun {
        r := DryRun(step, answer.inspection);
      } else {
        r := RunLive(step, answer.inspection);
      }
    }

    /** True when the profile, or the refused consent it asks for, skips the step. */
    method ShouldSkip(step: Step, profile: Profile) returns (skip: bool)
      modifies this, host
      ensures var decision := Decide(profile, step.tier, step.risk);
              if decision.Prompt? && !host.dryRun then
                && State() == Ask(host.oracle, old(State()), AskConsent(step)).0
                && skip == !Ask(host.oracle, old(State()), AskConsent(step)).1.yes
              else State() == old(State()) && skip == decision.Skip?
    {
      match Decide(profile, step.tier, step.risk)
      case Skip =>
        skip := true;
      case Prompt =>
        skip := false;
        if !host.dryRun {
          var answer := host.Invoke(AskConsent(step));
          skip := !answer.yes;
        }
      case Auto =>
        skip := false;
    }

    /** True for a recorded step; cancellation is asked before a live one that is not. */
    method SkipRecordedOrCancelled(step: Step) returns (r: Result<bool, EngineError>)
      modifies this, host
      ensures if old(progress).Recorded(ProgressKey(step.id)) then State() == old(State()) && r == Ok(true)
              else if host.dryRun then State() == old(State()) && r == Ok(false)
              else
                var (asked, answer) := Ask(host.oracle, old(State()), AskCancelled);
                State() == asked && r == if answer.yes then Err(CancelledError(ProgressKey(step.id))) else Ok(false)
    {
      if progress.Recorded(ProgressKey(step.id)) {
        return Ok(true);
      }
      if !host.dryRun {
        var answer := host.Invoke(AskCancelled);
        if answer.yes {
          return Err(CancelledError(ProgressKey(step.id)));
        }
      }
      r := Ok(false);
    }

    method SkipOrInspect(step: Step, profile: Profile) returns (r: Outcome<EngineError>)
      modifies this, host
      ensures Ended(r, DecideAndRun(host.oracle, host.dryRun, old(State()), step, profile))
    {
      var skip := ShouldSkip(step, profile);
      if skip {
        r := Skip(step, !host.dryRun);
      } else {
        r := InspectStep(step);
      }
    }

    /** One iteration: recorded steps are passed over, cancellation is asked before a live one. */
    method RunOne(step: Step, profile: Profile) returns (r: Outcome<EngineError>)
      modifies this, host
      ensures Ended(r, RunStep(host.oracle, host.dryRun, old(State()), step, profile))
    {
      var passed := SkipRecordedOrCancelled(step);
      if passed.Err? {
        return Fail(passed.error);
      }
      if passed.value {
        return Pass;
      }
      r := SkipOrInspect(step, profile);
    }

    /** Runs the steps in order, stopping at the first error or cancellation. */
    method RunWithControl(steps: seq<Step>, profile: Profile) returns (r: Result<RunReport, EngineError>)
      modifies this, host
      ensures match RunSteps(host.oracle, host.dryRun, old(State()).(report := EMPTY_REPORT), steps, profile)
              case Going(s, _) => State() == s && r == Ok(s.report)
              case Halted(s, error) => State() == s && r == Err(error)
    {
      report := EMPTY_REPORT;
      ghost var whole := RunSteps(host.oracle, host.dryRun, State(), steps, profile);
      var i := 0;
      assert steps[0..] == steps;
      while i < |steps|
        invariant 0 <= i <= |steps|
        invariant RunSteps(host.oracle, host.dryRun, State(), steps[i..], profile) == whole
      {
        assert steps[i..][1..] == steps[i + 1..];
        var ended := RunOne(steps[i], profile);
        if ended.Fail? {
          return Err(ended.error);
        }
        i := i + 1;
      }
      r := Ok(report);
    }
  }
}
