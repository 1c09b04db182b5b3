/** Progress, resume and accounting over whole engine runs. */
module EngineAccounting {
  import opened Policy
  import opened Catalog
  import opened ProgressModel
  import opened Audit
  import opened Backend
  import opened EngineSpec

  predicate SameBooks(s: Session, t: Session) {
    s.progress == t.progress && s.report == t.report
  }

  lemma ApplyKeepsBooks(o: Oracle, s: Session, step: Step)
    ensures SameBooks(s, ApplyAndVerify(o, s, step).session)
  {
  }

  lemma CaptureKeepsBooks(o: Oracle, s: Session, step: Step)
    ensures SameBooks(s, CaptureLosslessBackups(o, s, step).session)
  {
  }

  lemma CloseKeepsBooks(o: Oracle, s: Session, step: Step, audit: IrreversibleAudit)
    ensures SameBooks(s, CloseAudit(o, s, step, audit).session)
  {
    ApplyKeepsBooks(o, s, step);
  }

  lemma IrreversibleKeepsBooks(o: Oracle, s: Session, step: Step)
    ensures SameBooks(s, RunIrreversibleOperation(o, s, step).session)
  {
    var (asked, reply) := Ask(o, s, AskRecovery(step));
    CaptureKeepsBooks(o, asked, step);
    PendingKeepsBooks(o, asked, step, reply.recovery);
    PendingKeepsBooks(o, CaptureLosslessBackups(o, asked, step).session, step, reply.recovery);
  }

  lemma PendingKeepsBooks(o: Oracle, s: Session, step: Step, requirement: RecoveryRequirement)
    ensures SameBooks(s, RunPendingIrreversibleAudit(o, s, step, requirement).session)
  {
    var (captured, reply) := Ask(o, s, CaptureIrreversible(step));
    var persisted := Ask(o, captured, PersistIrreversible(reply.irreversible)).0;
    CloseKeepsBooks(o, persisted, step, reply.irreversible);
  }

  lemma RebuildableKeepsBooks(o: Oracle, s: Session, step: Step)
    ensures SameBooks(s, RunRebuildableOperation(o, s, step).session)
  {
    var (captured, reply) := Ask(o, s, CapturePendingAudit(step));
    var persisted := Ask(o, captured, PersistPendingAudit(reply.audit)).0;
    ApplyKeepsBooks(o, persisted, step);
  }

  lemma MutationKeepsBooks(o: Oracle, s: Session, step: Step)
    ensures SameBooks(s, RunMutation(o, s, step).session)
  {
    var (asked, reply) := Ask(o, s, AskRecovery(step));
    match reply.recovery
    case RebuildableAuditing => RebuildableKeepsBooks(o, asked, step);
    case ManualRecoveryAuditing => IrreversibleKeepsBooks(o, asked, step);
    case Mixed => IrreversibleKeepsBooks(o, asked, step);
    case LosslessBackup =>
      CaptureKeepsBooks(o, asked, step);
      ApplyKeepsBooks(o, CaptureLosslessBackups(o, asked, step).session, step);
  }

  lemma ObservationKeepsBooks(o: Oracle, s: Session, step: Step)
    ensures SameBooks(s, RunObservation(o, s, step).session)
  {
  }

  /** The run either resolved the step in one way and counted it once, or changed no books. */
  ghost predicate ResolvedOnce(s: Session, step: Step, run: Run) {
    if run.Halted? then SameBooks(s, run.session)
    else
      exists how: Resolution ::
        run.session.progress == Resolve(s.progress, step.id, how) && run.session.report == Counted(s.report, how)
  }

  lemma RecordResolves(o: Oracle, s: Session, step: Step, how: Resolution)
    ensures ResolvedOnce(s, step, Record(o, s, step, how))
  {
    var run := Record(o, s, step, how);
    if run.Going? {
      assert run.session.progress == Resolve(s.progress, step.id, how) && run.session.report == Counted(s.report, how);
    }
  }

  lemma CompleteResolves(o: Oracle, s: Session, step: Step)
    ensures ResolvedOnce(s, step, CompleteLiveStep(o, s, step))
  {
    var (stamped, now) := Ask(o, s, AskTimestamp);
    RecordResolves(o, stamped, step, AsCompleted(now.timestamp));
  }

  lemma LiveStepResolves(o: Oracle, s: Session, step: Step, inspection: Inspection)
    ensures ResolvedOnce(s, step, RunLiveStep(o, s, step, inspection))
  {
    match inspection
    case Unsupported =>
    case Inapplicable => RecordResolves(o, s, step, AsSkipped);
    case Advisory(reason) => RecordResolves(o, s, step, AsAdvisory(reason));
    case Satisfied =>
      ObservationKeepsBooks(o, s, step);
      CompleteResolves(o, RunObservation(o, s, step).session, step);
    case NeedsApply =>
      if step.checkOnly {
        ObservationKeepsBooks(o, s, step);
        CompleteResolves(o, RunObservation(o, s, step).session, step);
      } else {
        MutationKeepsBooks(o, s, step);
        CompleteResolves(o, RunMutation(o, s, step).session, step);
      }
  }

  lemma InspectResolves(o: Oracle, s: Session, step: Step)
    ensures ResolvedOnce(s, step, InspectAndRun(o, false, s, step))
  {
    var (inspected, reply) := Ask(o, s, Inspect(step));
    LiveStepResolves(o, inspected, step, reply.inspection);
  }

  lemma DecideResolves(o: Oracle, s: Session, step: Step, profile: Profile)
    ensures ResolvedOnce(s, step, DecideAndRun(o, false, s, step, profile))
  {
    match Decide(profile, step.tier, step.risk)
    case Skip => RecordResolves(o, s, step, AsSkipped);
    case Auto => InspectResolves(o, s, step);
    case Prompt =>
      var asked := Ask(o, s, AskConsent(step)).0;
      InspectResolves(o, asked, step);
      RecordResolves(o, asked, step, AsSkipped);
  }

  /** A live step that was not recorded ends resolved exactly once, or halts with the books untouched. */
  lemma LiveStepOutcome(o: Oracle, s: Session, step: Step, profile: Profile)
    ensures var run := RunStep(o, false, s, step, profile);
            if s.progress.Recorded(ProgressKey(step.id)) then run == Done(s) else ResolvedOnce(s, step, run)
  {
    if !s.progress.Recorded(ProgressKey(step.id)) {
      DecideResolves(o, Ask(o, s, AskCancelled).0, step, profile);
    }
  }

  // ---------------------------------------------------------------------
  // Whole runs
  // ---------------------------------------------------------------------

  /** Running a concatenation is running the parts in turn. */
  lemma {:induction false} RunConcatenation(o: Oracle, dry: bool, s: Session, a: seq<Step>, b: seq<Step>,
                                            profile: Profile)
    ensures RunSteps(o, dry, s, a + b, profile) ==
            (match RunSteps(o, dry, s, a, profile)
             case Going(next, _) => RunSteps(o, dry, next, b, profile)
             case Halted(next, error) => Halted(next, error))
    decreases |a|
  {
    if a == [] {
      assert a + b == b;
    } else {
      assert (a + b)[1..] == a[1..] + b && (a + b)[0] == a[0];
      var first := RunStep(o, dry, s, a[0], profile);
      if first.Going? {
        RunConcatenation(o, dry, first.session, a[1..], b, profile);
      }
    }
  }

  function Resolved(r: RunReport): nat {
    r.completed + r.skipped + r.advisories
  }

  /** What a run added: each counter equals the growth of its own set of keys. */
  predicate Accounted(s: Session, t: Session) {
    && t.report.completed - s.report.completed == |t.progress.completed| - |s.progress.completed|
    && t.report.skipped - s.report.skipped == |t.progress.skipped| - |s.progress.skipped|
    && t.report.advisories - s.report.advisories == |t.progress.advisories.Keys| - |s.progress.advisories.Keys|
    && Resolved(t.report) - Resolved(s.report) == |t.progress.RecordedKeys()| - |s.progress.RecordedKeys()|
    && t.report.failed == s.report.failed
  }

  lemma GrowthIsAccounted(s: Session, t: Session, how: Resolution)
    requires |t.progress.completed| == |s.progress.completed| + (if how.AsCompleted? then 1 else 0)
    requires |t.progress.skipped| == |s.progress.skipped| + (if how.AsSkipped? then 1 else 0)
    requires |t.progress.advisories.Keys| == |s.progress.advisories.Keys| + (if how.AsAdvisory? then 1 else 0)
    requires |t.progress.RecordedKeys()| == |s.progress.RecordedKeys()| + 1
    requires t.report == Counted(s.report, how)
    ensures Accounted(s, t)
  {
  }

  lemma StepIsAccounted(o: Oracle, s: Session, step: Step, profile: Profile)
    ensures Accounted(s, RunStep(o, false, s, step, profile).session)
  {
    LiveStepOutcome(o, s, step, profile);
    var run := RunStep(o, false, s, step, profile);
    if !s.progress.Recorded(ProgressKey(step.id)) && run.Going? {
      HowIsAccounted(s, step, run);
    }
  }

  lemma HowIsAccounted(s: Session, step: Step, run: Run)
    requires ResolvedOnce(s, step, run) && run.Going? && !s.progress.Recorded(ProgressKey(step.id))
    ensures Accounted(s, run.session)
  {
    var how :| run.session.progress == Resolve(s.progress, step.id, how) && run.session.report == Counted(s.report, how);
    FreshResolutionGrowsOneSet(s.progress, step.id, how);
    GrowthIsAccounted(s, run.session, how);
  }

  /**
   * On every exit of a live run, successful or not, the counters equal the growth of
   * the recorded keys: nothing is counted twice, nothing recorded is uncounted.
   */
  lemma {:induction false} RunIsAccounted(o: Oracle, s: Session, steps: seq<Step>, profile: Profile)
    ensures Accounted(s, RunSteps(o, false, s, steps, profile).session)
    decreases |steps|
  {
    if steps != [] {
      StepIsAccounted(o, s, steps[0], profile);
      var first := RunStep(o, false, s, steps[0], profile);
      if first.Going? {
        RunIsAccounted(o, first.session, steps[1..], profile);
      }
    }
  }

  lemma StepKeepsRecords(o: Oracle, s: Session, step: Step, profile: Profile)
    ensures var run := RunStep(o, false, s, step, profile);
            && (forall key :: s.progress.Recorded(key) ==> run.session.progress.Recorded(key))
            && (run.Going? ==> run.session.progress.Recorded(ProgressKey(step.id)))
            && (s.progress.Disjoint() ==> run.session.progress.Disjoint())
  {
    LiveStepOutcome(o, s, step, profile);
    var run := RunStep(o, false, s, step, profile);
    if !s.progress.Recorded(ProgressKey(step.id)) && run.Going? {
      var how :| run.session.progress == Resolve(s.progress, step.id, how) && run.session.report == Counted(s.report, how);
      ResolutionIsExclusive(s.progress, step.id, how);
    }
  }

  /** A live run keeps every record and disjointness; a successful one leaves every step recorded. */
  lemma {:induction false} RunRecordsEveryStep(o: Oracle, s: Session, steps: seq<Step>, profile: Profile)
    ensures var run := RunSteps(o, false, s, steps, profile);
            && (forall key :: s.progress.Recorded(key) ==> run.session.progress.Recorded(key))
            && (run.Going? ==> forall step <- steps :: run.session.progress.Recorded(ProgressKey(step.id)))
            && (s.progress.Disjoint() ==> run.session.progress.Disjoint())
    decreases |steps|
  {
    if steps != [] {
      StepKeepsRecords(o, s, steps[0], profile);
      var first := RunStep(o, false, s, steps[0], profile);
      if first.Going? {
        RunRecordsEveryStep(o, first.session, steps[1..], profile);
        var run := RunSteps(o, false, s, steps, profile);
        assert forall step <- steps :: step == steps[0] || step in steps[1..];
      }
    }
  }

  lemma {:induction false} RecordedStepsDoNothing(o: Oracle, dry: bool, s: Session, steps: seq<Step>, profile: Profile)
    requires forall step <- steps :: s.progress.Recorded(ProgressKey(step.id))
    ensures RunSteps(o, dry, s, steps, profile) == Done(s)
    decreases |steps|
  {
    if steps != [] {
      RecordedStepsDoNothing(o, dry, s, steps[1..], profile);
    }
  }

  /** Re-running a finished list calls nothing, whatever backend and profile it meets. */
  lemma RerunOfFinishedListIsSilent(o: Oracle, again: Oracle, dry: bool, s: Session, steps: seq<Step>,
                                    profile: Profile, other: Profile)
    requires RunSteps(o, false, s, steps, profile).Going?
    ensures var end := RunSteps(o, false, s, steps, profile).session;
            RunSteps(again, dry, end, steps, other) == Done(end)
  {
    RunRecordsEveryStep(o, s, steps, profile);
    RecordedStepsDoNothing(again, dry, RunSteps(o, false, s, steps, profile).session, steps, other);
  }

  /**
   * After a halt, retrying the whole list with the progress that was kept is the same
   * as retrying from the step that halted: everything before it is already recorded.
   */
  lemma {:induction false} RetryResumesAtTheHalt(o: Oracle, s: Session, steps: seq<Step>, profile: Profile,
                                                 again: Oracle, later: Session, other: Profile)
    returns (i: nat)
    requires RunSteps(o, false, s, steps, profile).Halted?
    requires later.progress == RunSteps(o, false, s, steps, profile).session.progress
    ensures i < |steps| && !later.progress.Recorded(ProgressKey(steps[i].id))
    ensures forall j :: 0 <= j < i ==> later.progress.Recorded(ProgressKey(steps[j].id))
    ensures RunSteps(again, false, later, steps, other) == RunSteps(again, false, later, steps[i..], other)
    decreases |steps|
  {
    LiveStepOutcome(o, s, steps[0], profile);
    var first := RunStep(o, false, s, steps[0], profile);
    if first.Halted? {
      i := 0;
    } else {
      StepKeepsRecords(o, s, steps[0], profile);
      RunRecordsEveryStep(o, first.session, steps[1..], profile);
      assert later.progress.Recorded(ProgressKey(steps[0].id));
      var k := RetryResumesAtTheHalt(o, first.session, steps[1..], profile, again, later, other);
      i := k + 1;
      assert steps[1..][k..] == steps[i..];
      assert RunSteps(again, false, later, steps, other) == RunSteps(again, false, later, steps[1..], other);
    }
  }

  /** The calls a preview may make. */
  predicate ReadsOnly(r: Request) {
    r.Inspect? || r.Plan?
  }

  predicate Previewed(s: Session, t: Session) {
    && s.progress == t.progress
    && s.world.machine == t.world.machine && s.world.log == t.world.log && s.world.disk == t.world.disk
    && s.world.trace <= t.world.trace
    && forall i :: |s.world.trace| <= i < |t.world.trace| ==> ReadsOnly(t.world.trace[i].request)
  }

  function Outcomes(r: RunReport): nat {
    Resolved(r) + r.failed
  }

  lemma DryStepPreviews(o: Oracle, s: Session, step: Step, profile: Profile)
    ensures var run := RunStep(o, true, s, step, profile);
            && Previewed(s, run.session)
            && (run.Going? ==>
                  Outcomes(run.session.report)
                  == Outcomes(s.report) + (if s.progress.Recorded(ProgressKey(step.id)) then 0 else 1))
  {
    var (inspected, reply) := Ask(o, s, Inspect(step));
    var _ := ReportDryRun(o, inspected, step, reply.inspection);
  }

  function Unrecorded(p: Progress, steps: seq<Step>): nat {
    if steps == [] then 0
    else (if p.Recorded(ProgressKey(steps[0].id)) then 0 else 1) + Unrecorded(p, steps[1..])
  }

  /** A dry run only inspects and plans; it counts one outcome for every unrecorded step. */
  lemma {:induction false} DryRunOnlyPreviews(o: Oracle, s: Session, steps: seq<Step>, profile: Profile)
    ensures var run := RunSteps(o, true, s, steps, profile);
            && Previewed(s, run.session)
            && (run.Going? ==> Outcomes(run.session.report) == Outcomes(s.report) + Unrecorded(s.progress, steps))
    decreases |steps|
  {
    if steps != [] {
      DryStepPreviews(o, s, steps[0], profile);
      var first := RunStep(o, true, s, steps[0], profile);
      if first.Going? {
        DryRunOnlyPreviews(o, first.session, steps[1..], profile);
      }
    }
  }

  // ---------------------------------------------------------------------
  // Durable observations
  // ---------------------------------------------------------------------

  /** The four calls a durable observation makes, each successful, on one valid receipt. */
  predicate IsDurableObservation(calls: seq<Call>, step: Step) {
    && |calls| == 4
    && (forall c <- calls :: c.reply.ok)
    && calls[0].request == CaptureEvidence(step)
    && var receipt := calls[0].reply.receipt;
       && receipt.IsValidFor(ProgressKey(step.id))
       && calls[1].request == PersistEvidence(receipt)
       && calls[2].request == VerifyEvidence(step, receipt)
       && calls[3].request == Verify(step)
  }

  lemma AskTrace(o: Oracle, s: Session, request: Request)
    ensures Ask(o, s, request).0.world.trace == s.world.trace + [Call(request, Ask(o, s, request).1)]
  {
  }

  lemma Four(t: seq<Call>, a: Call, b: Call, c: Call, d: Call)
    ensures t + [a] + [b] + [c] + [d] == t + [a, b, c, d]
  {
  }

  /** The evidence path goes on only after its own receipt was captured, persisted, verified and the step verified. */
  lemma EvidenceIsDurable(o: Oracle, s: Session, step: Step) returns (calls: seq<Call>)
    requires RunEvidenceOperation(o, s, step).Going?
    ensures RunEvidenceOperation(o, s, step).session.world.trace == s.world.trace + calls
    ensures IsDurableObservation(calls, step)
  {
    var (captured, first) := Ask(o, s, CaptureEvidence(step));
    var receipt := first.receipt;
    var (persisted, second) := Ask(o, captured, PersistEvidence(receipt));
    var (verified, third) := Ask(o, persisted, VerifyEvidence(step, receipt));
    var (done, fourth) := Ask(o, verified, Verify(step));
    EvidenceSteps(o, s, step, captured, first, persisted, second, verified, third, done, fourth);
    AskTrace(o, s, CaptureEvidence(step));
    AskTrace(o, captured, PersistEvidence(receipt));
    AskTrace(o, persisted, VerifyEvidence(step, receipt));
    AskTrace(o, verified, Verify(step));
    calls := [Call(CaptureEvidence(step), first), Call(PersistEvidence(receipt), second),
              Call(VerifyEvidence(step, receipt), third), Call(Verify(step), fourth)];
    Four(s.world.trace, calls[0], calls[1], calls[2], calls[3]);
  }

  lemma EvidenceSteps(o: Oracle, s: Session, step: Step, captured: Session, first: Reply, persisted: Session, second: Reply,
                      verified: Session, third: Reply, done: Session, fourth: Reply)
    requires RunEvidenceOperation(o, s, step).Going?
    requires (captured, first) == Ask(o, s, CaptureEvidence(step))
    requires (persisted, second) == Ask(o, captured, PersistEvidence(first.receipt))
    requires (verified, third) == Ask(o, persisted, VerifyEvidence(step, first.receipt))
    requires (done, fourth) == Ask(o, verified, Verify(step))
    ensures first.ok && second.ok && third.ok && fourth.ok && first.receipt.IsValidFor(ProgressKey(step.id))
    ensures RunEvidenceOperation(o, s, step).session == done
  {
  }
}
