/** When each command of the reboot protocol is taken, exactly, in what the machine and its native evidence show. */
module CommandMeaning {
  import opened Wrappers
  import opened Catalog
  import opened ProgressModel
  import opened Handoff
  import opened StateModel
  import opened Benchmark
  import opened Reconciliation
  import opened Orchestration
  import opened Migration
  import opened RebootProtocol
  import G = GuardMeaning

  /** A live outcome is the guard's in the expected boot mode, and none in any other. */
  lemma LiveExactly(d: Decision, boot: BootEnvironment, native: NativeEvidence, t: Transition)
    ensures Live(d, boot, native) == Ok(t) <==>
              d == Ok(t) && native.bootMode == (if boot.NormalBoot? then NormalMode else SafeMode)
  {
  }

  /** What the guard of a command is asked over this machine. */
  function Facts(m: Machine, request: PhaseRequest, boot: BootEnvironment, native: NativeEvidence): PhaseFacts {
    PhaseFacts(boot,
               if native.selectedRuntime.Verified? then VerifiedSelectedExecutable else RuntimeUnavailable,
               HandoffEvidence(native.phaseTwoRunOnce, native.phaseThreeRun,
                               if native.safeboot.SafebootConfigured? then Verified
                               else if native.safeboot.SafebootAbsent? then Absent else Unavailable,
                               native.sameUser),
               m.state.phase1SafeModeReady,
               if request.ClearPhaseThreeHandoff? then Verified else Absent)
  }

  /** A command is granted exactly as its guard decides over truthful evidence, in its own boot mode. */
  lemma GrantedExactly(m: Machine, request: PhaseRequest, boot: BootEnvironment, native: NativeEvidence, t: Transition,
                       d: Decision)
    requires d == Authorize(request, m.state, m.progress, Facts(m, request, boot, native))
    ensures Granted(m, request, boot, native, t) <==>
              && Truthful(native, m) && native.bootMode == (if boot.NormalBoot? then NormalMode else SafeMode)
              && d == Ok(t)
  {
    LiveExactly(d, boot, native, t);
  }

  /** The handoff of the later phases on this machine: verified runtime, Run entry and user, and Phase 2 completed. */
  predicate PhaseThreeIsReachable(m: Machine, native: NativeEvidence) {
    && Truthful(native, m) && native.bootMode.NormalMode? && native.selectedRuntime.Verified?
    && native.phaseThreeRun.Verified? && native.sameUser.Verified?
    && m.progress.IsCompleted(StepId(Two, 1)) && m.progress.IsCompleted(StepId(Two, 2))
    && m.progress.IsCompleted(StepId(Two, 3))
  }

  lemma PhaseOneRunExactly(m: Machine, native: NativeEvidence, work: Work)
    ensures After(m, PhaseOneRun(native, work)).Some? <==>
              && Truthful(native, m) && native.bootMode.NormalMode?
              && native.phaseTwoRunOnce.Absent? && native.phaseThreeRun.Absent? && native.safeboot.SafebootAbsent?
              && !G.LaterPhaseBegan(m.progress) && WorkFits(m.progress, work, One)
  {
    var facts := Facts(m, Optimize, NormalBoot, native);
    G.OptimizeMeans(m.state, m.progress, facts);
    GrantedExactly(m, Optimize, NormalBoot, native, RunPhaseOne, Authorize(Optimize, m.state, m.progress, facts));
  }

  /** What arming asks of the machine. */
  predicate MayArm(m: Machine, native: NativeEvidence) {
    && Truthful(native, m) && native.bootMode.NormalMode? && native.selectedRuntime.Verified?
    && m.state.transaction.None? && G.PhaseOneIsReady(m.progress)
  }

  lemma ArmGrantedExactly(m: Machine, native: NativeEvidence, request: PhaseRequest)
    requires request.ArmSafeMode?
    ensures Granted(m, request, NormalBoot, native, ArmSafeModeTransition(true)) <==> MayArm(m, native)
  {
    var facts := Facts(m, request, NormalBoot, native);
    G.ArmMeans(m.state, m.progress, facts, request);
    GrantedExactly(m, request, NormalBoot, native, ArmSafeModeTransition(true), Authorize(request, m.state, m.progress, facts));
  }

  lemma ArmExactly(m: Machine, native: NativeEvidence, session: Session, id: string, now: string, writes: nat)
    ensures After(m, Arm(native, session, id, now, writes)).Some? <==>
              MayArm(m, native) && session.sid.canonical && session.runtime.complete
  {
    ArmGrantedExactly(m, native, ArmSafeMode);
    AuthorityMeans(NewTransaction(session, id, now), PhaseOneSafeModeArmed);
  }

  lemma ArmFailedExactly(m: Machine, native: NativeEvidence, leavesRunOnce: bool, leavesSafeBoot: bool)
    ensures After(m, ArmFailed(native, leavesRunOnce, leavesSafeBoot)).Some? <==> MayArm(m, native)
  {
    ArmGrantedExactly(m, native, ArmSafeMode);
  }

  /** What both Phase 2 commands ask of the machine. */
  predicate PhaseTwoIsReachable(m: Machine, native: NativeEvidence) {
    && Truthful(native, m) && native.bootMode.SafeMode? && native.selectedRuntime.Verified?
    && m.state.phase1SafeModeReady && native.phaseTwoRunOnce.Verified? && m.progress.IsCompleted(StepId(One, 38))
  }

  lemma PhaseTwoExactly(m: Machine, native: NativeEvidence)
    ensures Granted(m, PhaseTwo, SafeModeBoot, native, RunPhaseTwoStepOne) <==>
              && PhaseTwoIsReachable(m, native) && native.safeboot.SafebootConfigured?
              && !G.Touched(m.progress, Two, 1) && !G.Touched(m.progress, Two, 2) && !G.Touched(m.progress, Two, 3)
              && G.BoundAt(m.state, PhaseOneSafeModeArmed)
    ensures Granted(m, PhaseTwo, SafeModeBoot, native, RunRemainingPhaseTwo) <==>
              && PhaseTwoIsReachable(m, native) && native.safeboot.SafebootAbsent?
              && m.progress.IsCompleted(StepId(Two, 1)) && !m.progress.IsSkipped(StepId(Two, 1))
              && G.BoundAt(m.state, PhaseTwoSafeMode)
  {
    var facts := Facts(m, PhaseTwo, SafeModeBoot, native);
    var d := Authorize(PhaseTwo, m.state, m.progress, facts);
    G.PhaseTwoMeans(m.state, m.progress, facts);
    GrantedExactly(m, PhaseTwo, SafeModeBoot, native, RunPhaseTwoStepOne, d);
    GrantedExactly(m, PhaseTwo, SafeModeBoot, native, RunRemainingPhaseTwo, d);
  }

  lemma ClearSafeBootExactly(m: Machine, native: NativeEvidence, session: Session, now: string, writes: nat)
    ensures After(m, Event.ClearSafeBoot(native, session, now, writes)).Some? <==>
              && PhaseTwoIsReachable(m, native) && native.safeboot.SafebootConfigured?
              && !G.Touched(m.progress, Two, 1) && !G.Touched(m.progress, Two, 2) && !G.Touched(m.progress, Two, 3)
              && G.BoundAt(m.state, PhaseOneSafeModeArmed)
              && m.state.transaction.value.runtime == Some(session.runtime) && m.runOnce
  {
    PhaseTwoExactly(m, native);
  }

  lemma CleanDriversNeeds(m: Machine, native: NativeEvidence, work: Work)
    ensures After(m, CleanDrivers(native, work)).Some? <==>
              && Granted(m, PhaseTwo, SafeModeBoot, native, RunRemainingPhaseTwo)
              && WorkFits(m.progress, work, Two) && forall w <- work :: w.0 == StepId(Two, 2)
  {
  }

  lemma CleanDriversExactly(m: Machine, native: NativeEvidence, work: Work)
    ensures After(m, CleanDrivers(native, work)).Some? <==>
              && PhaseTwoIsReachable(m, native) && native.safeboot.SafebootAbsent?
              && m.progress.IsCompleted(StepId(Two, 1)) && !m.progress.IsSkipped(StepId(Two, 1))
              && G.BoundAt(m.state, PhaseTwoSafeMode)
              && WorkFits(m.progress, work, Two) && forall w <- work :: w.0 == StepId(Two, 2)
  {
    CleanDriversNeeds(m, native, work);
    PhaseTwoExactly(m, native);
  }

  lemma ArmPhaseThreeExactly(m: Machine, native: NativeEvidence, session: Session, removalComplete: bool, now: string, writes: nat)
    ensures After(m, Event.ArmPhaseThree(native, session, removalComplete, now, writes)).Some? <==>
              && PhaseTwoIsReachable(m, native) && native.safeboot.SafebootAbsent?
              && m.progress.IsCompleted(StepId(Two, 1)) && !m.progress.IsSkipped(StepId(Two, 1))
              && m.progress.IsCompleted(StepId(Two, 2)) && removalComplete
              && G.BoundAt(m.state, PhaseTwoSafeMode)
              && m.state.transaction.value.runtime == Some(session.runtime)
              && m.state.transaction.value.initiator == Some(session.sid)
  {
    PhaseTwoExactly(m, native);
  }

  lemma PhaseThreeRunExactly(m: Machine, native: NativeEvidence, work: Work)
    ensures After(m, PhaseThreeRun(native, work)).Some? <==>
              PhaseThreeIsReachable(m, native) && G.BoundAt(m.state, PhaseThreeArmed) && WorkFits(m.progress, work, Three)
  {
    var request := PhaseRequest.PhaseThree;
    var facts := Facts(m, request, NormalBoot, native);
    G.PhaseThreeMeans(m.state, m.progress, facts, request);
    GrantedExactly(m, request, NormalBoot, native, RunPhaseThree, Authorize(request, m.state, m.progress, facts));
  }

  lemma CaptureFinalExactly(m: Machine, native: NativeEvidence, config: Config, input: Input, writes: nat)
    ensures After(m, CaptureFinal(native, config, input, writes)).Some? <==>
              && PhaseThreeIsReachable(m, native)
              && (G.BoundAt(m.state, PhaseThreeArmed) || G.BoundAt(m.state, PhaseThreeComplete))
              && Reconcile(config, m.OnDisk(), input).Ok?
  {
    var request := PhaseRequest.FinalBenchmark;
    var facts := Facts(m, request, NormalBoot, native);
    G.FinalBenchmarkMeans(m.state, m.progress, facts, request);
    GrantedExactly(m, request, NormalBoot, native, PersistFinal, Authorize(request, m.state, m.progress, facts));
  }

  /** The last command, and the reboot and the consumed entry, which nothing prevents. */
  lemma ClearRunExactly(m: Machine, native: NativeEvidence, session: Session)
    ensures After(m, ClearRun(native, session)) ==
              if && Truthful(native, m) && native.bootMode.NormalMode?
                 && native.phaseThreeRun.Verified? && native.sameUser.Verified?
                 && m.progress.IsCompleted(StepId(Three, 1)) && m.progress.IsCompleted(StepId(Three, 13))
                 && G.BoundAt(m.state, PhaseThreeComplete)
                 && m.state.transaction.value.runtime == Some(session.runtime)
                 && m.state.transaction.value.initiator == Some(session.sid)
                 && ValidatePersistedFinalBenchmark(m.state, m.progress, m.history).Ok? && m.run
              then Some(m.(run := false)) else None
    ensures After(m, Reboot) == Some(m.(boot := if m.safeBoot then SafeModeBoot else NormalBoot))
    ensures After(m, RunOnceConsumed) == Some(m.(runOnce := false))
  {
    var facts := Facts(m, ClearPhaseThreeHandoff, NormalBoot, native);
    G.HandoffClearMeans(m.state, m.progress, facts);
    GrantedExactly(m, ClearPhaseThreeHandoff, NormalBoot, native, ClearHandoff,
                   Authorize(ClearPhaseThreeHandoff, m.state, m.progress, facts));
  }
}
