/** Which crash points of the protocol's commands can be resumed, exactly. */
module RebootCrashes {
  import opened Wrappers
  import opened Catalog
  import opened ProgressModel
  import opened Handoff
  import opened Benchmark
  import opened Reconciliation
  import opened Orchestration
  import opened Migration
  import opened RebootProtocol
  import G = GuardMeaning

  /** A complete inspection of the machine by the initiating user's selected runtime. */
  function Seen(m: Machine): NativeEvidence {
    NativeEvidence(if m.boot.SafeModeBoot? then SafeMode else NormalMode,
                   if m.safeBoot then SafebootConfigured("minimal") else SafebootAbsent,
                   if m.runOnce then Verified else Absent,
                   if m.run then Verified else Absent,
                   Verified, Verified)
  }

  /** The guard over a complete inspection; `receipt` is the readback of the final benchmark. */
  function Decide(m: Machine, request: PhaseRequest, receipt: Evidence): Result<Transition, LiveError> {
    AuthorizeLive(request, m.state, m.progress, m.boot, Seen(m), true, receipt)
  }

  function Rebooted(m: Machine): Machine {
    m.(boot := if m.safeBoot then SafeModeBoot else NormalBoot)
  }

  /** No protocol command but a migration-checked Phase 1 run could even be granted. */
  ghost predicate IsStuck(m: Machine) {
    && (forall boot, request: PhaseRequest, receipt ::
          !request.Optimize? ==> Decide(m.(boot := boot), request, receipt).Err?)
    && HasArmedState(m.state)
  }

  /** An armed state also stops the one request left: migration refuses before Phase 1 runs. */
  lemma StuckStopsMigration(m: Machine, native: NativeEvidence, incompleteRuntime: bool)
    requires IsStuck(m)
    ensures AssessInventory(Some(m.state), Some(m.progress), InventoryOf(native, incompleteRuntime)).Refuse?
  {
  }

  // ---------------------------------------------------------------------
  // Single refusals
  // ---------------------------------------------------------------------

  lemma ArmNeedsNoTransaction(m: Machine, receipt: Evidence)
    requires m.state.transaction.Some?
    ensures Decide(m, ArmSafeMode, receipt).Err?
  {
    var facts := FactsOf(m.boot, m.state, Seen(m), true, receipt);
    ArmRefusedWithTransaction(m.state, m.progress, facts);
    RefusalIsLive(Authorize(ArmSafeMode, m.state, m.progress, facts), m.boot, Seen(m));
  }

  /** Phase 3 in terms of the machine. */
  lemma PhaseThreeDecision(m: Machine, receipt: Evidence)
    ensures Decide(m, PhaseThree, receipt).Ok? <==>
              && m.boot.NormalBoot? && m.run && RequireStage(m.state, PhaseThreeArmed).Ok?
              && Reached(m.progress).cleared && Reached(m.progress).cleaned && Reached(m.progress).handed
  {
    var facts := FactsOf(m.boot, m.state, Seen(m), true, receipt);
    PhaseThreeNeedsAll(m.state, m.progress, facts);
    CompletedPhaseTwoMeans(m.progress, facts.handoff);
    LiveIsTheDecision(Authorize(PhaseThree, m.state, m.progress, facts), m.boot, Seen(m));
  }

  /** The final benchmark in terms of the machine. */
  lemma FinalDecision(m: Machine, receipt: Evidence)
    ensures Decide(m, FinalBenchmark, receipt).Ok? <==>
              && m.boot.NormalBoot? && m.run && RequireFinalStage(m.state).Ok?
              && Reached(m.progress).cleared && Reached(m.progress).cleaned && Reached(m.progress).handed
  {
    var facts := FactsOf(m.boot, m.state, Seen(m), true, receipt);
    FinalNeedsAll(m.state, m.progress, facts);
    CompletedPhaseTwoMeans(m.progress, facts.handoff);
    LiveIsTheDecision(Authorize(FinalBenchmark, m.state, m.progress, facts), m.boot, Seen(m));
  }

  /** The handoff clear in terms of the machine; it alone is not bound to one boot environment. */
  lemma ClearDecision(m: Machine, receipt: Evidence)
    ensures Decide(m, ClearPhaseThreeHandoff, receipt).Ok? <==>
              && m.run && RequireStage(m.state, PhaseThreeComplete).Ok?
              && Reached(m.progress).installed && Reached(m.progress).benchmarked && receipt.Verified?
  {
    var facts := FactsOf(m.boot, m.state, Seen(m), true, receipt);
    G.HandoffClearMeans(m.state, m.progress, facts);
    G.StageMeans(m.state, PhaseThreeComplete);
    LiveIsTheDecision(Authorize(ClearPhaseThreeHandoff, m.state, m.progress, facts), m.boot, Seen(m));
  }

  /** Phase 2 in terms of the machine, when the entry and the armed progress are there. */
  lemma PhaseTwoDecision(m: Machine, receipt: Evidence)
    requires m.runOnce && m.state.phase1SafeModeReady && Reached(m.progress).armed
    requires !m.progress.IsSkipped(PHASE_TWO_SAFE_BOOT_CLEAR)
    requires m.state.transaction.Some? && m.state.transaction.value.IsBound()
    ensures Decide(m, PhaseTwo, receipt) == Ok(RunRemainingPhaseTwo) <==>
              m.boot.SafeModeBoot? && Reached(m.progress).cleared && Rank(m.state) == 2 && !m.safeBoot
    ensures Decide(m, PhaseTwo, receipt) == Ok(RunPhaseTwoStepOne) <==>
              m.boot.SafeModeBoot? && !Reached(m.progress).cleared && !HasLaterPhaseTwoStep(m.progress)
              && Rank(m.state) == 1 && m.safeBoot
    ensures Decide(m, PhaseTwo, receipt).Ok? ==> Decide(m, PhaseTwo, receipt).value.RunRemainingPhaseTwo? || Decide(m, PhaseTwo, receipt).value.RunPhaseTwoStepOne?
  {
    G.PhaseTwoMeans(m.state, m.progress, FactsOf(m.boot, m.state, Seen(m), true, receipt));
    G.LaterPhaseTwoMeans(m.progress);
  }

  lemma PhaseTwoNeedsArming(m: Machine, receipt: Evidence)
    requires !Reached(m.progress).armed
    ensures Decide(m, PhaseTwo, receipt).Err?
  {
  }

  // ---------------------------------------------------------------------
  // P1:38
  // ---------------------------------------------------------------------

  /**
   * Arming can be repeated exactly until the transaction is persisted; Phase 2 can
   * start after a restart exactly when the progress was persisted too. A crash
   * between those two writes leaves the machine stuck.
   */
  lemma ArmingCrashPoints(m: Machine, t: RebootTransaction, now: string, n: nat, receipt: Evidence)
    requires Decide(m, ArmSafeMode, receipt).Ok? && t.IsAuthorizedAt(PhaseOneSafeModeArmed)
    requires IsSafe(m) && !HasPhase(m.progress, Two) && n <= 4
    ensures var left := AfterArm(m, t, now, n);
            && (Decide(left, ArmSafeMode, receipt).Ok? <==> n < 3)
            && (n >= 2 ==> (Decide(Rebooted(left), PhaseTwo, receipt).Ok? <==> n == 4))
            && (n == 3 ==> IsStuck(left))
  {
    var left := AfterArm(m, t, now, n);
    ArmWasGrantedFresh(m, receipt);
    CompletingReaches(m.progress, PHASE_ONE_SAFE_MODE_HANDOFF, now);
    if n < 3 {
      ArmStillGranted(m, left, receipt);
      PhaseTwoNeedsArming(Rebooted(left), receipt);
    } else if n == 3 {
      ArmNeedsNoTransaction(left, receipt);
      PhaseTwoNeedsArming(Rebooted(left), receipt);
      UnarmedIsStuck(left);
    } else {
      ArmNeedsNoTransaction(left, receipt);
      ArmedStartsPhaseTwo(m, t, now, receipt);
    }
  }

  lemma ArmedStartsPhaseTwo(m: Machine, t: RebootTransaction, now: string, receipt: Evidence)
    requires t.IsAuthorizedAt(PhaseOneSafeModeArmed)
    requires IsSafe(m) && m.state.transaction.None? && !HasPhase(m.progress, Two)
    ensures Decide(Rebooted(AfterArm(m, t, now, 4)), PhaseTwo, receipt) == Ok(RunPhaseTwoStepOne)
  {
    CompletingReaches(m.progress, PHASE_ONE_SAFE_MODE_HANDOFF, now);
    CompletingKeepsSkips(m.progress, PHASE_ONE_SAFE_MODE_HANDOFF, now);
    PhaseTwoDecision(Rebooted(AfterArm(m, t, now, 4)), receipt);
  }

  lemma ArmWasGrantedFresh(m: Machine, receipt: Evidence)
    requires Decide(m, ArmSafeMode, receipt).Ok?
    ensures m.state.transaction.None?
  {
    if m.state.transaction.Some? {
      ArmNeedsNoTransaction(m, receipt);
    }
  }

  lemma UnarmedIsStuck(left: Machine)
    requires left.state.transaction.Some? && Rank(left.state) < 3
    requires !Reached(left.progress).armed && !Reached(left.progress).benchmarked
    ensures IsStuck(left)
  {
    forall boot, receipt ensures Decide(left.(boot := boot), PhaseTwo, receipt).Err? {
      PhaseTwoNeedsArming(left.(boot := boot), receipt);
    }
    StuckWithoutPhaseTwo(left);
  }

  lemma ArmStillGranted(m: Machine, left: Machine, receipt: Evidence)
    requires Decide(m, ArmSafeMode, receipt).Ok?
    requires left.state == m.state && left.progress == m.progress && left.boot == m.boot
    ensures Decide(left, ArmSafeMode, receipt).Ok?
  {
    var facts, facts' := FactsOf(m.boot, m.state, Seen(m), true, receipt), FactsOf(m.boot, m.state, Seen(left), true, receipt);
    ArmingUsesBootAndRuntimeOnly(m.state, m.progress, facts, facts');
    SameLiveOutcome(Authorize(ArmSafeMode, m.state, m.progress, facts), Authorize(ArmSafeMode, m.state, m.progress, facts'),
                    m.boot, Seen(m), Seen(left));
  }

  lemma SameLiveOutcome(d: Decision, d': Decision, boot: BootEnvironment, native: NativeEvidence,
                        native': NativeEvidence)
    requires d == d' && native.bootMode == native'.bootMode
    ensures Live(d, boot, native) == Live(d', boot, native')
  {
  }

  /** With Phase 2 refused too, a machine whose later stages are not reached is stuck. */
  lemma StuckWithoutPhaseTwo(left: Machine)
    requires left.state.transaction.Some? && !Reached(left.progress).benchmarked
    requires Rank(left.state) < 3 || !Reached(left.progress).handed
    requires forall boot, receipt :: Decide(left.(boot := boot), PhaseTwo, receipt).Err?
    ensures IsStuck(left)
  {
    forall boot, request: PhaseRequest, receipt | !request.Optimize?
      ensures Decide(left.(boot := boot), request, receipt).Err?
    {
      RefusedInOneBoot(left.(boot := boot), request, receipt);
    }
  }

  lemma RefusedInOneBoot(at: Machine, request: PhaseRequest, receipt: Evidence)
    requires at.state.transaction.Some? && !Reached(at.progress).benchmarked
    requires Rank(at.state) < 3 || !Reached(at.progress).handed
    requires request.PhaseTwo? ==> Decide(at, request, receipt).Err?
    requires !request.Optimize?
    ensures Decide(at, request, receipt).Err?
  {
    match request
    case Optimize =>
    case ArmSafeMode => ArmNeedsNoTransaction(at, receipt);
    case PhaseTwo =>
    case PhaseThree => PhaseThreeDecision(at, receipt);
    case FinalBenchmark => FinalDecision(at, receipt);
    case ClearPhaseThreeHandoff => ClearDecision(at, receipt);
  }

  lemma CompletingKeepsOthers(p: Progress, id: StepId, now: string, other: StepId)
    requires id != other
    ensures Completing(p, id, now).IsCompleted(other) == p.IsCompleted(other)
    ensures Completing(p, id, now).IsSkipped(other) == p.IsSkipped(other)
  {
    ProgressKeyInjective(id, other);
  }

  lemma NoPhaseTwoStep(p: Progress)
    ensures !HasPhase(p, Two) ==> !HasLaterPhaseTwoStep(p) && !p.IsSkipped(PHASE_TWO_SAFE_BOOT_CLEAR)
  {
    assert Rows(Two)[0] in Rows(Two) && Rows(Two)[0].id == PHASE_TWO_SAFE_BOOT_CLEAR;
  }

  lemma CompletingKeepsSkips(p: Progress, id: StepId, now: string)
    requires id.phase != Two && !HasPhase(p, Two)
    ensures !HasPhase(Completing(p, id, now), Two)
    ensures !HasLaterPhaseTwoStep(Completing(p, id, now))
    ensures !Completing(p, id, now).IsSkipped(PHASE_TWO_SAFE_BOOT_CLEAR)
  {
    var q := Completing(p, id, now);
    forall step | step in Rows(Two) ensures !q.IsCompleted(step.id) && !q.IsSkipped(step.id) {
      CompletingKeepsOthers(p, id, now, step.id);
    }
    NoPhaseTwoStep(q);
  }

  // ---------------------------------------------------------------------
  // P2:1
  // ---------------------------------------------------------------------

  /** A machine whose P2:1 is about to run, in the terms the guards use. */
  predicate AwaitsClear(m: Machine) {
    && m.boot.SafeModeBoot? && m.runOnce && m.safeBoot && m.state.phase1SafeModeReady
    && m.state.transaction.Some? && m.state.transaction.value.IsBound() && Rank(m.state) == 1
    && Reached(m.progress).armed && !Reached(m.progress).cleared && !Reached(m.progress).handed && !Reached(m.progress).benchmarked
    && !m.progress.IsSkipped(PHASE_TWO_SAFE_BOOT_CLEAR)
  }

  lemma StepOneAwaitsClear(m: Machine, receipt: Evidence)
    requires IsSafe(m) && Decide(m, PhaseTwo, receipt) == Ok(RunPhaseTwoStepOne)
    ensures AwaitsClear(m)
  {
    G.PhaseTwoMeans(m.state, m.progress, FactsOf(m.boot, m.state, Seen(m), true, receipt));
  }

  /** The machine after n of the three writes. */
  lemma ClearingLeaves(m: Machine, now: string, n: nat)
    requires AwaitsClear(m) && n <= 3
    ensures var left := AfterClear(m, now, n);
            var k := Reached(left.progress);
            && left.boot.SafeModeBoot? && left.runOnce && (left.safeBoot <==> n == 0) && left.state.phase1SafeModeReady
            && left.state.transaction.Some? && left.state.transaction.value.IsBound()
            && Rank(left.state) == (if n >= 2 then 2 else 1)
            && k.armed && (k.cleared <==> n == 3) && !k.handed && !k.benchmarked
            && !left.progress.IsSkipped(PHASE_TWO_SAFE_BOOT_CLEAR)
  {
    CompletingReaches(m.progress, PHASE_TWO_SAFE_BOOT_CLEAR, now);
    ResolutionIsExclusive(m.progress, PHASE_TWO_SAFE_BOOT_CLEAR, AsCompleted(now));
  }

  lemma HalfClearedIsStuck(left: Machine)
    requires left.runOnce && left.state.phase1SafeModeReady && left.state.transaction.Some?
    requires left.state.transaction.value.IsBound() && 1 <= Rank(left.state) <= 2
    requires var k := Reached(left.progress); k.armed && !k.cleared && !k.handed && !k.benchmarked
    requires !left.safeBoot && !left.progress.IsSkipped(PHASE_TWO_SAFE_BOOT_CLEAR)
    ensures IsStuck(left)
  {
    forall boot, receipt ensures Decide(left.(boot := boot), PhaseTwo, receipt).Err? {
      PhaseTwoDecision(left.(boot := boot), receipt);
    }
    StuckWithoutPhaseTwo(left);
  }

  /** P2:1 can be resumed exactly before its first write and after its last; in between the machine is stuck. */
  lemma ClearingCrashPoints(m: Machine, now: string, n: nat, receipt: Evidence)
    requires IsSafe(m) && Decide(m, PhaseTwo, receipt) == Ok(RunPhaseTwoStepOne) && n <= 3
    ensures var left := AfterClear(m, now, n);
            && (n == 0 ==> Decide(left, PhaseTwo, receipt) == Ok(RunPhaseTwoStepOne))
            && (n == 3 ==> Decide(left, PhaseTwo, receipt) == Ok(RunRemainingPhaseTwo))
            && (n == 1 || n == 2 ==> IsStuck(left))
  {
    var left := AfterClear(m, now, n);
    StepOneAwaitsClear(m, receipt);
    ClearingLeaves(m, now, n);
    if n == 3 {
      PhaseTwoDecision(left, receipt);
    } else if n > 0 {
      HalfClearedIsStuck(left);
    }
  }

  // ---------------------------------------------------------------------
  // P2:3
  // ---------------------------------------------------------------------

  /** P2:3 can be resumed until the stage is persisted; Phase 3 starts once the progress is; in between the machine is stuck. */
  lemma HandingOverCrashPoints(m: Machine, now: string, n: nat, receipt: Evidence)
    requires IsSafe(m) && Decide(m, PhaseTwo, receipt) == Ok(RunRemainingPhaseTwo) && Reached(m.progress).cleaned && n <= 3
    ensures var left := AfterArmThree(m, now, n);
            && (Decide(left, PhaseTwo, receipt).Ok? <==> n < 2)
            && (Decide(Rebooted(left), PhaseThree, receipt).Ok? <==> n == 3)
            && (n == 2 ==> IsStuck(left))
  {
    var left := AfterArmThree(m, now, n);
    HandingOverLeaves(m, now, n, receipt);
    PhaseTwoDecision(left, receipt);
    if n < 3 {
      PhaseThreeDecision(Rebooted(left), receipt);
      if n == 2 {
        HandingOverIsStuck(left);
      }
    } else {
      PhaseThreeDecision(Rebooted(left), receipt);
    }
  }

  /** The machine after n of the three writes, in the terms the guards use. */
  lemma HandingOverLeaves(m: Machine, now: string, n: nat, receipt: Evidence)
    requires IsSafe(m) && Decide(m, PhaseTwo, receipt) == Ok(RunRemainingPhaseTwo) && Reached(m.progress).cleaned && n <= 3
    ensures var left := AfterArmThree(m, now, n);
            var k := Reached(left.progress);
            && left.boot.SafeModeBoot? && left.runOnce && !left.safeBoot && (n >= 1 ==> left.run)
            && left.state.phase1SafeModeReady && left.state.transaction.Some? && left.state.transaction.value.IsBound()
            && Rank(left.state) == (if n >= 2 then 3 else 2)
            && k.armed && k.cleared && k.cleaned && (k.handed <==> n == 3) && !k.benchmarked
            && !left.progress.IsSkipped(PHASE_TWO_SAFE_BOOT_CLEAR)
  {
    CompletingReaches(m.progress, PHASE_TWO_PHASE_THREE_HANDOFF, now);
    ProgressKeyInjective(PHASE_TWO_PHASE_THREE_HANDOFF, PHASE_TWO_SAFE_BOOT_CLEAR);
  }

  lemma HandingOverIsStuck(left: Machine)
    requires left.runOnce && left.state.phase1SafeModeReady && left.state.transaction.Some?
    requires left.state.transaction.value.IsBound() && Rank(left.state) == 3
    requires var k := Reached(left.progress); k.armed && k.cleared && !k.handed && !k.benchmarked
    requires !left.progress.IsSkipped(PHASE_TWO_SAFE_BOOT_CLEAR)
    ensures IsStuck(left)
  {
    forall boot, receipt ensures Decide(left.(boot := boot), PhaseTwo, receipt).Err? {
      PhaseTwoDecision(left.(boot := boot), receipt);
    }
    StuckWithoutPhaseTwo(left);
  }

  // ---------------------------------------------------------------------
  // P3:13
  // ---------------------------------------------------------------------

  /** The machine after n of the three writes, in the terms the guards use. */
  lemma FinalLeaves(m: Machine, config: Config, input: Input, n: nat)
    requires IsSafe(m) && m.run && n <= 3
    requires Reconcile(config, m.OnDisk(), input).Ok? && Reconcile(config, m.OnDisk(), input).value.Pending?
    ensures var left := AfterFinal(m, Reconcile(config, m.OnDisk(), input).value.commit, n);
            var k, k' := Reached(m.progress), Reached(left.progress);
            && left.boot == m.boot && left.run
            && k'.cleared == k.cleared && k'.cleaned == k.cleaned && k'.handed == k.handed
            && (k'.installed && k'.benchmarked && RequireStage(left.state, PhaseThreeComplete).Ok? <==> n == 3)
            && (RequireFinalStage(m.state).Ok? ==> RequireFinalStage(left.state).Ok?)
  {
    var now := PendingMoves(config, m.OnDisk(), input);
    CompletingReaches(m.progress, PHASE_THREE_FINAL_BENCHMARK, now);
  }

  /** The final benchmark can be resumed at every crash point, and its handoff cleared exactly at the last. */
  lemma FinalCrashPoints(m: Machine, config: Config, input: Input, n: nat, receipt: Evidence)
    requires IsSafe(m) && m.run && Decide(m, FinalBenchmark, receipt).Ok? && n <= 3
    requires Reconcile(config, m.OnDisk(), input).Ok? && Reconcile(config, m.OnDisk(), input).value.Pending?
    ensures var left := AfterFinal(m, Reconcile(config, m.OnDisk(), input).value.commit, n);
            && Decide(left, FinalBenchmark, receipt).Ok?
            && (Decide(left, ClearPhaseThreeHandoff, receipt).Ok? <==> n == 3 && receipt.Verified?)
  {
    var left := AfterFinal(m, Reconcile(config, m.OnDisk(), input).value.commit, n);
    FinalLeaves(m, config, input, n);
    FinalDecision(m, receipt);
    FinalDecision(left, receipt);
    ClearDecision(left, receipt);
  }
}
