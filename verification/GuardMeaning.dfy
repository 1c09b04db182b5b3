/** What each guard grants, exactly, in step ids and in every fact it is given. */
module GuardMeaning {
  import opened Wrappers
  import opened Catalog
  import opened ProgressModel
  import opened Handoff
  import opened StateModel
  import opened Orchestration
  import opened Migration

  predicate Done(p: Progress, phase: Phase, n: U8) {
    p.IsCompleted(StepId(phase, n))
  }

  predicate Touched(p: Progress, phase: Phase, n: U8) {
    p.IsCompleted(StepId(phase, n)) || p.IsSkipped(StepId(phase, n))
  }

  // ---------------------------------------------------------------------
  // The schedule
  // ---------------------------------------------------------------------

  /** The rows of a phase are numbered from 1; its engine steps are those not named. */
  predicate IsSchedule(rows: seq<Step>, phase: Phase, count: nat, special: set<nat>) {
    && |rows| == count < 256
    && forall i :: 0 <= i < count ==> rows[i].id == StepId(phase, i + 1) && (rows[i].role.EngineStep? <==> i + 1 !in special)
  }

  predicate IsScheduled(rows: seq<Step>, lo: nat, hi: nat) {
    hi <= |rows| == 38 && forall i :: lo <= i < hi ==> rows[i].id == StepId(One, i + 1) && (rows[i].role.EngineStep? <==> i != 37)
  }

  lemma PhaseOneFirstRows()
    ensures IsScheduled(PhaseOneRows(), 0, 10)
  {
  }

  lemma PhaseOneSecondRows()
    ensures IsScheduled(PhaseOneRows(), 10, 20)
  {
  }

  lemma PhaseOneThirdRows()
    ensures IsScheduled(PhaseOneRows(), 20, 30)
  {
  }

  lemma PhaseOneFourthRows()
    ensures IsScheduled(PhaseOneRows(), 30, 38)
  {
  }

  lemma ScheduleFromParts(rows: seq<Step>)
    requires IsScheduled(rows, 0, 10) && IsScheduled(rows, 10, 20) && IsScheduled(rows, 20, 30) && IsScheduled(rows, 30, 38)
    ensures IsSchedule(rows, One, 38, {38})
  {
  }

  lemma PhaseOneSchedule()
    ensures IsSchedule(Rows(One), One, 38, {38})
  {
    PhaseOneFirstRows();
    PhaseOneSecondRows();
    PhaseOneThirdRows();
    PhaseOneFourthRows();
    ScheduleFromParts(PhaseOneRows());
  }

  lemma PhaseTwoSchedule()
    ensures IsSchedule(Rows(Two), Two, 3, {1, 3})
  {
  }

  lemma PhaseThreeSchedule()
    ensures IsSchedule(Rows(Three), Three, 13, {13})
  {
  }

  lemma NumberedRow(rows: seq<Step>, phase: Phase, count: nat, special: set<nat>, n: U8)
    requires IsSchedule(rows, phase, count, special) && 1 <= n <= count
    ensures rows[n - 1] in rows && rows[n - 1].id == StepId(phase, n)
    ensures rows[n - 1].role.EngineStep? <==> n !in special
  {
  }

  lemma RowIsNumbered(rows: seq<Step>, phase: Phase, count: nat, special: set<nat>, step: Step) returns (n: U8)
    requires IsSchedule(rows, phase, count, special) && step in rows
    ensures 1 <= n <= count && step.id == StepId(phase, n) && (step.role.EngineStep? <==> n !in special)
  {
    var i :| 0 <= i < |rows| && rows[i] == step;
    n := i + 1;
  }

  /** P1:1 to P1:37 are completed or skipped; an advisory counts for P1:2 and P1:9 alone. */
  predicate PhaseOneIsReady(p: Progress) {
    forall n: U8 :: 1 <= n <= 37 ==> Touched(p, One, n) || ((n == 2 || n == 9) && p.HasAdvisory(StepId(One, n)))
  }

  lemma ReadyRowsMean(p: Progress, rows: seq<Step>)
    requires IsSchedule(rows, One, 38, {38})
    ensures FirstNotReady(p, rows).None? <==> PhaseOneIsReady(p)
  {
    if PhaseOneIsReady(p) {
      forall step | step in rows && step.role.EngineStep? ensures IsReady(p, step.id) {
        var n := RowIsNumbered(rows, One, 38, {38}, step);
        assert Touched(p, One, n) || ((n == 2 || n == 9) && p.HasAdvisory(StepId(One, n)));
      }
    }
    if FirstNotReady(p, rows).None? {
      forall n: U8 | 1 <= n <= 37
        ensures Touched(p, One, n) || ((n == 2 || n == 9) && p.HasAdvisory(StepId(One, n)))
      {
        NumberedRow(rows, One, 38, {38}, n);
        assert IsReady(p, rows[n - 1].id);
      }
    }
  }

  lemma ReadyMeans(p: Progress)
    ensures RequirePhaseOneHandoffReady(p).Ok? <==> PhaseOneIsReady(p)
  {
    PhaseOneSchedule();
    ReadyRowsMean(p, Rows(One));
  }

  lemma PhaseRowsMean(p: Progress, phase: Phase, rows: seq<Step>, count: nat, special: set<nat>)
    requires IsSchedule(rows, phase, count, special)
    ensures (exists step <- rows :: p.IsCompleted(step.id) || p.IsSkipped(step.id))
            <==> exists n: U8 :: 1 <= n <= count && Touched(p, phase, n)
  {
    if step :| step in rows && (p.IsCompleted(step.id) || p.IsSkipped(step.id)) {
      var n := RowIsNumbered(rows, phase, count, special, step);
      assert Touched(p, phase, n);
    }
    if n: U8 :| 1 <= n <= count && Touched(p, phase, n) {
      NumberedRow(rows, phase, count, special, n);
    }
  }

  /** Some step of Phase 2 or Phase 3 is completed or skipped. */
  predicate LaterPhaseBegan(p: Progress) {
    || (exists n: U8 :: 1 <= n <= 3 && Touched(p, Two, n))
    || (exists n: U8 :: 1 <= n <= 13 && Touched(p, Three, n))
  }

  lemma LaterPhaseMeans(p: Progress)
    ensures HasPhase(p, Two) || HasPhase(p, Three) <==> LaterPhaseBegan(p)
  {
    PhaseTwoSchedule();
    PhaseThreeSchedule();
    PhaseRowsMean(p, Two, Rows(Two), 3, {1, 3});
    PhaseRowsMean(p, Three, Rows(Three), 13, {13});
  }

  lemma LaterPhaseTwoRowsMean(p: Progress, rows: seq<Step>)
    requires IsSchedule(rows, Two, 3, {1, 3})
    ensures (exists step <- rows :: step.id != StepId(Two, 1) && (p.IsCompleted(step.id) || p.IsSkipped(step.id)))
            <==> Touched(p, Two, 2) || Touched(p, Two, 3)
  {
    if step :| step in rows && step.id != StepId(Two, 1) && (p.IsCompleted(step.id) || p.IsSkipped(step.id)) {
      var n := RowIsNumbered(rows, Two, 3, {1, 3}, step);
      assert n == 2 || n == 3;
    }
    NumberedRow(rows, Two, 3, {1, 3}, 2);
    NumberedRow(rows, Two, 3, {1, 3}, 3);
  }

  lemma LaterPhaseTwoMeans(p: Progress)
    ensures HasLaterPhaseTwoStep(p) <==> Touched(p, Two, 2) || Touched(p, Two, 3)
  {
    PhaseTwoSchedule();
    LaterPhaseTwoRowsMean(p, Rows(Two));
  }

  lemma CompletedRowsMean(p: Progress, rows: seq<Step>)
    requires IsSchedule(rows, Two, 3, {1, 3})
    ensures FirstNotCompleted(p, rows).None? <==> Done(p, Two, 1) && Done(p, Two, 2) && Done(p, Two, 3)
  {
    if Done(p, Two, 1) && Done(p, Two, 2) && Done(p, Two, 3) {
      forall step | step in rows ensures p.IsCompleted(step.id) {
        var n := RowIsNumbered(rows, Two, 3, {1, 3}, step);
        assert n == 1 || n == 2 || n == 3;
      }
    }
    NumberedRow(rows, Two, 3, {1, 3}, 1);
    NumberedRow(rows, Two, 3, {1, 3}, 2);
    NumberedRow(rows, Two, 3, {1, 3}, 3);
  }

  lemma PhaseTwoCompletedMeans(p: Progress)
    ensures RequireAllCompleted(p, Two).Ok? <==> Done(p, Two, 1) && Done(p, Two, 2) && Done(p, Two, 3)
  {
    PhaseTwoSchedule();
    CompletedRowsMean(p, Rows(Two));
  }

  // ---------------------------------------------------------------------
  // The six requests
  // ---------------------------------------------------------------------

  predicate BoundAt(s: State, stage: RebootStage) {
    s.transaction.Some? && IsBoundAt(s.transaction.value, stage)
  }

  lemma StageMeans(s: State, stage: RebootStage)
    ensures RequireStage(s, stage).Ok? <==> BoundAt(s, stage)
  {
  }

  lemma OptimizeDecisionMeans(began: bool, facts: PhaseFacts)
    ensures OptimizeDecision(began, facts).Ok? <==>
              && facts.boot.NormalBoot? && facts.handoff.phaseTwoRunOnce.Absent? && facts.handoff.phaseThreeRun.Absent?
              && facts.handoff.safeBoot.Absent? && !began
    ensures OptimizeDecision(began, facts).Ok? ==> OptimizeDecision(began, facts).value == RunPhaseOne
  {
  }

  /** Phase 1 runs exactly in normal boot, with no reboot mechanism armed and no later phase begun. */
  lemma OptimizeMeans(s: State, p: Progress, facts: PhaseFacts)
    ensures Authorize(Optimize, s, p, facts).Ok? <==>
              && facts.boot.NormalBoot? && facts.handoff.phaseTwoRunOnce.Absent? && facts.handoff.phaseThreeRun.Absent?
              && facts.handoff.safeBoot.Absent? && !LaterPhaseBegan(p)
    ensures Authorize(Optimize, s, p, facts).Ok? ==> Authorize(Optimize, s, p, facts).value == RunPhaseOne
  {
    LaterPhaseMeans(p);
    OptimizeDecisionMeans(HasPhase(p, Two) || HasPhase(p, Three), facts);
  }

  lemma ArmDecisionMeansAll(ready: Check, s: State, facts: PhaseFacts)
    ensures ArmDecision(ready, s, facts).Ok? <==>
              && facts.boot.NormalBoot? && facts.runtime.VerifiedSelectedExecutable? && s.transaction.None? && ready.Ok?
    ensures ArmDecision(ready, s, facts).Ok? ==> ArmDecision(ready, s, facts).value == ArmSafeModeTransition(true)
  {
  }

  lemma ArmNeedsReady(s: State, p: Progress, facts: PhaseFacts)
    ensures var d := AuthorizeSafeModeArm(s, p, facts);
            && (d.Ok? <==>
                  && facts.boot.NormalBoot? && facts.runtime.VerifiedSelectedExecutable? && s.transaction.None?
                  && RequirePhaseOneHandoffReady(p).Ok?)
            && (d.Ok? ==> d.value == ArmSafeModeTransition(true))
  {
    ArmDecisionMeansAll(RequirePhaseOneHandoffReady(p), s, facts);
  }

  /** Safe Mode is armed exactly in normal boot, from a ready Phase 1 without a transaction, by the selected runtime. */
  lemma ArmMeans(s: State, p: Progress, facts: PhaseFacts, request: PhaseRequest)
    requires request.ArmSafeMode?
    ensures var d := Authorize(request, s, p, facts);
            && (d.Ok? <==>
                  && facts.boot.NormalBoot? && facts.runtime.VerifiedSelectedExecutable? && s.transaction.None?
                  && PhaseOneIsReady(p))
            && (d.Ok? ==> d.value == ArmSafeModeTransition(true))
  {
    ReadyMeans(p);
    ArmNeedsReady(s, p, facts);
  }

  /** What both transitions of Phase 2 need. */
  predicate PhaseTwoIsOpen(handed: bool, s: State, facts: PhaseFacts) {
    && facts.boot.SafeModeBoot? && facts.runtime.VerifiedSelectedExecutable?
    && s.phase1SafeModeReady && facts.phaseOneSafeModeReady && facts.handoff.phaseTwoRunOnce.Verified?
    && handed
  }

  lemma PhaseTwoGuardMeans(handed: Check, skipped: bool, cleared: bool, later: bool, s: State, facts: PhaseFacts)
    ensures var d := PhaseTwoGuard(handed, skipped, cleared, later, s, facts);
            && (d == Ok(RunPhaseTwoStepOne) <==>
                  && PhaseTwoIsOpen(handed.Ok?, s, facts) && !skipped && !cleared && !later
                  && BoundAt(s, PhaseOneSafeModeArmed) && facts.handoff.safeBoot.Verified?)
            && (d == Ok(RunRemainingPhaseTwo) <==>
                  && PhaseTwoIsOpen(handed.Ok?, s, facts) && !skipped && cleared
                  && BoundAt(s, PhaseTwoSafeMode) && facts.handoff.safeBoot.Absent?)
            && (d.Ok? ==> d.value.RunPhaseTwoStepOne? || d.value.RunRemainingPhaseTwo?)
  {
  }

  /** P2:1 runs exactly with safe boot still configured at the armed stage, the rest exactly with it gone at the next. */
  lemma PhaseTwoMeans(s: State, p: Progress, facts: PhaseFacts)
    ensures var d := Authorize(PhaseTwo, s, p, facts);
            && (d == Ok(RunPhaseTwoStepOne) <==>
                  && PhaseTwoIsOpen(Done(p, One, 38), s, facts)
                  && !Touched(p, Two, 1) && !Touched(p, Two, 2) && !Touched(p, Two, 3)
                  && BoundAt(s, PhaseOneSafeModeArmed) && facts.handoff.safeBoot.Verified?)
            && (d == Ok(RunRemainingPhaseTwo) <==>
                  && PhaseTwoIsOpen(Done(p, One, 38), s, facts)
                  && Done(p, Two, 1) && !p.IsSkipped(StepId(Two, 1))
                  && BoundAt(s, PhaseTwoSafeMode) && facts.handoff.safeBoot.Absent?)
            && (d.Ok? ==> d.value.RunPhaseTwoStepOne? || d.value.RunRemainingPhaseTwo?)
  {
    LaterPhaseTwoMeans(p);
    PhaseTwoGuardMeans(
      RequireCompleted(p, PHASE_ONE_SAFE_MODE_HANDOFF, MissingPhaseOneHandoffCompletion),
      p.IsSkipped(PHASE_TWO_SAFE_BOOT_CLEAR), p.IsCompleted(PHASE_TWO_SAFE_BOOT_CLEAR), HasLaterPhaseTwoStep(p), s, facts);
  }

  /** What both Phase 3 requests need of the boot, the runtime, the Run entry, its user and Phase 2. */
  predicate PhaseThreeIsOpen(p: Progress, facts: PhaseFacts) {
    && facts.boot.NormalBoot? && facts.runtime.VerifiedSelectedExecutable?
    && facts.handoff.phaseThreeRun.Verified? && facts.handoff.phaseThreeSameUser.Verified?
    && Done(p, Two, 1) && Done(p, Two, 2) && Done(p, Two, 3)
  }

  lemma HandedOverMeans(p: Progress, handoff: HandoffEvidence)
    ensures RequireCompletedPhaseTwo(p, handoff).Ok? <==>
              && handoff.phaseThreeRun.Verified? && handoff.phaseThreeSameUser.Verified?
              && Done(p, Two, 1) && Done(p, Two, 2) && Done(p, Two, 3)
  {
    PhaseTwoCompletedMeans(p);
  }

  lemma FinalStageMeans(s: State)
    ensures RequireFinalStage(s).Ok? <==> BoundAt(s, PhaseThreeArmed) || BoundAt(s, PhaseThreeComplete)
  {
  }

  lemma LaterPhaseGuardMeans(request: PhaseRequest, stage: Check, phaseTwo: Check, p: Progress, facts: PhaseFacts, granted: Transition)
    requires phaseTwo.Ok? <==>
               && facts.handoff.phaseThreeRun.Verified? && facts.handoff.phaseThreeSameUser.Verified?
               && Done(p, Two, 1) && Done(p, Two, 2) && Done(p, Two, 3)
    ensures var d := LaterPhase(request, stage, phaseTwo, facts, granted);
            && (d.Ok? <==> PhaseThreeIsOpen(p, facts) && stage.Ok?)
            && (d.Ok? ==> d.value == granted)
  {
    LaterPhaseNeedsAll(request, stage, phaseTwo, facts, granted);
  }

  lemma PhaseThreeMeans(s: State, p: Progress, facts: PhaseFacts, request: PhaseRequest)
    requires request.PhaseThree?
    ensures var d := Authorize(request, s, p, facts);
            && (d.Ok? <==> PhaseThreeIsOpen(p, facts) && BoundAt(s, PhaseThreeArmed))
            && (d.Ok? ==> d.value == RunPhaseThree)
  {
    HandedOverMeans(p, facts.handoff);
    StageMeans(s, PhaseThreeArmed);
    LaterPhaseGuardMeans(PhaseThree, RequireStage(s, PhaseThreeArmed), RequireCompletedPhaseTwo(p, facts.handoff), p, facts,
                         RunPhaseThree);
  }

  /** The final benchmark also runs again once its commit moved the stage. */
  lemma FinalBenchmarkMeans(s: State, p: Progress, facts: PhaseFacts, request: PhaseRequest)
    requires request.FinalBenchmark?
    ensures var d := Authorize(request, s, p, facts);
            && (d.Ok? <==> PhaseThreeIsOpen(p, facts) && (BoundAt(s, PhaseThreeArmed) || BoundAt(s, PhaseThreeComplete)))
            && (d.Ok? ==> d.value == PersistFinal)
  {
    HandedOverMeans(p, facts.handoff);
    FinalStageMeans(s);
    LaterPhaseGuardMeans(FinalBenchmark, RequireFinalStage(s), RequireCompletedPhaseTwo(p, facts.handoff), p, facts, PersistFinal);
  }

  lemma ClearDecisionMeans(stage: Check, installed: Check, benchmarked: Check, facts: PhaseFacts)
    ensures ClearDecision(stage, installed, benchmarked, facts).Ok? <==>
              && stage.Ok? && facts.handoff.phaseThreeRun.Verified? && facts.handoff.phaseThreeSameUser.Verified?
              && installed.Ok? && benchmarked.Ok? && facts.finalBenchmarkPersisted.Verified?
    ensures ClearDecision(stage, installed, benchmarked, facts).Ok? ==>
              ClearDecision(stage, installed, benchmarked, facts).value == ClearHandoff
  {
  }

  /** The handoff is cleared exactly at the last stage, by its own user, with P3:1, P3:13 and the receipt persisted. */
  lemma HandoffClearMeans(s: State, p: Progress, facts: PhaseFacts)
    ensures Authorize(ClearPhaseThreeHandoff, s, p, facts).Ok? <==>
              && BoundAt(s, PhaseThreeComplete)
              && facts.handoff.phaseThreeRun.Verified? && facts.handoff.phaseThreeSameUser.Verified?
              && facts.finalBenchmarkPersisted.Verified?
              && Done(p, Three, 1) && Done(p, Three, 13)
    ensures Authorize(ClearPhaseThreeHandoff, s, p, facts).Ok? ==>
              Authorize(ClearPhaseThreeHandoff, s, p, facts).value == ClearHandoff
  {
    StageMeans(s, PhaseThreeComplete);
    ClearDecisionMeans(RequireStage(s, PhaseThreeComplete),
                       RequireCompleted(p, PHASE_THREE_DRIVER_INSTALL, PhaseThreeHandoffMustRemain),
                       RequireCompleted(p, PHASE_THREE_FINAL_BENCHMARK, PhaseThreeHandoffMustRemain), facts);
  }

  // ---------------------------------------------------------------------
  // Migration
  // ---------------------------------------------------------------------

  function DoneFrom(p: Progress, k: nat): set<U8> {
    set n: U8 | k < n <= 38 && p.IsCompleted(StepId(One, n))
  }

  function SkippedFrom(p: Progress, k: nat): set<U8> {
    set n: U8 | k < n <= 38 && p.IsSkipped(StepId(One, n))
  }

  lemma OneMore(p: Progress, k: nat, n: U8)
    requires n == k + 1 <= 38
    ensures |DoneFrom(p, k)| == |DoneFrom(p, k + 1)| + if p.IsCompleted(StepId(One, n)) then 1 else 0
    ensures |SkippedFrom(p, k)| == |SkippedFrom(p, k + 1)| + if p.IsSkipped(StepId(One, n)) then 1 else 0
  {
    assert DoneFrom(p, k) == DoneFrom(p, k + 1) + if p.IsCompleted(StepId(One, n)) then {n} else {};
    assert SkippedFrom(p, k) == SkippedFrom(p, k + 1) + if p.IsSkipped(StepId(One, n)) then {n} else {};
  }

  lemma {:induction false} CountsMean(p: Progress, rows: seq<Step>, k: nat)
    requires IsSchedule(rows, One, 38, {38}) && k <= 38
    ensures CompletedCount(p, rows[k..]) == |DoneFrom(p, k)| && SkippedCount(p, rows[k..]) == |SkippedFrom(p, k)|
    decreases 38 - k
  {
    if k == 38 {
      assert DoneFrom(p, k) == {} && SkippedFrom(p, k) == {};
    } else {
      CountsMean(p, rows, k + 1);
      OneMore(p, k, k + 1);
      assert rows[k..][1..] == rows[k + 1..] && rows[k..][0] == rows[k];
    }
  }

  /** What a session may not be migrated with: something armed or inspected in vain, or work beyond Phase 1. */
  predicate IsBeyondMigration(s: Option<State>, p: Option<Progress>, inventory: MigrationInventory) {
    || inventory.incompleteRuntime
    || (p.Some? && LaterPhaseBegan(p.value))
    || (s.Some? && (s.value.phase1SafeModeReady || s.value.transaction.Some? || s.value.malformedTransaction))
  }

  /** The decision given the counts of Phase 1 and whether a later phase began. */
  lemma AssessmentMeans(s: Option<State>, p: Option<Progress>, inventory: MigrationInventory, began: bool, completed: nat, skipped: nat)
    requires p.Some? ==> began == HasResolvedLaterPhase(p.value)
    requires p.Some? ==> ConfirmationFor(p.value, One) ==
                         if completed + skipped == 0 then ConfirmIdle else ConfirmPartialPhaseOne(completed, skipped)
    ensures AssessInventory(s, p, inventory) ==
              if inventory.phaseTwoRunOnceArmed then Refuse(PhaseTwoArmed)
              else if inventory.phaseThreeRunArmed then Refuse(PhaseThreeHandoffArmed)
              else if inventory.safeBootArmed then Refuse(SafeBootArmed)
              else if
                || inventory.incompleteRuntime || (p.Some? && began)
                || (s.Some? && (s.value.phase1SafeModeReady || s.value.transaction.Some? || s.value.malformedTransaction))
              then Refuse(IncompleteRuntime)
              else if s.None? && p.None? then NotNeeded
              else if p.None? || completed + skipped == 0 then ConfirmIdle
              else ConfirmPartialPhaseOne(completed, skipped)
  {
  }

  /**
   * The migration decision for every state, progress and inventory: what is armed is
   * named first, the rest is refused as an incomplete runtime, and a confirmation
   * counts the Phase 1 steps completed and those skipped.
   */
  lemma MigrationMeans(s: Option<State>, p: Option<Progress>, inventory: MigrationInventory)
    ensures AssessInventory(s, p, inventory) ==
              if inventory.phaseTwoRunOnceArmed then Refuse(PhaseTwoArmed)
              else if inventory.phaseThreeRunArmed then Refuse(PhaseThreeHandoffArmed)
              else if inventory.safeBootArmed then Refuse(SafeBootArmed)
              else if IsBeyondMigration(s, p, inventory) then Refuse(IncompleteRuntime)
              else if s.None? && p.None? then NotNeeded
              else if p.None? || |DoneFrom(p.value, 0)| + |SkippedFrom(p.value, 0)| == 0 then ConfirmIdle
              else ConfirmPartialPhaseOne(|DoneFrom(p.value, 0)|, |SkippedFrom(p.value, 0)|)
  {
    if p.Some? {
      LaterPhaseMeans(p.value);
      LaterPhaseIsNoPhase(p.value);
      PhaseOneSchedule();
      CountsMean(p.value, Rows(One), 0);
      assert Rows(One)[0..] == Rows(One);
      AssessmentMeans(s, p, inventory, LaterPhaseBegan(p.value), |DoneFrom(p.value, 0)|, |SkippedFrom(p.value, 0)|);
    } else {
      AssessmentMeans(s, p, inventory, false, 0, 0);
    }
  }
}
