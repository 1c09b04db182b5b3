/** The guards of the reboot-spanning transaction: what each request may attempt from observed facts. */
module Orchestration {
  import opened Wrappers
  import opened Catalog
  import opened ProgressModel
  import opened Handoff
  import opened StateModel

  datatype BootEnvironment = NormalBoot | SafeModeBoot

  datatype Evidence = Verified | Absent | Unavailable

  datatype RuntimeBinding = VerifiedSelectedExecutable | RuntimeUnavailable

  datatype HandoffEvidence = HandoffEvidence(
    phaseTwoRunOnce: Evidence,
    phaseThreeRun: Evidence,
    safeBoot: Evidence,
    phaseThreeSameUser: Evidence)

  datatype PhaseFacts = PhaseFacts(
    boot: BootEnvironment,
    runtime: RuntimeBinding,
    handoff: HandoffEvidence,
    phaseOneSafeModeReady: bool,
    finalBenchmarkPersisted: Evidence)

  datatype PhaseRequest = Optimize | ArmSafeMode | PhaseTwo | PhaseThree | FinalBenchmark | ClearPhaseThreeHandoff

  datatype Transition =
    | RunPhaseOne
    | ArmSafeModeTransition(requiresReadinessTransition: bool)
    | RunPhaseTwoStepOne
    | RunRemainingPhaseTwo
    | RunPhaseThree
    | PersistFinal
    | ClearHandoff

  datatype GuardError =
    | WrongBoot(request: PhaseRequest, expected: BootEnvironment, actual: BootEnvironment)
    | PhaseOneCannotResumeLaterPhase
    | MissingResolvedPhaseOneStep(number: nat)
    | SelectedRuntimeNotVerified
    | SafeModeReadinessNotPersisted
    | SafeModeHandoffInspectionUnavailable
    | SafeModeHandoffNotArmed
    | SafeBootInspectionUnavailable
    | SafeBootNotConfigured
    | SafeBootStillConfigured
    | MissingPhaseOneHandoffCompletion
    | PhaseTwoSafeBootClearNotCompleted
    | PhaseTwoSafeBootClearWasSkipped
    | MissingCompletedPhaseTwoStep(number: nat)
    | PhaseThreeHandoffInspectionUnavailable
    | PhaseThreeHandoffNotArmed
    | SameUserHandoffInspectionUnavailable
    | SameUserHandoffNotVerified
    | PhaseThreeHandoffMustRemain
    | LegacyRebootStateInspectionUnavailable
    | LegacyRebootTransactionArmed
    | ActiveRebootTransactionPresent
    | RebootTransactionMissing
    | RebootTransactionStageInvalid
    | FinalBenchmarkPersistenceUnavailable
    | FinalBenchmarkNotPersisted

  type Check = Result<(), GuardError>

  // ---------------------------------------------------------------------
  // Single requirements
  // ---------------------------------------------------------------------

  function RequireBoot(request: PhaseRequest, expected: BootEnvironment, actual: BootEnvironment): Check {
    if actual == expected then Ok(()) else Err(WrongBoot(request, expected, actual))
  }

  function RequireRuntime(runtime: RuntimeBinding): Check {
    if runtime.VerifiedSelectedExecutable? then Ok(()) else Err(SelectedRuntimeNotVerified)
  }

  function Require(evidence: Evidence, expected: Evidence, otherwise: GuardError, unavailable: GuardError): Check {
    if evidence == expected then Ok(()) else if evidence.Unavailable? then Err(unavailable) else Err(otherwise)
  }

  function RequirePhaseThreeHandoff(handoff: HandoffEvidence): Check {
    Require(handoff.phaseThreeRun, Verified, PhaseThreeHandoffNotArmed, PhaseThreeHandoffInspectionUnavailable)
  }

  function RequireSameUser(handoff: HandoffEvidence): Check {
    Require(handoff.phaseThreeSameUser, Verified, SameUserHandoffNotVerified, SameUserHandoffInspectionUnavailable)
  }

  /** The three mechanisms are inspected in order; the first that is not absent decides. */
  function RequireCleanRebootState(handoff: HandoffEvidence): Check {
    var _ :- Require(handoff.phaseTwoRunOnce, Absent, LegacyRebootTransactionArmed, LegacyRebootStateInspectionUnavailable);
    var _ :- Require(handoff.phaseThreeRun, Absent, LegacyRebootTransactionArmed, LegacyRebootStateInspectionUnavailable);
    Require(handoff.safeBoot, Absent, LegacyRebootTransactionArmed, LegacyRebootStateInspectionUnavailable)
  }

  function RequireStage(s: State, expected: RebootStage): Check {
    if s.transaction.None? then Err(RebootTransactionMissing)
    else if s.transaction.value.IsAuthorizedAt(expected) then Ok(())
    else Err(RebootTransactionStageInvalid)
  }

  function RequireFinalStage(s: State): Check {
    if s.transaction.None? then Err(RebootTransactionMissing)
    else if s.transaction.value.IsAuthorizedAt(PhaseThreeArmed) || s.transaction.value.IsAuthorizedAt(PhaseThreeComplete) then Ok(())
    else Err(RebootTransactionStageInvalid)
  }

  function RequireCompleted(p: Progress, id: StepId, otherwise: GuardError): Check {
    if p.IsCompleted(id) then Ok(()) else Err(otherwise)
  }

  // ---------------------------------------------------------------------
  // Requirements over the schedule
  // ---------------------------------------------------------------------

  predicate AdvisoryIsAuthorized(id: StepId) {
    id == PHASE_ONE_XMP_EXPO_CHECK || id == PHASE_ONE_RESIZABLE_BAR_CHECK
  }

  predicate IsReady(p: Progress, id: StepId) {
    p.IsCompleted(id) || p.IsSkipped(id) || (AdvisoryIsAuthorized(id) && p.HasAdvisory(id))
  }

  function FirstNotReady(p: Progress, rows: seq<Step>): (r: Option<Step>)
    ensures r.None? <==> forall step <- rows :: step.role.EngineStep? ==> IsReady(p, step.id)
    ensures r.Some? ==> r.value in rows && r.value.role.EngineStep? && !IsReady(p, r.value.id)
  {
    if rows == [] then None
    else if rows[0].role.EngineStep? && !IsReady(p, rows[0].id) then Some(rows[0])
    else FirstNotReady(p, rows[1..])
  }

  function RequireReady(p: Progress, phase: Phase): Check {
    var missing := FirstNotReady(p, Rows(phase));
    if missing.Some? then Err(MissingResolvedPhaseOneStep(missing.value.id.number)) else Ok(())
  }

  function RequirePhaseOneHandoffReady(p: Progress): Check {
    RequireReady(p, One)
  }

  function FirstNotCompleted(p: Progress, rows: seq<Step>): (r: Option<Step>)
    ensures r.None? <==> forall step <- rows :: p.IsCompleted(step.id)
    ensures r.Some? ==> r.value in rows && !p.IsCompleted(r.value.id)
  {
    if rows == [] then None
    else if !p.IsCompleted(rows[0].id) then Some(rows[0])
    else FirstNotCompleted(p, rows[1..])
  }

  function RequireAllCompleted(p: Progress, phase: Phase): Check {
    var missing := FirstNotCompleted(p, Rows(phase));
    if missing.Some? then Err(MissingCompletedPhaseTwoStep(missing.value.id.number)) else Ok(())
  }

  /** The handoff and its user are checked before the outcome of the Phase 2 steps. */
  function BehindHandoff(handoff: HandoffEvidence, completed: Check): (r: Check)
    ensures r.Ok? <==> handoff.phaseThreeRun.Verified? && handoff.phaseThreeSameUser.Verified? && completed.Ok?
  {
    var _ :- RequirePhaseThreeHandoff(handoff);
    var _ :- RequireSameUser(handoff);
    completed
  }

  function RequireCompletedPhaseTwo(p: Progress, handoff: HandoffEvidence): Check {
    BehindHandoff(handoff, RequireAllCompleted(p, Two))
  }

  /** A step of the phase is completed or skipped. */
  predicate HasPhase(p: Progress, phase: Phase) {
    exists step <- Rows(phase) :: p.IsCompleted(step.id) || p.IsSkipped(step.id)
  }

  predicate HasLaterPhaseTwoStep(p: Progress) {
    exists step <- Rows(Two) :: step.id != PHASE_TWO_SAFE_BOOT_CLEAR && (p.IsCompleted(step.id) || p.IsSkipped(step.id))
  }

  // ---------------------------------------------------------------------
  // The guards
  // ---------------------------------------------------------------------

  type Decision = Result<Transition, GuardError>

  /** The first guard, given whether a later phase began. */
  function OptimizeDecision(began: bool, facts: PhaseFacts): Decision {
    var _ :- RequireBoot(Optimize, NormalBoot, facts.boot);
    var _ :- RequireCleanRebootState(facts.handoff);
    if began then Err(PhaseOneCannotResumeLaterPhase) else Ok(RunPhaseOne)
  }

  function AuthorizeOptimize(p: Progress, facts: PhaseFacts): Decision {
    OptimizeDecision(HasPhase(p, Two) || HasPhase(p, Three), facts)
  }

  /** The arming guard, given the outcome of the readiness check it makes second. */
  function ArmDecision(ready: Check, s: State, facts: PhaseFacts): Decision {
    var _ :- RequireBoot(ArmSafeMode, NormalBoot, facts.boot);
    var _ :- ready;
    var _ :- RequireRuntime(facts.runtime);
    if s.transaction.Some? then Err(ActiveRebootTransactionPresent) else Ok(ArmSafeModeTransition(true))
  }

  function AuthorizeSafeModeArm(s: State, p: Progress, facts: PhaseFacts): Decision {
    ArmDecision(RequirePhaseOneHandoffReady(p), s, facts)
  }

  /** The Phase 2 guard, given what the progress file says of P1:38, P2:1 and the later Phase 2 steps. */
  function PhaseTwoGuard(handed: Check, skipped: bool, cleared: bool, later: bool, s: State, facts: PhaseFacts): Decision {
    var _ :- RequireBoot(PhaseTwo, SafeModeBoot, facts.boot);
    var _ :- RequireRuntime(facts.runtime);
    if !s.phase1SafeModeReady || !facts.phaseOneSafeModeReady then Err(SafeModeReadinessNotPersisted)
    else
      var _ :- Require(facts.handoff.phaseTwoRunOnce, Verified, SafeModeHandoffNotArmed, SafeModeHandoffInspectionUnavailable);
      var _ :- handed;
      if skipped then Err(PhaseTwoSafeBootClearWasSkipped)
      else if cleared then
        var _ :- RequireStage(s, PhaseTwoSafeMode);
        var _ :- Require(facts.handoff.safeBoot, Absent, SafeBootStillConfigured, SafeBootInspectionUnavailable);
        Ok(RunRemainingPhaseTwo)
      else if later then Err(PhaseTwoSafeBootClearNotCompleted)
      else
        var _ :- RequireStage(s, PhaseOneSafeModeArmed);
        var _ :- Require(facts.handoff.safeBoot, Verified, SafeBootNotConfigured, SafeBootInspectionUnavailable);
        Ok(RunPhaseTwoStepOne)
  }

  function AuthorizePhaseTwo(s: State, p: Progress, facts: PhaseFacts): Decision {
    PhaseTwoGuard(
      RequireCompleted(p, PHASE_ONE_SAFE_MODE_HANDOFF, MissingPhaseOneHandoffCompletion),
      p.IsSkipped(PHASE_TWO_SAFE_BOOT_CLEAR), p.IsCompleted(PHASE_TWO_SAFE_BOOT_CLEAR), HasLaterPhaseTwoStep(p), s, facts)
  }

  /** The order both Phase 3 requests check in, over the outcomes of their stage and Phase 2 checks. */
  function LaterPhase(request: PhaseRequest, stage: Check, phaseTwo: Check, facts: PhaseFacts, granted: Transition): Decision {
    var _ :- RequireBoot(request, NormalBoot, facts.boot);
    var _ :- RequireRuntime(facts.runtime);
    var _ :- stage;
    var _ :- phaseTwo;
    Ok(granted)
  }

  function AuthorizePhaseThree(s: State, p: Progress, facts: PhaseFacts): Decision {
    LaterPhase(PhaseThree, RequireStage(s, PhaseThreeArmed), RequireCompletedPhaseTwo(p, facts.handoff), facts, RunPhaseThree)
  }

  function AuthorizeFinalBenchmark(s: State, p: Progress, facts: PhaseFacts): Decision {
    LaterPhase(FinalBenchmark, RequireFinalStage(s), RequireCompletedPhaseTwo(p, facts.handoff), facts, PersistFinal)
  }

  /** The last guard, given the outcomes of its stage and progress checks. */
  function ClearDecision(stage: Check, installed: Check, benchmarked: Check, facts: PhaseFacts): Decision {
    var _ :- stage;
    var _ :- RequirePhaseThreeHandoff(facts.handoff);
    var _ :- RequireSameUser(facts.handoff);
    var _ :- installed;
    var _ :- benchmarked;
    var _ :- Require(facts.finalBenchmarkPersisted, Verified, FinalBenchmarkNotPersisted, FinalBenchmarkPersistenceUnavailable);
    Ok(ClearHandoff)
  }

  function AuthorizeHandoffClear(s: State, p: Progress, facts: PhaseFacts): Decision {
    ClearDecision(RequireStage(s, PhaseThreeComplete),
                  RequireCompleted(p, PHASE_THREE_DRIVER_INSTALL, PhaseThreeHandoffMustRemain),
                  RequireCompleted(p, PHASE_THREE_FINAL_BENCHMARK, PhaseThreeHandoffMustRemain), facts)
  }

  function Authorize(request: PhaseRequest, s: State, p: Progress, facts: PhaseFacts): Decision {
    match request
    case Optimize => AuthorizeOptimize(p, facts)
    case ArmSafeMode => AuthorizeSafeModeArm(s, p, facts)
    case PhaseTwo => AuthorizePhaseTwo(s, p, facts)
    case PhaseThree => AuthorizePhaseThree(s, p, facts)
    case FinalBenchmark => AuthorizeFinalBenchmark(s, p, facts)
    case ClearPhaseThreeHandoff => AuthorizeHandoffClear(s, p, facts)
  }

  lemma ArmDecisionMeans(ready: Check, s: State, facts: PhaseFacts)
    requires ArmDecision(ready, s, facts).Ok?
    ensures s.transaction.None? && facts.boot.NormalBoot? && ready.Ok? && facts.runtime.VerifiedSelectedExecutable?
  {
  }

  lemma ArmDecisionRefuses(ready: Check, s: State, facts: PhaseFacts)
    requires s.transaction.Some?
    ensures ArmDecision(ready, s, facts).Err?
  {
  }

  lemma ArmRefusedWithTransaction(s: State, p: Progress, facts: PhaseFacts)
    requires s.transaction.Some?
    ensures Authorize(ArmSafeMode, s, p, facts).Err?
  {
    ArmDecisionRefuses(RequirePhaseOneHandoffReady(p), s, facts);
  }

  /** Arming is granted only before any transaction, from a ready Phase 1. */
  lemma ArmGrantMeans(s: State, p: Progress, facts: PhaseFacts)
    requires AuthorizeSafeModeArm(s, p, facts).Ok?
    ensures s.transaction.None? && facts.boot.NormalBoot? && RequirePhaseOneHandoffReady(p).Ok?
  {
    ArmDecisionMeans(RequirePhaseOneHandoffReady(p), s, facts);
  }

  lemma LaterPhaseNeedsAll(request: PhaseRequest, stage: Check, phaseTwo: Check, facts: PhaseFacts, granted: Transition)
    ensures var d := LaterPhase(request, stage, phaseTwo, facts, granted);
            && (d.Ok? <==> facts.boot.NormalBoot? && facts.runtime.VerifiedSelectedExecutable? && stage.Ok? && phaseTwo.Ok?)
            && (d.Ok? ==> d.value == granted)
  {
  }

  lemma PhaseThreeNeedsAll(s: State, p: Progress, facts: PhaseFacts)
    ensures Authorize(PhaseThree, s, p, facts).Ok? <==>
              && facts.boot.NormalBoot? && facts.runtime.VerifiedSelectedExecutable?
              && RequireStage(s, PhaseThreeArmed).Ok? && RequireCompletedPhaseTwo(p, facts.handoff).Ok?
  {
    LaterPhaseNeedsAll(PhaseThree, RequireStage(s, PhaseThreeArmed), RequireCompletedPhaseTwo(p, facts.handoff), facts, RunPhaseThree);
  }

  lemma FinalNeedsAll(s: State, p: Progress, facts: PhaseFacts)
    ensures Authorize(FinalBenchmark, s, p, facts).Ok? <==>
              && facts.boot.NormalBoot? && facts.runtime.VerifiedSelectedExecutable?
              && RequireFinalStage(s).Ok? && RequireCompletedPhaseTwo(p, facts.handoff).Ok?
  {
    LaterPhaseNeedsAll(FinalBenchmark, RequireFinalStage(s), RequireCompletedPhaseTwo(p, facts.handoff), facts, PersistFinal);
  }

  // ---------------------------------------------------------------------
  // Fail closed
  // ---------------------------------------------------------------------

  datatype EvidenceField = RunOnceField | RunField | SafeBootField | SameUserField | FinalBenchmarkField

  function WithEvidence(facts: PhaseFacts, field: EvidenceField, value: Evidence): PhaseFacts {
    match field
    case RunOnceField => facts.(handoff := facts.handoff.(phaseTwoRunOnce := value))
    case RunField => facts.(handoff := facts.handoff.(phaseThreeRun := value))
    case SafeBootField => facts.(handoff := facts.handoff.(safeBoot := value))
    case SameUserField => facts.(handoff := facts.handoff.(phaseThreeSameUser := value))
    case FinalBenchmarkField => facts.(finalBenchmarkPersisted := value)
  }

  lemma OptimizeDecisionFailsClosed(began: bool, facts: PhaseFacts, field: EvidenceField, value: Evidence)
    requires OptimizeDecision(began, WithEvidence(facts, field, Unavailable)).Ok?
    ensures OptimizeDecision(began, WithEvidence(facts, field, value))
              == OptimizeDecision(began, WithEvidence(facts, field, Unavailable))
  {
  }

  lemma OptimizeFailsClosed(p: Progress, facts: PhaseFacts, field: EvidenceField, value: Evidence)
    requires AuthorizeOptimize(p, WithEvidence(facts, field, Unavailable)).Ok?
    ensures AuthorizeOptimize(p, WithEvidence(facts, field, value))
              == AuthorizeOptimize(p, WithEvidence(facts, field, Unavailable))
  {
    OptimizeDecisionFailsClosed(HasPhase(p, Two) || HasPhase(p, Three), facts, field, value);
  }

  lemma ArmDecisionIgnoresEvidence(ready: Check, s: State, facts: PhaseFacts, field: EvidenceField, value: Evidence)
    ensures ArmDecision(ready, s, WithEvidence(facts, field, value)) == ArmDecision(ready, s, facts)
  {
  }

  lemma ArmDecisionUses(ready: Check, s: State, facts: PhaseFacts, facts': PhaseFacts)
    requires facts'.boot == facts.boot && facts'.runtime == facts.runtime
    ensures ArmDecision(ready, s, facts') == ArmDecision(ready, s, facts)
  {
  }

  /** Arming looks at no handoff evidence at all. */
  lemma ArmingUsesBootAndRuntimeOnly(s: State, p: Progress, facts: PhaseFacts, facts': PhaseFacts)
    requires facts'.boot == facts.boot && facts'.runtime == facts.runtime
    ensures AuthorizeSafeModeArm(s, p, facts') == AuthorizeSafeModeArm(s, p, facts)
  {
    ArmDecisionUses(RequirePhaseOneHandoffReady(p), s, facts, facts');
  }

  lemma SafeModeArmFailsClosed(s: State, p: Progress, facts: PhaseFacts, field: EvidenceField, value: Evidence)
    requires AuthorizeSafeModeArm(s, p, WithEvidence(facts, field, Unavailable)).Ok?
    ensures AuthorizeSafeModeArm(s, p, WithEvidence(facts, field, value))
              == AuthorizeSafeModeArm(s, p, WithEvidence(facts, field, Unavailable))
  {
    var ready := RequirePhaseOneHandoffReady(p);
    ArmDecisionIgnoresEvidence(ready, s, facts, field, value);
    ArmDecisionIgnoresEvidence(ready, s, facts, field, Unavailable);
  }

  lemma PhaseTwoGuardFailsClosed(handed: Check, skipped: bool, cleared: bool, later: bool, s: State, facts: PhaseFacts,
        field: EvidenceField, value: Evidence)
    requires PhaseTwoGuard(handed, skipped, cleared, later, s, WithEvidence(facts, field, Unavailable)).Ok?
    ensures PhaseTwoGuard(handed, skipped, cleared, later, s, WithEvidence(facts, field, value))
              == PhaseTwoGuard(handed, skipped, cleared, later, s, WithEvidence(facts, field, Unavailable))
  {
  }

  lemma PhaseTwoFailsClosed(s: State, p: Progress, facts: PhaseFacts, field: EvidenceField, value: Evidence)
    requires AuthorizePhaseTwo(s, p, WithEvidence(facts, field, Unavailable)).Ok?
    ensures AuthorizePhaseTwo(s, p, WithEvidence(facts, field, value))
              == AuthorizePhaseTwo(s, p, WithEvidence(facts, field, Unavailable))
  {
    PhaseTwoGuardFailsClosed(
      RequireCompleted(p, PHASE_ONE_SAFE_MODE_HANDOFF, MissingPhaseOneHandoffCompletion),
      p.IsSkipped(PHASE_TWO_SAFE_BOOT_CLEAR), p.IsCompleted(PHASE_TWO_SAFE_BOOT_CLEAR), HasLaterPhaseTwoStep(p), s, facts,
      field, value);
  }

  lemma LaterPhaseFailsClosed(request: PhaseRequest, stage: Check, completed: Check, facts: PhaseFacts, granted: Transition,
        field: EvidenceField, value: Evidence)
    ensures var was, now := WithEvidence(facts, field, Unavailable), WithEvidence(facts, field, value);
            var d := LaterPhase(request, stage, BehindHandoff(was.handoff, completed), was, granted);
            d.Ok? ==> LaterPhase(request, stage, BehindHandoff(now.handoff, completed), now, granted) == d
  {
  }

  lemma PhaseThreeFailsClosed(s: State, p: Progress, facts: PhaseFacts, field: EvidenceField, value: Evidence)
    requires AuthorizePhaseThree(s, p, WithEvidence(facts, field, Unavailable)).Ok?
    ensures AuthorizePhaseThree(s, p, WithEvidence(facts, field, value))
              == AuthorizePhaseThree(s, p, WithEvidence(facts, field, Unavailable))
  {
    LaterPhaseFailsClosed(PhaseThree, RequireStage(s, PhaseThreeArmed), RequireAllCompleted(p, Two), facts, RunPhaseThree, field, value);
  }

  lemma FinalBenchmarkFailsClosed(s: State, p: Progress, facts: PhaseFacts, field: EvidenceField, value: Evidence)
    requires AuthorizeFinalBenchmark(s, p, WithEvidence(facts, field, Unavailable)).Ok?
    ensures AuthorizeFinalBenchmark(s, p, WithEvidence(facts, field, value))
              == AuthorizeFinalBenchmark(s, p, WithEvidence(facts, field, Unavailable))
  {
    LaterPhaseFailsClosed(FinalBenchmark, RequireFinalStage(s), RequireAllCompleted(p, Two), facts, PersistFinal, field, value);
  }

  lemma ClearDecisionFailsClosed(stage: Check, installed: Check, benchmarked: Check, facts: PhaseFacts, field: EvidenceField,
                                 value: Evidence)
    requires ClearDecision(stage, installed, benchmarked, WithEvidence(facts, field, Unavailable)).Ok?
    ensures ClearDecision(stage, installed, benchmarked, WithEvidence(facts, field, value))
              == ClearDecision(stage, installed, benchmarked, WithEvidence(facts, field, Unavailable))
  {
  }

  lemma HandoffClearFailsClosed(s: State, p: Progress, facts: PhaseFacts, field: EvidenceField, value: Evidence)
    requires AuthorizeHandoffClear(s, p, WithEvidence(facts, field, Unavailable)).Ok?
    ensures AuthorizeHandoffClear(s, p, WithEvidence(facts, field, value))
              == AuthorizeHandoffClear(s, p, WithEvidence(facts, field, Unavailable))
  {
    ClearDecisionFailsClosed(RequireStage(s, PhaseThreeComplete),
                             RequireCompleted(p, PHASE_THREE_DRIVER_INSTALL, PhaseThreeHandoffMustRemain),
                             RequireCompleted(p, PHASE_THREE_FINAL_BENCHMARK, PhaseThreeHandoffMustRemain), facts, field, value);
  }

  /**
   * Unavailable evidence is never success: a request granted while a field could
   * not be inspected is granted in the same way whatever that field holds.
   */
  lemma UnavailableEvidenceIsNeverUsed(request: PhaseRequest, s: State, p: Progress, facts: PhaseFacts,
                                       field: EvidenceField, value: Evidence)
    requires Authorize(request, s, p, WithEvidence(facts, field, Unavailable)).Ok?
    ensures Authorize(request, s, p, WithEvidence(facts, field, value))
              == Authorize(request, s, p, WithEvidence(facts, field, Unavailable))
  {
    match request
    case Optimize => OptimizeFailsClosed(p, facts, field, value);
    case ArmSafeMode => SafeModeArmFailsClosed(s, p, facts, field, value);
    case PhaseTwo => PhaseTwoFailsClosed(s, p, facts, field, value);
    case PhaseThree => PhaseThreeFailsClosed(s, p, facts, field, value);
    case FinalBenchmark => FinalBenchmarkFailsClosed(s, p, facts, field, value);
    case ClearPhaseThreeHandoff => HandoffClearFailsClosed(s, p, facts, field, value);
  }

  lemma PhaseTwoGuardNeedsRuntime(handed: Check, skipped: bool, cleared: bool, later: bool, s: State, facts: PhaseFacts)
    requires PhaseTwoGuard(handed, skipped, cleared, later, s, facts).Ok?
    ensures facts.runtime.VerifiedSelectedExecutable?
  {
  }

  /** The requests that change the machine need the verified runtime; optimize and the handoff clear ignore it. */
  lemma RuntimeIsRequired(request: PhaseRequest, s: State, p: Progress, facts: PhaseFacts)
    requires Authorize(request, s, p, facts).Ok?
    ensures request.Optimize? || request.ClearPhaseThreeHandoff? || facts.runtime.VerifiedSelectedExecutable?
    ensures request.Optimize? || request.ClearPhaseThreeHandoff? ==>
              Authorize(request, s, p, facts.(runtime := RuntimeUnavailable)) == Authorize(request, s, p, facts)
  {
    match request
    case Optimize =>
    case ArmSafeMode => ArmDecisionMeans(RequirePhaseOneHandoffReady(p), s, facts);
    case PhaseTwo =>
      PhaseTwoGuardNeedsRuntime(
        RequireCompleted(p, PHASE_ONE_SAFE_MODE_HANDOFF, MissingPhaseOneHandoffCompletion),
        p.IsSkipped(PHASE_TWO_SAFE_BOOT_CLEAR), p.IsCompleted(PHASE_TWO_SAFE_BOOT_CLEAR), HasLaterPhaseTwoStep(p), s, facts);
    case PhaseThree => PhaseThreeNeedsAll(s, p, facts);
    case FinalBenchmark => FinalNeedsAll(s, p, facts);
    case ClearPhaseThreeHandoff =>
  }

  // ---------------------------------------------------------------------
  // Recovery
  // ---------------------------------------------------------------------

  datatype FailurePoint =
    | BeforeMutation | SafeModeHandoffArmed | PhaseTwoSafeBootClear
    | PhaseTwoDriverWork | PhaseThreeDriverWork | FinalBenchmarkPersistence

  datatype Compensation =
    | NoneClaimed
    | RestoreSafeBootFromCapturedBackup
    | RestoreCapturedPhaseBackups
    | RetainPhaseTwoHandoffForRecovery
    | RetainPhaseThreeHandoffUntilCompletion

  datatype RecoveryPlan = RecoveryPlan(retainHandoff: bool, compensations: seq<Compensation>)

  function Compensations(request: PhaseRequest, failure: FailurePoint): seq<Compensation> {
    match (request, failure)
    case (ArmSafeMode, SafeModeHandoffArmed) => [RestoreSafeBootFromCapturedBackup, RetainPhaseTwoHandoffForRecovery]
    case (PhaseTwo, PhaseTwoSafeBootClear) => [RestoreSafeBootFromCapturedBackup, RetainPhaseTwoHandoffForRecovery]
    case (PhaseTwo, PhaseTwoDriverWork) => [RestoreCapturedPhaseBackups, RetainPhaseTwoHandoffForRecovery]
    case (PhaseThree, PhaseThreeDriverWork) => [RestoreCapturedPhaseBackups, RetainPhaseThreeHandoffUntilCompletion]
    case (PhaseThree, FinalBenchmarkPersistence) => [RestoreCapturedPhaseBackups, RetainPhaseThreeHandoffUntilCompletion]
    case (FinalBenchmark, FinalBenchmarkPersistence) => [RestoreCapturedPhaseBackups, RetainPhaseThreeHandoffUntilCompletion]
    case _ => [NoneClaimed]
  }

  function RecoveryFor(request: PhaseRequest, failure: FailurePoint): RecoveryPlan {
    var compensations := Compensations(request, failure);
    RecoveryPlan(
      exists c <- compensations :: c.RetainPhaseTwoHandoffForRecovery? || c.RetainPhaseThreeHandoffUntilCompletion?,
      compensations)
  }

  /** A failure after a mutation that can belong to the request retains its handoff; nothing else does. */
  lemma HandoffIsRetainedAfterMutation(request: PhaseRequest, failure: FailurePoint)
    ensures RecoveryFor(request, failure).retainHandoff <==> RecoveryFor(request, failure).compensations != [NoneClaimed]
    ensures failure.BeforeMutation? ==> !RecoveryFor(request, failure).retainHandoff
    ensures request.ClearPhaseThreeHandoff? || request.Optimize? ==> !RecoveryFor(request, failure).retainHandoff
  {
    var c := Compensations(request, failure);
    assert c == [NoneClaimed] || (|c| == 2 && (c[1].RetainPhaseTwoHandoffForRecovery? || c[1].RetainPhaseThreeHandoffUntilCompletion?));
    assert |c| == 2 ==> c[1] in c;
  }
}
