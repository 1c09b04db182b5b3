/** Legacy-session migration, and the native evidence both it and the guards are given. */
module Migration {
  import opened Wrappers
  import opened Catalog
  import opened ProgressModel
  import opened StateModel
  import opened Orchestration

  // ---------------------------------------------------------------------
  // Native evidence
  // ---------------------------------------------------------------------

  datatype SafebootEvidence = SafebootConfigured(value: string) | SafebootAbsent | SafebootUnavailable

  datatype BootModeEvidence = NormalMode | SafeMode | ModeUnavailable

  datatype NativeEvidence = NativeEvidence(
    bootMode: BootModeEvidence,
    safeboot: SafebootEvidence,
    phaseTwoRunOnce: Evidence,
    phaseThreeRun: Evidence,
    sameUser: Evidence,
    selectedRuntime: Evidence)

  function HandoffOf(native: NativeEvidence): HandoffEvidence {
    HandoffEvidence(native.phaseTwoRunOnce, native.phaseThreeRun,
                    match native.safeboot
                    case SafebootConfigured(_) => Verified
                    case SafebootAbsent => Absent
                    case SafebootUnavailable => Unavailable,
                    native.sameUser)
  }

  datatype LiveError = BootModeUnknown | BootModeDisagrees | RefusedBy(guard: GuardError)

  function FactsOf(boot: BootEnvironment, s: State, native: NativeEvidence, claimsRuntime: bool,
                   finalBenchmark: Evidence): PhaseFacts
  {
    PhaseFacts(boot,
               if claimsRuntime && native.selectedRuntime.Verified? then VerifiedSelectedExecutable else RuntimeUnavailable,
               HandoffOf(native), s.phase1SafeModeReady, finalBenchmark)
  }

  /** A guard decision counts only in the boot mode the command expects. */
  function Live(decision: Decision, expected: BootEnvironment, native: NativeEvidence): Result<Transition, LiveError> {
    if native.bootMode.ModeUnavailable? then Err(BootModeUnknown)
    else if (if native.bootMode.NormalMode? then NormalBoot else SafeModeBoot) != expected then Err(BootModeDisagrees)
    else if decision.Ok? then Ok(decision.value)
    else Err(RefusedBy(decision.error))
  }

  /** What a command asks before it acts: the guard over freshly inspected native evidence. */
  function AuthorizeLive(request: PhaseRequest, s: State, p: Progress, expected: BootEnvironment,
                         native: NativeEvidence,
                         claimsRuntime: bool, finalBenchmark: Evidence): Result<Transition, LiveError>
  {
    Live(Authorize(request, s, p, FactsOf(expected, s, native, claimsRuntime, finalBenchmark)), expected, native)
  }

  /** In the expected boot mode the live outcome is the guard's. */
  lemma LiveIsTheDecision(d: Decision, boot: BootEnvironment, native: NativeEvidence)
    requires native.bootMode == (if boot.NormalBoot? then NormalMode else SafeMode)
    ensures Live(d, boot, native).Ok? <==> d.Ok?
  {
  }

  lemma RefusalIsLive(d: Decision, boot: BootEnvironment, native: NativeEvidence)
    requires d.Err?
    ensures Live(d, boot, native).Err?
  {
  }

  // ---------------------------------------------------------------------
  // Migration
  // ---------------------------------------------------------------------

  datatype LegacyHandoff = PhaseTwoArmed | PhaseThreeHandoffArmed | SafeBootArmed | IncompleteRuntime

  datatype MigrationInventory = MigrationInventory(
    phaseTwoRunOnceArmed: bool,
    phaseThreeRunArmed: bool,
    safeBootArmed: bool,
    incompleteRuntime: bool)

  datatype MigrationDecision =
    | NotNeeded
    | ConfirmIdle
    | ConfirmPartialPhaseOne(completed: nat, skipped: nat)
    | Refuse(handoff: LegacyHandoff)

  function ArmedHandoff(inventory: MigrationInventory): Option<LegacyHandoff> {
    if inventory.phaseTwoRunOnceArmed then Some(PhaseTwoArmed)
    else if inventory.phaseThreeRunArmed then Some(PhaseThreeHandoffArmed)
    else if inventory.safeBootArmed then Some(SafeBootArmed)
    else if inventory.incompleteRuntime then Some(IncompleteRuntime)
    else None
  }

  predicate HasResolvedLaterPhase(p: Progress) {
    ResolvedCount(p, Rows(Two)) > 0 || ResolvedCount(p, Rows(Three)) > 0
  }

  predicate HasArmedState(s: State) {
    s.phase1SafeModeReady || s.transaction.Some? || s.malformedTransaction
  }

  function ResolvedCount(p: Progress, rows: seq<Step>): nat {
    if rows == [] then 0
    else (if p.IsCompleted(rows[0].id) || p.IsSkipped(rows[0].id) then 1 else 0) + ResolvedCount(p, rows[1..])
  }

  function CompletedCount(p: Progress, rows: seq<Step>): nat {
    if rows == [] then 0 else (if p.IsCompleted(rows[0].id) then 1 else 0) + CompletedCount(p, rows[1..])
  }

  function SkippedCount(p: Progress, rows: seq<Step>): nat {
    if rows == [] then 0 else (if p.IsSkipped(rows[0].id) then 1 else 0) + SkippedCount(p, rows[1..])
  }

  function ConfirmationFor(p: Progress, phase: Phase): MigrationDecision {
    var completed, skipped := CompletedCount(p, Rows(phase)), SkippedCount(p, Rows(phase));
    if completed + skipped == 0 then ConfirmIdle else ConfirmPartialPhaseOne(completed, skipped)
  }

  function AssessInventory(s: Option<State>, p: Option<Progress>, inventory: MigrationInventory): MigrationDecision {
    var armed := ArmedHandoff(inventory);
    if armed.Some? then Refuse(armed.value)
    else if s.None? && p.None? then NotNeeded
    else if (p.Some? && HasResolvedLaterPhase(p.value)) || (s.Some? && HasArmedState(s.value)) then Refuse(IncompleteRuntime)
    else if p.None? then ConfirmIdle
    else
      ConfirmationFor(p.value, One)
  }

  function InventoryOf(native: NativeEvidence, incompleteRuntime: bool): MigrationInventory {
    MigrationInventory(
      native.phaseTwoRunOnce.Verified?,
      native.phaseThreeRun.Verified?,
      native.safeboot.SafebootConfigured?,
      incompleteRuntime || native.phaseTwoRunOnce.Unavailable? || native.phaseThreeRun.Unavailable?
        || native.safeboot.SafebootUnavailable?)
  }

  lemma {:induction false} NothingResolvedMeansNone(p: Progress, rows: seq<Step>)
    ensures ResolvedCount(p, rows) == 0 <==> forall step <- rows :: !p.IsCompleted(step.id) && !p.IsSkipped(step.id)
  {
    if rows != [] {
      NothingResolvedMeansNone(p, rows[1..]);
      assert forall step :: step in rows <==> step == rows[0] || step in rows[1..];
    }
  }

  lemma LaterPhaseIsNoPhase(p: Progress)
    ensures HasResolvedLaterPhase(p) <==> HasPhase(p, Two) || HasPhase(p, Three)
  {
    NothingResolvedMeansNone(p, Rows(Two));
    NothingResolvedMeansNone(p, Rows(Three));
  }

  lemma CleanInventory(native: NativeEvidence, incompleteRuntime: bool)
    requires ArmedHandoff(InventoryOf(native, incompleteRuntime)).None?
    ensures !incompleteRuntime
    ensures RequireCleanRebootState(HandoffOf(native)).Ok?
    ensures native.phaseTwoRunOnce.Absent? && native.phaseThreeRun.Absent? && native.safeboot.SafebootAbsent?
  {
  }

  /**
   * The two guards of `optimize` agree: over a loaded session, the live guard of
   * Phase 1 grants in normal boot whenever migration does not refuse, and what
   * migration refuses beyond it is exactly an incomplete runtime or armed state.
   */
  lemma MigrationAgreesWithOptimize(s: State, p: Progress, native: NativeEvidence, incompleteRuntime: bool,
                                    claimsRuntime: bool, finalBenchmark: Evidence)
    requires native.bootMode.NormalMode?
    ensures !AssessInventory(Some(s), Some(p), InventoryOf(native, incompleteRuntime)).Refuse? <==>
              && AuthorizeLive(Optimize, s, p, NormalBoot, native, claimsRuntime, finalBenchmark) == Ok(RunPhaseOne)
              && !incompleteRuntime && !HasArmedState(s)
  {
    LaterPhaseIsNoPhase(p);
    LiveOptimizeGrant(s, p, native, claimsRuntime, finalBenchmark);
    RefusalMeans(s, p, InventoryOf(native, incompleteRuntime));
    if ArmedHandoff(InventoryOf(native, incompleteRuntime)).None? {
      CleanInventory(native, incompleteRuntime);
    } else {
      ArmedInventoryIsNotClean(native, incompleteRuntime);
    }
  }

  lemma LiveGrant(d: Decision, boot: BootEnvironment, native: NativeEvidence, t: Transition)
    requires native.bootMode == (if boot.NormalBoot? then NormalMode else SafeMode)
    ensures Live(d, boot, native) == Ok(t) <==> d == Ok(t)
  {
  }

  lemma LiveOptimizeGrant(s: State, p: Progress, native: NativeEvidence, claimsRuntime: bool, finalBenchmark: Evidence)
    requires native.bootMode.NormalMode?
    ensures AuthorizeLive(Optimize, s, p, NormalBoot, native, claimsRuntime, finalBenchmark) == Ok(RunPhaseOne) <==>
              RequireCleanRebootState(HandoffOf(native)).Ok? && !HasPhase(p, Two) && !HasPhase(p, Three)
  {
    var facts := FactsOf(NormalBoot, s, native, claimsRuntime, finalBenchmark);
    OptimizeGrant(p, facts);
    LiveGrant(Authorize(Optimize, s, p, facts), NormalBoot, native, RunPhaseOne);
  }

  lemma RefusalMeans(s: State, p: Progress, inventory: MigrationInventory)
    ensures AssessInventory(Some(s), Some(p), inventory).Refuse? <==>
              ArmedHandoff(inventory).Some? || HasResolvedLaterPhase(p) || HasArmedState(s)
  {
    ConfirmationIsNoRefusal(p, One);
  }

  lemma ConfirmationIsNoRefusal(p: Progress, phase: Phase)
    ensures !ConfirmationFor(p, phase).Refuse?
  {
  }

  lemma ArmedInventoryIsNotClean(native: NativeEvidence, incompleteRuntime: bool)
    requires ArmedHandoff(InventoryOf(native, incompleteRuntime)).Some?
    ensures incompleteRuntime || RequireCleanRebootState(HandoffOf(native)).Err?
  {
  }

  lemma OptimizeGrant(p: Progress, facts: PhaseFacts)
    ensures AuthorizeOptimize(p, facts) == Ok(RunPhaseOne) <==>
              facts.boot.NormalBoot? && RequireCleanRebootState(facts.handoff).Ok? && !HasPhase(p, Two) && !HasPhase(p, Three)
  {
  }
}
