/**
 * The reboot-spanning protocol as a system of steps: each command is its guard
 * followed by single durable writes, a crash may fall between any two of them,
 * and the machine may reboot at any time.
 */
module RebootProtocol {
  import opened Wrappers
  import opened Catalog
  import opened ProgressModel
  import opened Handoff
  import opened Fps
  import opened StateModel
  import opened Benchmark
  import opened LegacyRetry
  import opened Reconciliation
  import opened Orchestration
  import opened Migration

  /** What survives a crash: boot configuration, autostart entries and the three files. */
  datatype Machine = Machine(
    boot: BootEnvironment,
    safeBoot: bool,
    runOnce: bool,
    run: bool,
    state: State,
    progress: Progress,
    history: seq<BenchmarkRecord>)
  {
    function OnDisk(): Disk {
      Disk(state, progress, history)
    }
  }

  /** Inspection may fail, but what it reports is so. */
  predicate Reports(evidence: Evidence, present: bool) {
    evidence.Unavailable? || (evidence.Verified? <==> present)
  }

  predicate Truthful(native: NativeEvidence, m: Machine) {
    && (native.bootMode.ModeUnavailable? || (native.bootMode.SafeMode? <==> m.boot.SafeModeBoot?))
    && Reports(HandoffOf(native).safeBoot, m.safeBoot)
    && Reports(native.phaseTwoRunOnce, m.runOnce)
    && Reports(native.phaseThreeRun, m.run)
  }

  /** Who runs a command, from which selected runtime. */
  datatype Session = Session(sid: UserSid, runtime: RuntimeRecord)

  /** What an engine run recorded: fresh steps of one phase, each resolved once. */
  type Work = seq<(StepId, Resolution)>

  predicate WorkFits(p: Progress, work: Work, phase: Phase)
    decreases |work|
  {
    work != [] ==>
      && work[0].0.phase == phase && RoleOf(work[0].0).EngineStep?
      && !p.Recorded(ProgressKey(work[0].0))
      && WorkFits(Resolve(p, work[0].0, work[0].1), work[1..], phase)
  }

  function Worked(p: Progress, work: Work): Progress
    decreases |work|
  {
    if work == [] then p else Worked(Resolve(p, work[0].0, work[0].1), work[1..])
  }

  datatype Event =
    | PhaseOneRun(native: NativeEvidence, work: Work)
    | Arm(native: NativeEvidence, session: Session, id: string, now: string, writes: nat)
    | ArmFailed(native: NativeEvidence, leavesRunOnce: bool, leavesSafeBoot: bool)
    | ClearSafeBoot(native: NativeEvidence, session: Session, now: string, writes: nat)
    | CleanDrivers(native: NativeEvidence, work: Work)
    | ArmPhaseThree(native: NativeEvidence, session: Session, removalComplete: bool, now: string, writes: nat)
    | PhaseThreeRun(native: NativeEvidence, work: Work)
    | CaptureFinal(native: NativeEvidence, config: Config, input: Input, writes: nat)
    | ClearRun(native: NativeEvidence, session: Session)
    | Reboot
    | RunOnceConsumed

  predicate Granted(m: Machine, request: PhaseRequest, boot: BootEnvironment, native: NativeEvidence,
                    transition: Transition)
  {
    && Truthful(native, m)
    && AuthorizeLive(request, m.state, m.progress, boot, native, true,
                     if request.ClearPhaseThreeHandoff? then Verified else Absent) == Ok(transition)
  }

  // ---------------------------------------------------------------------
  // The commands, as the first n of their writes
  // ---------------------------------------------------------------------

  /** The native re-check every later command makes under the lock. */
  predicate IsOurs(s: State, session: Session, stage: RebootStage) {
    && s.transaction.Some?
    && s.transaction.value.IsAuthorizedAt(stage)
    && s.transaction.value.runtime == Some(session.runtime)
  }

  predicate IsSameUser(s: State, session: Session) {
    s.transaction.Some? && s.transaction.value.initiator == Some(session.sid)
  }

  function NewTransaction(session: Session, id: string, now: string): RebootTransaction {
    RebootTransaction(REBOOT_TRANSACTION_SCHEMA_VERSION, Some(id), Some(session.sid), PhaseOneSafeModeArmed,
                      Some(session.runtime), Some(now))
  }

  /** P1:38: RunOnce entry, safe boot, state, progress. */
  function AfterArm(m: Machine, t: RebootTransaction, now: string, n: nat): Machine {
    m.(runOnce := m.runOnce || n >= 1,
       safeBoot := m.safeBoot || n >= 2,
       state := if n >= 3 then m.state.(phase1SafeModeReady := true, transaction := Some(t)) else m.state,
       progress := if n >= 4 then Completing(m.progress, PHASE_ONE_SAFE_MODE_HANDOFF, now) else m.progress)
  }

  function AtStage(s: State, stage: RebootStage): State
    requires s.transaction.Some?
  {
    s.(transaction := Some(s.transaction.value.(stage := stage)))
  }

  /** P2:1: safe boot cleared, state, progress. */
  function AfterClear(m: Machine, now: string, n: nat): Machine
    requires m.state.transaction.Some?
  {
    m.(safeBoot := m.safeBoot && n < 1,
       state := if n >= 2 then AtStage(m.state, PhaseTwoSafeMode) else m.state,
       progress := if n >= 3 then Completing(m.progress, PHASE_TWO_SAFE_BOOT_CLEAR, now) else m.progress)
  }

  /** P2:3: Run entry, state, progress. */
  function AfterArmThree(m: Machine, now: string, n: nat): Machine
    requires m.state.transaction.Some?
  {
    m.(run := m.run || n >= 1,
       state := if n >= 2 then AtStage(m.state, PhaseThreeArmed) else m.state,
       progress := if n >= 3 then Completing(m.progress, PHASE_TWO_PHASE_THREE_HANDOFF, now) else m.progress)
  }

  function AfterFinal(m: Machine, commit: FinalBenchmarkCommit, n: nat): Machine {
    var disk := AfterWrites(m.OnDisk(), commit, n);
    m.(state := disk.state, progress := disk.progress, history := disk.history)
  }

  function After(m: Machine, e: Event): Option<Machine> {
    match e
    case PhaseOneRun(native, work) =>
      if Granted(m, Optimize, NormalBoot, native, RunPhaseOne) && WorkFits(m.progress, work, One)
      then Some(m.(progress := Worked(m.progress, work))) else None
    case Arm(native, session, id, now, writes) =>
      var t := NewTransaction(session, id, now);
      if Granted(m, ArmSafeMode, NormalBoot, native, ArmSafeModeTransition(true)) && t.IsAuthorizedAt(PhaseOneSafeModeArmed)
      then Some(AfterArm(m, t, now, writes)) else None
    case ArmFailed(native, leavesRunOnce, leavesSafeBoot) =>
      if Granted(m, ArmSafeMode, NormalBoot, native, ArmSafeModeTransition(true))
      then Some(m.(runOnce := m.runOnce || leavesRunOnce, safeBoot := m.safeBoot || leavesSafeBoot)) else None
    case ClearSafeBoot(native, session, now, writes) =>
      if Granted(m, PhaseTwo, SafeModeBoot, native, RunPhaseTwoStepOne)
         && IsOurs(m.state, session, PhaseOneSafeModeArmed) && m.runOnce
      then Some(AfterClear(m, now, writes)) else None
    case CleanDrivers(native, work) =>
      if Granted(m, PhaseTwo, SafeModeBoot, native, RunRemainingPhaseTwo) && WorkFits(m.progress, work, Two)
         && (forall w <- work :: w.0 == PHASE_TWO_DRIVER_CLEANUP)
      then Some(m.(progress := Worked(m.progress, work))) else None
    case ArmPhaseThree(native, session, removalComplete, now, writes) =>
      if Granted(m, PhaseTwo, SafeModeBoot, native, RunRemainingPhaseTwo)
         && m.progress.IsCompleted(PHASE_TWO_DRIVER_CLEANUP) && removalComplete
         && IsOurs(m.state, session, PhaseTwoSafeMode) && IsSameUser(m.state, session)
      then Some(AfterArmThree(m, now, writes)) else None
    case PhaseThreeRun(native, work) =>
      if Granted(m, PhaseThree, NormalBoot, native, RunPhaseThree) && WorkFits(m.progress, work, Three)
      then Some(m.(progress := Worked(m.progress, work))) else None
    case CaptureFinal(native, config, input, writes) =>
      if Granted(m, FinalBenchmark, NormalBoot, native, PersistFinal) then
        var r := Reconcile(config, m.OnDisk(), input);
        if r.Err? then None
        else if r.value.Complete? then Some(m)
        else Some(AfterFinal(m, r.value.commit, writes))
      else None
    case ClearRun(native, session) =>
      if Granted(m, ClearPhaseThreeHandoff, NormalBoot, native, ClearHandoff)
         && m.progress.IsCompleted(PHASE_THREE_FINAL_BENCHMARK)
         && ValidatePersistedFinalBenchmark(m.state, m.progress, m.history).Ok?
         && IsOurs(m.state, session, PhaseThreeComplete) && IsSameUser(m.state, session) && m.run
      then Some(m.(run := false)) else None
    case Reboot => Some(m.(boot := if m.safeBoot then SafeModeBoot else NormalBoot))
    case RunOnceConsumed => Some(m.(runOnce := false))
  }

  /** A run from a machine: each event is granted where it happens. */
  predicate IsRun(m: Machine, events: seq<Event>)
    decreases |events|
  {
    events != [] ==> After(m, events[0]).Some? && IsRun(After(m, events[0]).value, events[1..])
  }

  function Final(m: Machine, events: seq<Event>): Machine
    requires IsRun(m, events)
    decreases |events|
  {
    if events == [] then m else Final(After(m, events[0]).value, events[1..])
  }

  // ---------------------------------------------------------------------
  // The invariant
  // ---------------------------------------------------------------------

  /** The protocol's own steps, as recorded complete. */
  datatype Milestones = Milestones(armed: bool, cleared: bool, cleaned: bool, handed: bool, installed: bool, benchmarked: bool)

  function Reached(p: Progress): Milestones {
    Milestones(p.IsCompleted(PHASE_ONE_SAFE_MODE_HANDOFF),
               p.IsCompleted(PHASE_TWO_SAFE_BOOT_CLEAR),
               p.IsCompleted(PHASE_TWO_DRIVER_CLEANUP),
               p.IsCompleted(PHASE_TWO_PHASE_THREE_HANDOFF),
               p.IsCompleted(PHASE_THREE_DRIVER_INSTALL),
               p.IsCompleted(PHASE_THREE_FINAL_BENCHMARK))
  }

  /** 0 before a transaction exists, then the position of its stage. */
  function Rank(s: State): nat {
    if s.transaction.None? then 0 else StageRank(s.transaction.value.stage)
  }

  predicate IsSafeAt(k: Milestones, rank: nat, safeBoot: bool, run: bool, hasReceipt: bool) {
    && rank <= 4
    && (k.armed ==> rank >= 1)
    && (k.cleared ==> rank >= 2)
    && (k.cleaned ==> k.cleared)
    && (k.handed ==> rank >= 3 && k.cleaned)
    && (k.installed ==> k.handed)
    && (k.benchmarked ==> rank == 4)
    && (rank >= 2 ==> !safeBoot && k.armed)
    && (rank >= 3 ==> k.cleaned)
    && (rank == 4 ==> k.handed && k.installed)
    && (hasReceipt <==> rank == 4)
    && (run ==> k.cleaned)
    && (rank >= 3 && !run ==> k.benchmarked)
  }

  predicate IsSafe(m: Machine) {
    && m.progress.Disjoint()
    && (m.state.transaction.Some? ==> m.state.transaction.value.IsBound() && Rank(m.state) >= 1 && m.state.phase1SafeModeReady)
    && IsSafeAt(Reached(m.progress), Rank(m.state), m.safeBoot, m.run, m.state.finalBenchmark.Some?)
  }

  /** A machine no protocol command has touched yet. */
  predicate IsFresh(m: Machine) {
    && m.progress.Disjoint()
    && m.state.transaction.None? && m.state.finalBenchmark.None?
    && Reached(m.progress) == Milestones(false, false, false, false, false, false)
    && !m.run
  }

  lemma FreshIsSafe(m: Machine)
    requires IsFresh(m)
    ensures IsSafe(m)
  {
  }

  // ---------------------------------------------------------------------
  // Progress under the events
  // ---------------------------------------------------------------------

  lemma CompletingReaches(p: Progress, id: StepId, now: string)
    ensures var k, q := Reached(p), Completing(p, id, now);
            && Reached(q) == Milestones(
                 k.armed || id == PHASE_ONE_SAFE_MODE_HANDOFF,
                 k.cleared || id == PHASE_TWO_SAFE_BOOT_CLEAR,
                 k.cleaned || id == PHASE_TWO_DRIVER_CLEANUP,
                 k.handed || id == PHASE_TWO_PHASE_THREE_HANDOFF,
                 k.installed || id == PHASE_THREE_DRIVER_INSTALL,
                 k.benchmarked || id == PHASE_THREE_FINAL_BENCHMARK)
            && (p.Disjoint() ==> q.Disjoint())
  {
    ProgressKeyInjective(id, PHASE_ONE_SAFE_MODE_HANDOFF);
    ProgressKeyInjective(id, PHASE_TWO_SAFE_BOOT_CLEAR);
    ProgressKeyInjective(id, PHASE_TWO_DRIVER_CLEANUP);
    ProgressKeyInjective(id, PHASE_TWO_PHASE_THREE_HANDOFF);
    ProgressKeyInjective(id, PHASE_THREE_DRIVER_INSTALL);
    ProgressKeyInjective(id, PHASE_THREE_FINAL_BENCHMARK);
  }

  lemma ResolutionCompletes(p: Progress, id: StepId, how: Resolution, other: StepId)
    requires !p.Recorded(ProgressKey(id))
    ensures p.IsCompleted(other) ==> Resolve(p, id, how).IsCompleted(other)
    ensures Resolve(p, id, how).IsCompleted(other) ==> p.IsCompleted(other) || other == id
  {
    ProgressKeyInjective(id, other);
    ResolutionIsExclusive(p, id, how);
  }

  /** Engine work completes steps of its own phase and kind, and undoes none. */
  lemma {:induction false} WorkOnlyAdds(p: Progress, work: Work, phase: Phase, other: StepId)
    requires WorkFits(p, work, phase)
    ensures p.IsCompleted(other) ==> Worked(p, work).IsCompleted(other)
    ensures Worked(p, work).IsCompleted(other) && !p.IsCompleted(other) ==>
              other.phase == phase && RoleOf(other).EngineStep? && exists w <- work :: w.0 == other
    ensures p.Disjoint() ==> Worked(p, work).Disjoint()
    decreases |work|
  {
    if work != [] {
      var (id, how) := work[0];
      ResolutionCompletes(p, id, how, other);
      ResolutionIsExclusive(p, id, how);
      WorkOnlyAdds(Resolve(p, id, how), work[1..], phase, other);
    }
  }

  lemma WorkReaches(p: Progress, work: Work, phase: Phase)
    requires WorkFits(p, work, phase)
    ensures var k, q := Reached(p), Worked(p, work);
            && Reached(q).armed == k.armed && Reached(q).cleared == k.cleared
            && Reached(q).handed == k.handed && Reached(q).benchmarked == k.benchmarked
            && (k.cleaned ==> Reached(q).cleaned) && (Reached(q).cleaned ==> k.cleaned || phase.Two?)
            && (k.installed ==> Reached(q).installed) && (Reached(q).installed ==> k.installed || phase.Three?)
            && (p.Disjoint() ==> q.Disjoint())
  {
    WorkOnlyAdds(p, work, phase, PHASE_ONE_SAFE_MODE_HANDOFF);
    WorkOnlyAdds(p, work, phase, PHASE_TWO_SAFE_BOOT_CLEAR);
    WorkOnlyAdds(p, work, phase, PHASE_TWO_DRIVER_CLEANUP);
    WorkOnlyAdds(p, work, phase, PHASE_TWO_PHASE_THREE_HANDOFF);
    WorkOnlyAdds(p, work, phase, PHASE_THREE_DRIVER_INSTALL);
    WorkOnlyAdds(p, work, phase, PHASE_THREE_FINAL_BENCHMARK);
  }

  // ---------------------------------------------------------------------
  // What a grant means on the real machine
  // ---------------------------------------------------------------------

  lemma ArmGrantOnMachine(m: Machine, native: NativeEvidence)
    requires Granted(m, ArmSafeMode, NormalBoot, native, ArmSafeModeTransition(true))
    ensures m.state.transaction.None?
  {
    if m.state.transaction.Some? {
      var facts := FactsOf(NormalBoot, m.state, native, true, Absent);
      ArmRefusedWithTransaction(m.state, m.progress, facts);
      RefusalIsLive(Authorize(ArmSafeMode, m.state, m.progress, facts), NormalBoot, native);
    }
  }

  /** P2:1 runs only in Safe Mode with safe boot set, from the armed stage. */
  lemma StepOneGrantMeans(m: Machine, native: NativeEvidence)
    requires Granted(m, PhaseTwo, SafeModeBoot, native, RunPhaseTwoStepOne)
    ensures m.boot.SafeModeBoot? && m.safeBoot && m.runOnce
    ensures Reached(m.progress).armed && !Reached(m.progress).cleared && Rank(m.state) == 1
  {
  }

  /** The rest of Phase 2 runs only in Safe Mode with safe boot gone, from the Safe Mode stage. */
  lemma RemainingGrantMeans(m: Machine, native: NativeEvidence)
    requires Granted(m, PhaseTwo, SafeModeBoot, native, RunRemainingPhaseTwo)
    ensures m.boot.SafeModeBoot? && !m.safeBoot && m.runOnce
    ensures m.state.transaction.Some? && m.state.transaction.value.IsAuthorizedAt(PhaseTwoSafeMode)
    ensures Reached(m.progress).armed && Reached(m.progress).cleared
  {
  }

  lemma PhaseTwoRowsAreThree(p: Progress)
    ensures RequireAllCompleted(p, Two).Ok? <==> Reached(p).cleared && Reached(p).cleaned && Reached(p).handed
  {
    var rows := Rows(Two);
    assert rows[0] in rows && rows[1] in rows && rows[2] in rows;
    assert rows[0].id == PHASE_TWO_SAFE_BOOT_CLEAR && rows[1].id == PHASE_TWO_DRIVER_CLEANUP
           && rows[2].id == PHASE_TWO_PHASE_THREE_HANDOFF;
    assert forall step <- rows :: step == rows[0] || step == rows[1] || step == rows[2];
  }

  lemma CompletedPhaseTwoMeans(p: Progress, handoff: HandoffEvidence)
    ensures RequireCompletedPhaseTwo(p, handoff).Ok? <==>
              && handoff.phaseThreeRun.Verified? && handoff.phaseThreeSameUser.Verified?
              && Reached(p).cleared && Reached(p).cleaned && Reached(p).handed
  {
    PhaseTwoRowsAreThree(p);
  }

  /** Phase 3 runs only in normal boot after all three Phase 2 steps are completed, not skipped. */
  lemma PhaseThreeGrantMeans(m: Machine, native: NativeEvidence)
    requires Granted(m, PhaseThree, NormalBoot, native, RunPhaseThree) && m.progress.Disjoint()
    ensures m.boot.NormalBoot? && m.run && Rank(m.state) == 3
    ensures Reached(m.progress).cleared && Reached(m.progress).cleaned && Reached(m.progress).handed
    ensures !m.progress.IsSkipped(PHASE_TWO_SAFE_BOOT_CLEAR) && !m.progress.IsSkipped(PHASE_TWO_DRIVER_CLEANUP)
            && !m.progress.IsSkipped(PHASE_TWO_PHASE_THREE_HANDOFF)
  {
    PhaseThreeNeedsAll(m.state, m.progress, FactsOf(NormalBoot, m.state, native, true, Absent));
    CompletedPhaseTwoMeans(m.progress, HandoffOf(native));
  }

  lemma FinalGrantMeans(m: Machine, native: NativeEvidence)
    requires Granted(m, FinalBenchmark, NormalBoot, native, PersistFinal)
    ensures m.run && 3 <= Rank(m.state) <= 4
    ensures Reached(m.progress).cleared && Reached(m.progress).cleaned && Reached(m.progress).handed
  {
    FinalNeedsAll(m.state, m.progress, FactsOf(NormalBoot, m.state, native, true, Absent));
    CompletedPhaseTwoMeans(m.progress, HandoffOf(native));
  }

  // ---------------------------------------------------------------------
  // The final commit as a protocol step
  // ---------------------------------------------------------------------

  lemma FinalCommitMoves(config: Config, s: State, p: Progress, history: seq<BenchmarkRecord>, request: FinalRequest)
    requires FinalCommit(config, s, p, history, request).Ok?
    ensures var c := FinalCommit(config, s, p, history, request).value;
            && c.state.transaction.Some? && c.state.transaction.value.IsBound()
            && c.state.transaction.value.stage == PhaseThreeComplete
            && c.state.finalBenchmark.Some? && c.state.phase1SafeModeReady == s.phase1SafeModeReady
            && c.progress == Completing(p, PHASE_THREE_FINAL_BENCHMARK, request.capturedUtc)
            && p.IsCompleted(PHASE_THREE_DRIVER_INSTALL)
            && SameTransaction(s, c.state)
  {
  }

  /** What a final commit does to the three files. */
  predicate Moves(p: Progress, s: State, c: FinalBenchmarkCommit) {
    && c.state.transaction.Some? && c.state.transaction.value.IsBound()
    && c.state.transaction.value.stage == PhaseThreeComplete
    && c.state.finalBenchmark.Some? && c.state.phase1SafeModeReady == s.phase1SafeModeReady
    && p.IsCompleted(PHASE_THREE_DRIVER_INSTALL)
    && SameTransaction(s, c.state)
  }

  /** One transaction: its identity, initiator and runtime are fixed once it exists. */
  predicate SameTransaction(s: State, s': State) {
    s.transaction.Some? ==>
      && s'.transaction.Some?
      && s'.transaction.value.transactionId == s.transaction.value.transactionId
      && s'.transaction.value.initiator == s.transaction.value.initiator
      && s'.transaction.value.runtime == s.transaction.value.runtime
  }

  lemma FinalCommitIsMove(config: Config, s: State, p: Progress, history: seq<BenchmarkRecord>, request: FinalRequest)
    requires FinalCommit(config, WithoutReceipt(s), p, history, request).Ok?
    ensures var c := FinalCommit(config, WithoutReceipt(s), p, history, request).value;
            Moves(p, s, c) && c.progress == Completing(p, PHASE_THREE_FINAL_BENCHMARK, request.capturedUtc)
  {
    FinalCommitMoves(config, WithoutReceipt(s), p, history, request);
  }

  lemma LegacyRetryIsMove(config: Config, disk: Disk, capture: BenchmarkCapture) returns (now: string)
    requires LegacyRetryCommit(config, disk.state, disk.progress, disk.history, capture).Ok?
    ensures var c := LegacyRetryCommit(config, disk.state, disk.progress, disk.history, capture).value;
            Moves(disk.progress, disk.state, c) && c.progress == Completing(disk.progress, PHASE_THREE_FINAL_BENCHMARK, now)
  {
    var request := ReusedRequest(disk.state, disk.history, capture);
    now := request.capturedUtc;
    FinalCommitIsMove(config, disk.state, disk.progress, WithoutPrefix(disk.history), request);
  }

  lemma ChosenIsMove(config: Config, disk: Disk, input: Input) returns (now: string)
    requires ChosenCommit(config, disk, input).Ok?
    ensures var c := ChosenCommit(config, disk, input).value;
            Moves(disk.progress, disk.state, c) && c.progress == Completing(disk.progress, PHASE_THREE_FINAL_BENCHMARK, now)
  {
    var request := ChosenRequest(disk, input);
    if request.runEvidence.None? && IsLegacyPrefix(disk) {
      now := LegacyRetryIsMove(config, disk, input.capture);
    } else {
      now := request.capturedUtc;
      FinalCommitIsMove(config, disk.state, disk.progress, WithoutPrefix(disk.history), request);
    }
  }

  lemma PendingMoves(config: Config, disk: Disk, input: Input) returns (now: string)
    requires Reconcile(config, disk, input).Ok? && Reconcile(config, disk, input).value.Pending?
    ensures var c := Reconcile(config, disk, input).value.commit;
            Moves(disk.progress, disk.state, c) && c.progress == Completing(disk.progress, PHASE_THREE_FINAL_BENCHMARK, now)
  {
    now := ChosenIsMove(config, disk, input);
  }

  // ---------------------------------------------------------------------
  // Every event keeps the invariant and never moves the stage back
  // ---------------------------------------------------------------------

  predicate Advances(m: Machine, m': Machine) {
    && Rank(m.state) <= Rank(m'.state)
    && SameTransaction(m.state, m'.state)
    && IsSafe(m')
  }

  lemma WorkAdvances(m: Machine, work: Work, phase: Phase)
    requires IsSafe(m) && WorkFits(m.progress, work, phase)
    requires phase.Two? ==> Reached(m.progress).cleared && Rank(m.state) == 2
    requires phase.Three? ==> Reached(m.progress).handed
    ensures Advances(m, m.(progress := Worked(m.progress, work)))
  {
    WorkReaches(m.progress, work, phase);
  }

  lemma ArmAdvances(m: Machine, t: RebootTransaction, now: string, n: nat)
    requires IsSafe(m) && m.state.transaction.None? && t.IsAuthorizedAt(PhaseOneSafeModeArmed)
    ensures Advances(m, AfterArm(m, t, now, n))
  {
    CompletingReaches(m.progress, PHASE_ONE_SAFE_MODE_HANDOFF, now);
  }

  lemma ClearAdvances(m: Machine, now: string, n: nat)
    requires IsSafe(m) && Rank(m.state) == 1 && Reached(m.progress).armed
    ensures Advances(m, AfterClear(m, now, n))
  {
    CompletingReaches(m.progress, PHASE_TWO_SAFE_BOOT_CLEAR, now);
  }

  lemma ArmThreeAdvances(m: Machine, now: string, n: nat)
    requires IsSafe(m) && Rank(m.state) == 2 && Reached(m.progress).cleaned
    ensures Advances(m, AfterArmThree(m, now, n))
  {
    CompletingReaches(m.progress, PHASE_TWO_PHASE_THREE_HANDOFF, now);
  }

  lemma FinalAdvances(m: Machine, config: Config, input: Input, n: nat)
    requires IsSafe(m) && m.run && Rank(m.state) >= 3 && Reached(m.progress).handed
    requires Reconcile(config, m.OnDisk(), input).Ok? && Reconcile(config, m.OnDisk(), input).value.Pending?
    ensures Advances(m, AfterFinal(m, Reconcile(config, m.OnDisk(), input).value.commit, n))
  {
    var now := PendingMoves(config, m.OnDisk(), input);
    CompletingReaches(m.progress, PHASE_THREE_FINAL_BENCHMARK, now);
  }

  lemma PhaseTwoEventAdvances(m: Machine, e: Event)
    requires IsSafe(m) && After(m, e).Some?
    requires e.ClearSafeBoot? || e.CleanDrivers? || e.ArmPhaseThree?
    ensures Advances(m, After(m, e).value)
  {
    match e
    case ClearSafeBoot(native, session, now, writes) =>
      StepOneGrantMeans(m, native);
      ClearAdvances(m, now, writes);
    case CleanDrivers(native, work) =>
      RemainingGrantMeans(m, native);
      WorkAdvances(m, work, Two);
    case ArmPhaseThree(native, session, removalComplete, now, writes) =>
      RemainingGrantMeans(m, native);
      ArmThreeAdvances(m, now, writes);
  }

  lemma PhaseThreeEventAdvances(m: Machine, e: Event)
    requires IsSafe(m) && After(m, e).Some?
    requires e.PhaseThreeRun? || e.CaptureFinal? || e.ClearRun?
    ensures Advances(m, After(m, e).value)
  {
    match e
    case PhaseThreeRun(native, work) =>
      PhaseThreeGrantMeans(m, native);
      WorkAdvances(m, work, Three);
    case CaptureFinal(native, config, input, writes) =>
      FinalGrantMeans(m, native);
      if Reconcile(config, m.OnDisk(), input).value.Pending? {
        FinalAdvances(m, config, input, writes);
      }
    case ClearRun(native, session) =>
  }

  lemma EventAdvances(m: Machine, e: Event)
    requires IsSafe(m) && After(m, e).Some?
    ensures Advances(m, After(m, e).value)
  {
    match e
    case PhaseOneRun(native, work) =>
      WorkAdvances(m, work, One);
    case Arm(native, session, id, now, writes) =>
      ArmGrantOnMachine(m, native);
      ArmAdvances(m, NewTransaction(session, id, now), now, writes);
    case ArmFailed(native, _, _) =>
      ArmGrantOnMachine(m, native);
    case ClearSafeBoot(_, _, _, _) => PhaseTwoEventAdvances(m, e);
    case CleanDrivers(_, _) => PhaseTwoEventAdvances(m, e);
    case ArmPhaseThree(_, _, _, _, _) => PhaseTwoEventAdvances(m, e);
    case PhaseThreeRun(_, _) => PhaseThreeEventAdvances(m, e);
    case CaptureFinal(_, _, _, _) => PhaseThreeEventAdvances(m, e);
    case ClearRun(_, _) => PhaseThreeEventAdvances(m, e);
    case Reboot =>
    case RunOnceConsumed =>
  }

  // ---------------------------------------------------------------------
  // Over every run
  // ---------------------------------------------------------------------

  /** Whatever is run, crashed and rebooted: the machine stays safe, the transaction stays the same, its stage never moves back. */
  lemma {:induction false} EveryRunIsSafe(m: Machine, events: seq<Event>)
    requires IsSafe(m) && IsRun(m, events)
    ensures Advances(m, Final(m, events))
    decreases |events|
  {
    if events != [] {
      EventAdvances(m, events[0]);
      EveryRunIsSafe(After(m, events[0]).value, events[1..]);
    }
  }

  /** What the invariant says of the autostart entry, of a reboot and of a skipped cleanup. */
  predicate KeepsHandoff(m: Machine) {
    && (Reached(m.progress).handed && !m.run ==>
          && Reached(m.progress).installed && Reached(m.progress).benchmarked
          && m.state.finalBenchmark.Some? && Rank(m.state) == 4)
    && (Rank(m.state) >= 2 ==> After(m, Reboot).value.boot.NormalBoot?)
    && (Reached(m.progress).handed ==> !m.progress.IsSkipped(PHASE_TWO_DRIVER_CLEANUP))
  }

  lemma SafeKeepsHandoff(m: Machine)
    requires IsSafe(m)
    ensures KeepsHandoff(m)
  {
  }

  /**
   * From a fresh machine, over every run: the Phase 3 autostart entry, once P2:3 is
   * recorded, is gone only when P3:1, P3:13 and the receipt are persisted; and once
   * the transaction left its first stage no reboot enters Safe Mode again.
   */
  lemma HandoffOutlivesEveryRun(m: Machine, events: seq<Event>)
    requires IsFresh(m) && IsRun(m, events)
    ensures KeepsHandoff(Final(m, events))
  {
    FreshIsSafe(m);
    EveryRunIsSafe(m, events);
    SafeKeepsHandoff(Final(m, events));
  }

  // ---------------------------------------------------------------------
  // One user and one runtime throughout
  // ---------------------------------------------------------------------

  /** What the commands that move the transaction on ask beyond their guards. */
  lemma LaterCommandsNeed(m: Machine, e: Event)
    requires After(m, e).Some? && (e.ClearSafeBoot? || e.ArmPhaseThree? || e.ClearRun?)
    ensures m.state.transaction.Some? && m.state.transaction.value.runtime == Some(e.session.runtime)
    ensures e.ArmPhaseThree? || e.ClearRun? ==> m.state.transaction.value.initiator == Some(e.session.sid)
    ensures e.ClearSafeBoot? ==> m.runOnce && IsBoundAt(m.state.transaction.value, PhaseOneSafeModeArmed)
    ensures e.ArmPhaseThree? ==>
              e.removalComplete && m.progress.IsCompleted(StepId(Two, 2)) && IsBoundAt(m.state.transaction.value, PhaseTwoSafeMode)
    ensures e.ClearRun? ==>
              && m.run && IsBoundAt(m.state.transaction.value, PhaseThreeComplete)
              && ValidatePersistedFinalBenchmark(m.state, m.progress, m.history).Ok?
  {
  }

  lemma ArmBinds(m: Machine, native: NativeEvidence, session: Session, id: string, now: string, writes: nat)
    requires IsSafe(m) && After(m, Arm(native, session, id, now, writes)).Some? && writes >= 3
    ensures var t := After(m, Arm(native, session, id, now, writes)).value.state.transaction;
            t.Some? && t.value.runtime == Some(session.runtime) && t.value.initiator == Some(session.sid)
  {
  }

  /**
   * Once a session armed the transaction, only that user from that runtime hands
   * over to Phase 3 and clears its entry, and only that runtime leaves Safe Mode,
   * whatever ran, crashed and rebooted in between.
   */
  lemma OneSessionThroughout(m: Machine, arm: Event, events: seq<Event>, e: Event)
    requires IsSafe(m) && arm.Arm? && arm.writes >= 3 && After(m, arm).Some?
    requires IsRun(After(m, arm).value, events) && After(Final(After(m, arm).value, events), e).Some?
    ensures e.ArmPhaseThree? || e.ClearRun? ==> e.session == arm.session
    ensures e.ClearSafeBoot? ==> e.session.runtime == arm.session.runtime
  {
    var armed := After(m, arm).value;
    ArmBinds(m, arm.native, arm.session, arm.id, arm.now, arm.writes);
    EventAdvances(m, arm);
    EveryRunIsSafe(armed, events);
    if e.ClearSafeBoot? || e.ArmPhaseThree? || e.ClearRun? {
      LaterCommandsNeed(Final(armed, events), e);
    }
  }
}
