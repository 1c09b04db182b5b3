/** The durable record of an immutable reboot handoff. */
module Handoff {
  import opened Wrappers

  const REBOOT_TRANSACTION_SCHEMA_VERSION := 1

  /** Unknown persisted stages are retained but never authorize work. */
  datatype RebootStage =
    | PhaseOneSafeModeArmed
    | PhaseTwoSafeMode
    | PhaseThreeArmed
    | PhaseThreeComplete
    | RecoveryRequired
    | UnknownStage(text: string)
  {
    predicate AllowsTransitionTo(next: RebootStage) {
      || (PhaseOneSafeModeArmed? && next.PhaseTwoSafeMode?)
      || (PhaseTwoSafeMode? && next.PhaseThreeArmed?)
      || (PhaseThreeArmed? && next.PhaseThreeComplete?)
      || next.RecoveryRequired?
    }

    static function Parse(value: string): RebootStage {
      if value == "phase1SafeModeArmed" then PhaseOneSafeModeArmed
      else if value == "phase2SafeMode" then PhaseTwoSafeMode
      else if value == "phase3Armed" then PhaseThreeArmed
      else if value == "phase3Complete" then PhaseThreeComplete
      else if value == "recoveryRequired" then RecoveryRequired
      else UnknownStage(value)
    }

    function Text(): string {
      match this
      case PhaseOneSafeModeArmed => "phase1SafeModeArmed"
      case PhaseTwoSafeMode => "phase2SafeMode"
      case PhaseThreeArmed => "phase3Armed"
      case PhaseThreeComplete => "phase3Complete"
      case RecoveryRequired => "recoveryRequired"
      case UnknownStage(text) => text
    }
  }

  /** A persisted stage text survives a load and store unchanged, known or not. */
  lemma StageTextRoundTrip(value: string)
    ensures RebootStage.Parse(value).Text() == value
  {
  }

  /** The user identity and runtime record, with the verdict of their own field checks. */
  datatype UserSid = UserSid(text: string, canonical: bool)
  datatype RuntimeRecord = RuntimeRecord(generation: string, complete: bool)

  datatype RebootTransaction = RebootTransaction(
    schemaVersion: nat,
    transactionId: Option<string>,
    initiator: Option<UserSid>,
    stage: RebootStage,
    runtime: Option<RuntimeRecord>,
    updatedUtc: Option<string>)
  {
    /** Every condition of authority except the stage. */
    predicate IsBound() {
      && schemaVersion == REBOOT_TRANSACTION_SCHEMA_VERSION
      && transactionId.Some?
      && initiator.Some? && initiator.value.canonical
      && runtime.Some? && runtime.value.complete
    }

    predicate IsAuthorizedAt(expected: RebootStage) {
      IsBound() && stage == expected
    }

    function TransitionTo(next: RebootStage): Option<RebootTransaction> {
      if stage.AllowsTransitionTo(next) then Some(this.(stage := next)) else None
    }
  }

  /** What authority at a stage asks of the record, field by field. */
  predicate IsBoundAt(t: RebootTransaction, stage: RebootStage) {
    && t.schemaVersion == 1 && t.transactionId.Some?
    && t.initiator.Some? && t.initiator.value.canonical
    && t.runtime.Some? && t.runtime.value.complete
    && t.stage == stage
  }

  lemma AuthorityMeans(t: RebootTransaction, stage: RebootStage)
    ensures t.IsAuthorizedAt(stage) <==> IsBoundAt(t, stage)
  {
  }

  /** Position of a stage on the forward path; recovery is past every stage. */
  function StageRank(stage: RebootStage): nat {
    match stage
    case UnknownStage(_) => 0
    case PhaseOneSafeModeArmed => 1
    case PhaseTwoSafeMode => 2
    case PhaseThreeArmed => 3
    case PhaseThreeComplete => 4
    case RecoveryRequired => 5
  }

  /** A transition to a stage that can authorize work moves exactly one stage forward. */
  lemma TransitionsAreForward(t: RebootTransaction, next: RebootStage)
    ensures t.TransitionTo(next).Some? <==>
              next.RecoveryRequired? || (1 <= StageRank(t.stage) && StageRank(next) == StageRank(t.stage) + 1 <= 4)
    ensures t.TransitionTo(next).Some? ==> StageRank(t.stage) <= StageRank(t.TransitionTo(next).value.stage)
  {
  }
}
