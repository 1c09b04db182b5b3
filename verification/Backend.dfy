/**
 * The engine's backend as an adversary. Every trait call is a `Request`; an
 * arbitrary function of everything that happened so far picks the `Reply`.
 */
module Backend {
  import opened Catalog
  import opened ProgressModel
  import opened Audit
  import opened Backup
  import opened UndoLog

  datatype Inspection = Satisfied | NeedsApply | Inapplicable | Advisory(reason: string) | Unsupported

  datatype EvidenceRequirement = NoEvidence | DurableReceipt

  /** An observation receipt, reduced to the step it binds and whether its own checks pass. */
  datatype ObservationReceipt = ObservationReceipt(step: string, wellFormed: bool) {
    predicate IsValidFor(key: string) {
      wellFormed && step == key
    }
  }

  datatype Request =
    | AskCancelled
    | AskConsent(step: Step)
    | Inspect(step: Step)
    | Plan(step: Step)
    | AskRecovery(step: Step)
    | AskEvidence(step: Step)
    | AskTimestamp
    | CaptureBackups(step: Step)
    | PersistBackups(entries: seq<BackupEntry>)
    | CapturePendingAudit(step: Step)
    | PersistPendingAudit(audit: RebuildableAudit)
    | FinalizeAudit(audit: RebuildableAudit)
    | CaptureIrreversible(step: Step)
    | PersistIrreversible(pending: IrreversibleAudit)
    | FinalizeIrreversible(final: IrreversibleAudit)
    | FailIrreversible(failed: IrreversibleAudit)
    | CaptureEvidence(step: Step)
    | PersistEvidence(receipt: ObservationReceipt)
    | VerifyEvidence(step: Step, receipt: ObservationReceipt)
    | Apply(step: Step)
    | Verify(step: Step)
    | PersistProgress(progress: Progress)

  /**
   * Everything a reply may carry; each request reads its own fields. `stored`
   * says whether a persist that reported failure reached the disk all the same,
   * `writes` what an apply changed, whether or not it reported success.
   */
  datatype Reply = Reply(
    ok: bool,
    yes: bool,
    inspection: Inspection,
    recovery: RecoveryRequirement,
    evidence: EvidenceRequirement,
    timestamp: string,
    entries: seq<BackupEntry>,
    audit: RebuildableAudit,
    irreversible: IrreversibleAudit,
    receipt: ObservationReceipt,
    stored: bool,
    writes: map<Location, Original>)

  datatype Call = Call(request: Request, reply: Reply)

  /** What outlives the engine: the calls made, the machine, the log and the progress file. */
  datatype World = World(trace: seq<Call>, machine: Machine, log: seq<BackupEntry>, disk: Progress)

  type Oracle = (World, Request) -> Reply

  predicate Reached(reply: Reply) {
    reply.ok || reply.stored
  }

  function After(w: World, request: Request, reply: Reply): World {
    World(
      w.trace + [Call(request, reply)],
      if request.Apply? then Write(w.machine, reply.writes) else w.machine,
      if request.PersistBackups? && Reached(reply) then PushAll(w.log, request.entries) else w.log,
      if request.PersistProgress? && Reached(reply) then request.progress else w.disk)
  }

  /** The backend object: each call updates the world it guards. */
  class Host {
    const oracle: Oracle
    const dryRun: bool
    var trace: seq<Call>
    var machine: Machine
    var log: seq<BackupEntry>
    var disk: Progress

    function State(): World
      reads this
    {
      World(trace, machine, log, disk)
    }

    constructor (oracle: Oracle, dryRun: bool, w: World)
      ensures this.oracle == oracle && this.dryRun == dryRun && State() == w
    {
      this.oracle, this.dryRun := oracle, dryRun;
      trace, machine, log, disk := w.trace, w.machine, w.log, w.disk;
    }

    /** One trait call. A batch of backups is pushed entry by entry into the recovery document. */
    method Invoke(request: Request) returns (reply: Reply)
      modifies this
      ensures reply == oracle(old(State()), request)
      ensures State() == After(old(State()), request, reply)
    {
      reply := oracle(World(trace, machine, log, disk), request);
      trace := trace + [Call(request, reply)];
      match request
      case Apply(_) =>
        machine := Write(machine, reply.writes);
      case PersistBackups(batch) =>
        if Reached(reply) {
          var file := new BackupFile(log);
          file.PushBatch(batch);
          log := file.entries;
        }
      case PersistProgress(progress) =>
        if Reached(reply) {
          disk := progress;
        }
      case _ =>
    }
  }
}
