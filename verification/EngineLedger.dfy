/**
 * Trace discipline. A ledger folds the call trace into what is owed and what is
 * protected; `Permits` says which calls a disciplined engine may make next. The
 * lemmas at the end give the declarative meaning, in positions of the trace.
 */
module EngineLedger {
  import opened Wrappers
  import opened Catalog
  import opened ProgressModel
  import opened Audit
  import opened Backup
  import opened Backend

  datatype Ledger = Ledger(
    subject: Option<Step>,
    needsApply: bool,
    recovery: Option<RecoveryRequirement>,
    captured: Option<seq<BackupEntry>>,
    backups: bool,
    audit: bool,
    open: Option<IrreversibleAudit>,
    verified: bool,
    memory: Progress)

  function Fresh(memory: Progress): Ledger {
    Ledger(None, false, None, None, false, false, None, false, memory)
  }

  function SubjectKey(l: Ledger): string {
    if l.subject.Some? then ProgressKey(l.subject.value.id) else ""
  }

  function Observe(l: Ledger, c: Call): Ledger {
    var r, ok := c.request, c.reply.ok;
    if r.Inspect? then
      if ok then Fresh(l.memory).(subject := Some(r.step), needsApply := c.reply.inspection.NeedsApply?)
      else Fresh(l.memory)
    else
      Ledger(
        l.subject,
        l.needsApply,
        if r.AskRecovery? then (if l.subject == Some(r.step) then Some(c.reply.recovery) else None) else l.recovery,
        if r.CaptureBackups? then (if ok && l.subject == Some(r.step) then Some(c.reply.entries) else None)
        else if r.Apply? then None else l.captured,
        l.backups || (r.PersistBackups? && ok && r.entries != [] && l.captured == Some(r.entries)),
        l.audit || (r.PersistPendingAudit? && ok && l.subject.Some? && r.audit.IsValidPendingFor(SubjectKey(l))),
        if r.PersistIrreversible? && ok then Some(r.pending)
        else if r.FinalizeIrreversible? || r.FailIrreversible? then None else l.open,
        if r.Verify? then ok && l.subject == Some(r.step) else l.verified && !r.Apply? && !r.PersistIrreversible?,
        if r.PersistProgress? && ok then r.progress else l.memory)
  }

  function Read(initial: Progress, t: seq<Call>): Ledger {
    if t == [] then Fresh(initial) else Observe(Read(initial, t[..|t| - 1]), t[|t| - 1])
  }

  predicate HoldsAudit(l: Ledger, requirement: RecoveryRequirement) {
    l.open.Some? && l.open.value.IsValidPendingFor(requirement, SubjectKey(l))
  }

  /** The recovery the latest answer demands has been persisted since the inspection. */
  predicate Protected(l: Ledger) {
    && l.recovery.Some?
    && match l.recovery.value
       case LosslessBackup => l.backups
       case RebuildableAuditing => l.audit
       case ManualRecoveryAuditing => HoldsAudit(l, ManualRecoveryAuditing)
       case Mixed => l.backups && HoldsAudit(l, Mixed)
  }

  predicate Permits(l: Ledger, request: Request) {
    match request
    case Inspect(_) => l.open.None?
    case Apply(step) => l.subject == Some(step) && l.needsApply && !step.checkOnly && Protected(l)
    case PersistBackups(entries) => l.captured == Some(entries)
    case Verify(step) => l.subject == Some(step) && !l.verified
    case PersistIrreversible(pending) =>
      && l.open.None? && l.subject.Some? && l.recovery.Some?
      && pending.IsValidPendingFor(l.recovery.value, SubjectKey(l))
    case FinalizeAudit(audit) => l.audit && l.verified && audit.outcome.Verified?
    case FinalizeIrreversible(final) =>
      l.open.Some? && l.verified && final.SameSubject(l.open.value) && final.outcome.Verified?
    case FailIrreversible(failed) =>
      l.open.Some? && !l.verified && failed.SameSubject(l.open.value) && failed.outcome.Failed?
    case PersistProgress(progress) =>
      && l.open.None?
      && forall key <- progress.completed - l.memory.completed :: l.verified && l.subject.Some? && key == SubjectKey(l)
    case _ => true
  }

  ghost predicate Disciplined(initial: Progress, t: seq<Call>) {
    forall i :: 0 <= i < |t| ==> Permits(Read(initial, t[..i]), t[i].request)
  }

  lemma Extend(initial: Progress, t: seq<Call>, c: Call)
    requires Disciplined(initial, t) && Permits(Read(initial, t), c.request)
    ensures Disciplined(initial, t + [c])
    ensures Read(initial, t + [c]) == Observe(Read(initial, t), c)
  {
    assert (t + [c])[..|t|] == t;
    forall i | 0 <= i < |t + [c]| ensures Permits(Read(initial, (t + [c])[..i]), (t + [c])[i].request) {
      if i < |t| {
        assert (t + [c])[..i] == t[..i];
      }
    }
  }

  // ---------------------------------------------------------------------
  // Worlds are determined by the requests made
  // ---------------------------------------------------------------------

  function Requests(t: seq<Call>): seq<Request> {
    seq(|t|, i requires 0 <= i < |t| => t[i].request)
  }

  /** Replays the requests against the same backend from the same start. */
  function Rerun(o: Oracle, start: World, requests: seq<Request>): World {
    if requests == [] then start
    else
      var w := Rerun(o, start, requests[..|requests| - 1]);
      var r := requests[|requests| - 1];
      After(w, r, o(w, r))
  }

  ghost predicate Genuine(o: Oracle, start: World, w: World) {
    w == Rerun(o, start, Requests(w.trace))
  }

  lemma ExtendGenuine(o: Oracle, start: World, w: World, r: Request)
    requires Genuine(o, start, w)
    ensures Genuine(o, start, After(w, r, o(w, r)))
  {
    var t := w.trace + [Call(r, o(w, r))];
    assert Requests(t)[..|t| - 1] == Requests(w.trace);
  }

  lemma {:induction false} RerunTrace(o: Oracle, start: World, requests: seq<Request>)
    requires start.trace == []
    ensures Requests(Rerun(o, start, requests).trace) == requests
  {
    if requests != [] {
      RerunTrace(o, start, requests[..|requests| - 1]);
      var w := Rerun(o, start, requests[..|requests| - 1]);
      var t := Rerun(o, start, requests).trace;
      assert Requests(t)[..|t| - 1] == Requests(w.trace);
    }
  }

  // ---------------------------------------------------------------------
  // What the ledger's flags mean as positions of the trace
  // ---------------------------------------------------------------------

  /** Position j is followed by no inspection: it belongs to the current step attempt. */
  predicate Current(t: seq<Call>, j: int) {
    0 <= j < |t| && forall i :: j < i < |t| ==> !t[i].request.Inspect?
  }

  predicate Inspected(t: seq<Call>, k: int, step: Step) {
    0 <= k < |t| && t[k].request == Inspect(step) && t[k].reply.ok
  }

  /** The entries answered at c to the step's capture. */
  predicate Captured(t: seq<Call>, c: int, step: Step, entries: seq<BackupEntry>) {
    && 0 <= c < |t| && t[c].request == CaptureBackups(step) && t[c].reply.ok && t[c].reply.entries == entries
    && forall i :: c < i < |t| ==> !t[i].request.Apply?
  }

  /** The non-empty entries captured at c for the step were persisted at j, with nothing applied in between. */
  predicate BackupsPersisted(t: seq<Call>, c: int, j: int, step: Step) {
    && 0 <= j < |t| && t[j].request.PersistBackups? && t[j].request.entries != [] && t[j].reply.ok
    && Captured(t[..j], c, step, t[j].request.entries)
  }

  predicate AuditPersisted(t: seq<Call>, j: int, key: string) {
    0 <= j < |t| && t[j].request.PersistPendingAudit? && t[j].reply.ok && t[j].request.audit.IsValidPendingFor(key)
  }

  predicate IrreversiblePersisted(t: seq<Call>, j: int, audit: IrreversibleAudit) {
    0 <= j < |t| && t[j].request == PersistIrreversible(audit) && t[j].reply.ok
  }

  /** The latest answer about recovery is to this step's question at q. */
  predicate RecoveryAnswered(t: seq<Call>, q: int, step: Step, recovery: RecoveryRequirement) {
    && 0 <= q < |t| && t[q].request == AskRecovery(step) && t[q].reply.recovery == recovery
    && forall i :: q < i < |t| ==> !t[i].request.AskRecovery?
  }

  /** Verified by a call after which nothing was applied and no audit opened. */
  predicate VerifiedAt(t: seq<Call>, v: int, step: Step) {
    && 0 <= v < |t| && t[v].request == Verify(step) && t[v].reply.ok
    && forall i :: v < i < |t| ==> !t[i].request.Apply? && !t[i].request.PersistIrreversible?
  }

  ghost predicate SubjectMeans(t: seq<Call>, l: Ledger) {
    && (l.subject.Some? ==> exists k :: Current(t, k) && Inspected(t, k, l.subject.value)
                                        && (l.needsApply <==> t[k].reply.inspection.NeedsApply?))
    && (l.subject.None? ==> !l.needsApply && !l.verified && !l.audit && l.captured.None? && !l.backups && l.recovery.None?)
  }

  ghost predicate RecoveryMeans(t: seq<Call>, l: Ledger) {
    l.recovery.Some? && l.subject.Some? ==>
      exists q :: Current(t, q) && RecoveryAnswered(t, q, l.subject.value, l.recovery.value)
  }

  ghost predicate CapturedMeans(t: seq<Call>, l: Ledger) {
    l.captured.Some? && l.subject.Some? ==>
      exists c :: Current(t, c) && Captured(t, c, l.subject.value, l.captured.value)
  }

  ghost predicate BackupsMean(t: seq<Call>, l: Ledger) {
    l.backups && l.subject.Some? ==> exists c, j :: Current(t, c) && BackupsPersisted(t, c, j, l.subject.value)
  }

  ghost predicate AuditMeans(t: seq<Call>, l: Ledger) {
    l.audit ==> exists j :: Current(t, j) && AuditPersisted(t, j, SubjectKey(l))
  }

  ghost predicate OpenMeans(t: seq<Call>, l: Ledger) {
    l.open.Some? ==> exists j :: Current(t, j) && IrreversiblePersisted(t, j, l.open.value)
  }

  /** Exactly: a verify stands when and only when the ledger says so. */
  ghost predicate VerifiedMeans(t: seq<Call>, l: Ledger) {
    l.subject.Some? ==> (l.verified <==> exists v :: Current(t, v) && VerifiedAt(t, v, l.subject.value))
  }

  ghost predicate Means(t: seq<Call>, l: Ledger) {
    && SubjectMeans(t, l) && RecoveryMeans(t, l) && CapturedMeans(t, l) && BackupsMean(t, l)
    && AuditMeans(t, l) && OpenMeans(t, l) && VerifiedMeans(t, l)
  }

  lemma {:induction false} LedgerMeans(initial: Progress, t: seq<Call>)
    requires Disciplined(initial, t)
    ensures Means(t, Read(initial, t))
  {
    if t != [] {
      var s, c := t[..|t| - 1], t[|t| - 1];
      var l := Read(initial, s);
      assert t == s + [c] && Permits(l, c.request);
      assert forall i :: 0 <= i < |s| ==> t[..i] == s[..i];
      LedgerMeans(initial, s);
      ObserveSubject(s, l, c);
      ObserveRecovery(s, l, c);
      ObserveCapture(s, l, c);
      ObserveBackups(s, l, c);
      ObserveAudit(s, l, c);
      ObserveOpen(s, l, c);
      ObserveVerified(s, l, c);
    }
  }

  lemma DisciplinedPrefix(initial: Progress, t: seq<Call>, n: nat)
    requires Disciplined(initial, t) && n <= |t|
    ensures Disciplined(initial, t[..n])
  {
    forall i | 0 <= i < n ensures Permits(Read(initial, t[..n][..i]), t[..n][i].request) {
      assert t[..n][..i] == t[..i];
    }
  }

  lemma StillCurrent(s: seq<Call>, c: Call, j: int)
    requires Current(s, j) && !c.request.Inspect?
    ensures Current(s + [c], j) && (s + [c])[j] == s[j]
  {
  }

  lemma NowCurrent(s: seq<Call>, c: Call)
    ensures Current(s + [c], |s|) && (s + [c])[|s|] == c
  {
  }

  lemma ObserveSubject(s: seq<Call>, l: Ledger, c: Call)
    requires SubjectMeans(s, l)
    ensures SubjectMeans(s + [c], Observe(l, c))
  {
    NowCurrent(s, c);
    if c.request.Inspect? {
      if c.reply.ok {
        assert Inspected(s + [c], |s|, c.request.step);
      }
    } else if l.subject.Some? {
      var k :| Current(s, k) && Inspected(s, k, l.subject.value)
               && (l.needsApply <==> s[k].reply.inspection.NeedsApply?);
      StillCurrent(s, c, k);
      assert Inspected(s + [c], k, l.subject.value);
    }
  }

  lemma ObserveRecovery(s: seq<Call>, l: Ledger, c: Call)
    requires RecoveryMeans(s, l)
    ensures RecoveryMeans(s + [c], Observe(l, c))
  {
    NowCurrent(s, c);
    var m := Observe(l, c);
    if m.recovery.Some? && m.subject.Some? {
      if c.request.AskRecovery? {
        assert RecoveryAnswered(s + [c], |s|, m.subject.value, c.reply.recovery);
      } else {
        var q :| Current(s, q) && RecoveryAnswered(s, q, l.subject.value, l.recovery.value);
        StillCurrent(s, c, q);
        assert RecoveryAnswered(s + [c], q, m.subject.value, m.recovery.value);
      }
    }
  }

  lemma ObserveCapture(s: seq<Call>, l: Ledger, c: Call)
    requires CapturedMeans(s, l)
    ensures CapturedMeans(s + [c], Observe(l, c))
  {
    NowCurrent(s, c);
    var m := Observe(l, c);
    if m.captured.Some? && m.subject.Some? {
      if c.request.CaptureBackups? {
        assert Captured(s + [c], |s|, m.subject.value, c.reply.entries);
      } else {
        var k :| Current(s, k) && Captured(s, k, l.subject.value, l.captured.value);
        StillCurrent(s, c, k);
        assert Captured(s + [c], k, m.subject.value, m.captured.value);
      }
    }
  }

  lemma ObserveBackups(s: seq<Call>, l: Ledger, c: Call)
    requires CapturedMeans(s, l) && BackupsMean(s, l)
    ensures BackupsMean(s + [c], Observe(l, c))
  {
    var m := Observe(l, c);
    if m.backups && m.subject.Some? {
      if l.backups {
        var k, j :| Current(s, k) && BackupsPersisted(s, k, j, l.subject.value);
        StillCurrent(s, c, k);
        assert (s + [c])[..j] == s[..j];
        assert BackupsPersisted(s + [c], k, j, m.subject.value);
      } else {
        var k :| Current(s, k) && Captured(s, k, l.subject.value, l.captured.value);
        StillCurrent(s, c, k);
        assert (s + [c])[..|s|] == s;
        assert BackupsPersisted(s + [c], k, |s|, m.subject.value);
      }
    }
  }

  lemma ObserveAudit(s: seq<Call>, l: Ledger, c: Call)
    requires AuditMeans(s, l)
    ensures AuditMeans(s + [c], Observe(l, c))
  {
    NowCurrent(s, c);
    if !c.request.Inspect? {
      if l.audit {
        var j :| Current(s, j) && AuditPersisted(s, j, SubjectKey(l));
        StillCurrent(s, c, j);
        assert AuditPersisted(s + [c], j, SubjectKey(l));
      } else if Observe(l, c).audit {
        assert AuditPersisted(s + [c], |s|, SubjectKey(l));
      }
    }
  }

  lemma ObserveOpen(s: seq<Call>, l: Ledger, c: Call)
    requires OpenMeans(s, l)
    ensures OpenMeans(s + [c], Observe(l, c))
  {
    NowCurrent(s, c);
    if c.request.PersistIrreversible? && c.reply.ok {
      assert IrreversiblePersisted(s + [c], |s|, c.request.pending);
    } else if !c.request.Inspect? && l.open.Some? {
      var j :| Current(s, j) && IrreversiblePersisted(s, j, l.open.value);
      StillCurrent(s, c, j);
      assert IrreversiblePersisted(s + [c], j, l.open.value);
    }
  }

  lemma ObserveVerified(s: seq<Call>, l: Ledger, c: Call)
    requires VerifiedMeans(s, l) && Permits(l, c.request)
    ensures VerifiedMeans(s + [c], Observe(l, c))
  {
    NowCurrent(s, c);
    var m, t := Observe(l, c), s + [c];
    if m.subject.Some? && m.verified {
      if c.request.Verify? {
        assert VerifiedAt(t, |s|, m.subject.value);
      } else {
        var v :| Current(s, v) && VerifiedAt(s, v, l.subject.value);
        StillCurrent(s, c, v);
        assert VerifiedAt(t, v, m.subject.value);
      }
    }
    if m.subject.Some? && exists v :: Current(t, v) && VerifiedAt(t, v, m.subject.value) {
      var v :| Current(t, v) && VerifiedAt(t, v, m.subject.value);
      if v < |s| {
        assert t[|s|] == c && t[v] == s[v];
        assert forall i :: v < i < |s| ==> s[i] == t[i];
        assert Current(s, v) && VerifiedAt(s, v, l.subject.value);
      }
    }
  }

  // ---------------------------------------------------------------------
  // The declarative theorems
  // ---------------------------------------------------------------------

  /** The recovery a requirement demands was captured and persisted for the step after inspection k. */
  ghost predicate RecoveryPersisted(t: seq<Call>, k: int, step: Step, recovery: RecoveryRequirement) {
    match recovery
    case LosslessBackup => exists c, j :: k < c && BackupsPersisted(t, c, j, step)
    case RebuildableAuditing => exists j :: k < j && AuditPersisted(t, j, ProgressKey(step.id))
    case ManualRecoveryAuditing => HoldsIrreversible(t, k, ManualRecoveryAuditing, ProgressKey(step.id))
    case Mixed =>
      && (exists c, j :: k < c && BackupsPersisted(t, c, j, step))
      && HoldsIrreversible(t, k, Mixed, ProgressKey(step.id))
  }

  ghost predicate HoldsIrreversible(t: seq<Call>, k: int, recovery: RecoveryRequirement, key: string) {
    exists j, audit :: k < j && IrreversiblePersisted(t, j, audit) && audit.IsValidPendingFor(recovery, key)
  }

  ghost predicate ProtectedApply(t: seq<Call>, i: int, step: Step)
    requires 0 <= i < |t|
  {
    exists k, q, recovery ::
      && Current(t[..i], k) && Inspected(t[..i], k, step) && t[k].reply.inspection.NeedsApply?
      && k < q && RecoveryAnswered(t[..i], q, step, recovery)
      && RecoveryPersisted(t[..i], k, step, recovery)
  }

  lemma ProtectionIsPersisted(s: seq<Call>, l: Ledger, k: int)
    requires BackupsMean(s, l) && AuditMeans(s, l) && OpenMeans(s, l)
    requires Current(s, k) && s[k].request.Inspect?
    requires Protected(l) && l.subject.Some?
    ensures RecoveryPersisted(s, k, l.subject.value, l.recovery.value)
  {
    if l.backups {
      var c, j :| Current(s, c) && BackupsPersisted(s, c, j, l.subject.value);
      assert s[c] == s[..j][c];
      assert k < c;
    }
    match l.recovery.value
    case LosslessBackup =>
    case RebuildableAuditing =>
      var j :| Current(s, j) && AuditPersisted(s, j, SubjectKey(l));
      assert k < j;
    case ManualRecoveryAuditing =>
      var j :| Current(s, j) && IrreversiblePersisted(s, j, l.open.value);
      assert k < j;
    case Mixed =>
      var j :| Current(s, j) && IrreversiblePersisted(s, j, l.open.value);
      assert k < j;
  }

  lemma MeaningProtects(t: seq<Call>, i: nat, l: Ledger, step: Step)
    requires i < |t| && Means(t[..i], l)
    requires l.subject == Some(step) && l.needsApply && Protected(l)
    ensures ProtectedApply(t, i, step)
  {
    var s := t[..i];
    assert SubjectMeans(s, l) && RecoveryMeans(s, l);
    var k :| Current(s, k) && Inspected(s, k, step) && (l.needsApply <==> s[k].reply.inspection.NeedsApply?);
    var q :| Current(s, q) && RecoveryAnswered(s, q, step, l.recovery.value);
    ProtectionIsPersisted(s, l, k);
    assert k < q;
    assert t[k] == s[k];
  }

  /**
   * Every apply follows, since the one inspection that asked for it, a persist of
   * the recovery demanded by the backend's latest answer.
   */
  lemma ApplyIsProtected(initial: Progress, t: seq<Call>, i: nat)
    requires Disciplined(initial, t) && i < |t| && t[i].request.Apply?
    ensures ProtectedApply(t, i, t[i].request.step) && !t[i].request.step.checkOnly
  {
    var l := Read(initial, t[..i]);
    ReadStep(initial, t, i);
    DisciplinedPrefix(initial, t, i);
    LedgerMeans(initial, t[..i]);
    MeaningProtects(t, i, l, t[i].request.step);
  }

  /** The progress the engine holds in memory: the last one it persisted, or the initial one. */
  function LastPersisted(initial: Progress, t: seq<Call>): Progress {
    if t == [] then initial
    else
      var c := t[|t| - 1];
      if c.request.PersistProgress? && c.reply.ok then c.request.progress
      else LastPersisted(initial, t[..|t| - 1])
  }

  lemma {:induction false} MemoryIsLastPersisted(initial: Progress, t: seq<Call>)
    ensures Read(initial, t).memory == LastPersisted(initial, t)
  {
    if t != [] {
      MemoryIsLastPersisted(initial, t[..|t| - 1]);
    }
  }

  ghost predicate VerifiedCompletion(t: seq<Call>, i: int, key: string)
    requires 0 <= i < |t|
  {
    exists k, v, step ::
      && Current(t[..i], k) && Inspected(t[..i], k, step)
      && k < v && VerifiedAt(t[..i], v, step)
      && key == ProgressKey(step.id)
  }

  lemma MeaningVerifies(t: seq<Call>, i: nat, l: Ledger, step: Step)
    requires i < |t| && Means(t[..i], l)
    requires l.subject == Some(step) && l.verified
    ensures VerifiedCompletion(t, i, ProgressKey(step.id))
  {
    var s := t[..i];
    assert SubjectMeans(s, l) && VerifiedMeans(s, l);
    var k :| Current(s, k) && Inspected(s, k, step);
    var v :| Current(s, v) && VerifiedAt(s, v, step);
    assert k < v;
  }

  lemma NewKeysAreVerified(l: Ledger, progress: Progress, key: string)
    requires Permits(l, PersistProgress(progress))
    requires key in progress.completed && key !in l.memory.completed
    ensures l.verified && l.subject.Some? && key == SubjectKey(l)
  {
    assert key in progress.completed - l.memory.completed;
  }

  /** A key is newly completed only for the inspected step, after its latest apply was verified. */
  lemma CompletionsAreVerified(initial: Progress, t: seq<Call>, i: nat, key: string)
    requires Disciplined(initial, t) && i < |t| && t[i].request.PersistProgress?
    requires key in t[i].request.progress.completed && key !in LastPersisted(initial, t[..i]).completed
    ensures VerifiedCompletion(t, i, key)
  {
    var l := Read(initial, t[..i]);
    MemoryIsLastPersisted(initial, t[..i]);
    NewKeysAreVerified(l, t[i].request.progress, key);
    DisciplinedPrefix(initial, t, i);
    LedgerMeans(initial, t[..i]);
    MeaningVerifies(t, i, l, l.subject.value);
  }

  predicate Closes(c: Call) {
    c.request.FinalizeIrreversible? || c.request.FailIrreversible?
  }

  /** A verify of the step with this key succeeded after i, and nothing was applied after it. */
  ghost predicate VerifiedSince(t: seq<Call>, i: int, key: string) {
    exists v, step :: i < v && VerifiedAt(t, v, step) && ProgressKey(step.id) == key
  }

  /**
   * The close attempt at j is for the audit persisted at i and says the truth: a
   * finalize follows a verify of the audited step, a fail follows none.
   */
  ghost predicate ClosesTruthfully(t: seq<Call>, i: int, j: int, audit: IrreversibleAudit)
    requires 0 <= j < |t|
  {
    match t[j].request
    case FinalizeIrreversible(final) =>
      final.SameSubject(audit) && final.outcome.Verified? && VerifiedSince(t[..j], i, audit.step)
    case FailIrreversible(failed) =>
      failed.SameSubject(audit) && failed.outcome.Failed? && !VerifiedSince(t[..j], i, audit.step)
    case _ => false
  }

  /** Calls strictly between i and m neither close, inspect nor open an audit. */
  predicate Quiet(t: seq<Call>, i: int, m: int) {
    forall x :: i < x < m && 0 <= x < |t| ==>
      !Closes(t[x]) && !t[x].request.Inspect? && !t[x].request.PersistIrreversible?
  }

  /** Every later close attempt comes after a later persisted audit. */
  ghost predicate LastClose(t: seq<Call>, j: int) {
    forall m :: 0 <= j < m < |t| && Closes(t[m]) ==> OpenedBetween(t, j, m)
  }

  predicate OpenedBetween(t: seq<Call>, j: int, m: int) {
    exists n :: 0 <= j < n < m <= |t| && t[n].request.PersistIrreversible? && t[n].reply.ok
  }

  /** j is the one attempt to close the audit persisted at i, and a truthful one. */
  ghost predicate ClosedAt(t: seq<Call>, i: int, j: int, audit: IrreversibleAudit)
    requires 0 <= i < |t|
  {
    i < j < |t| && ClosesTruthfully(t, i, j, audit) && Quiet(t, i, j) && LastClose(t, j)
  }

  lemma {:induction false} SubjectStays(initial: Progress, t: seq<Call>, a: nat, b: nat)
    requires a <= b <= |t| && forall x :: a <= x < b ==> !t[x].request.Inspect?
    ensures Read(initial, t[..b]).subject == Read(initial, t[..a]).subject
    decreases b - a
  {
    if a < b {
      SubjectStays(initial, t, a, b - 1);
      assert t[..b][..b - 1] == t[..b - 1];
    }
  }

  /** The step attempt that persisted the audit at i is still the one at m. */
  lemma AuditOfTheSubject(initial: Progress, t: seq<Call>, i: nat, m: nat, audit: IrreversibleAudit)
    requires Disciplined(initial, t) && IrreversiblePersisted(t, i, audit)
    requires i < m <= |t| && Quiet(t, i, m)
    ensures Read(initial, t[..m]).subject.Some? && SubjectKey(Read(initial, t[..m])) == audit.step
  {
    assert Permits(Read(initial, t[..i]), t[i].request);
    SubjectStays(initial, t, i, m);
  }

  /** A verify made since the audit was persisted was of the step attempt's own step. */
  lemma VerifiedOwnStep(initial: Progress, t: seq<Call>, v: nat, m: nat, step: Step)
    requires Disciplined(initial, t) && v < m <= |t| && t[v].request == Verify(step)
    requires forall x :: v <= x < m ==> !t[x].request.Inspect?
    ensures Read(initial, t[..m]).subject == Some(step)
  {
    assert Permits(Read(initial, t[..v]), t[v].request);
    SubjectStays(initial, t, v, m);
  }

  lemma VerifiedIsSince(s: seq<Call>, l: Ledger, i: nat)
    requires VerifiedMeans(s, l) && l.subject.Some? && l.verified
    requires i < |s| && s[i].request.PersistIrreversible?
    ensures VerifiedSince(s, i, SubjectKey(l))
  {
    var v :| Current(s, v) && VerifiedAt(s, v, l.subject.value);
    assert s[v].request.Verify?;
    assert i < v;
  }

  lemma QuietIsCurrent(t: seq<Call>, i: nat, v: int, m: nat)
    requires i < v < m <= |t| && Quiet(t, i, m)
    ensures Current(t[..m], v) && forall x :: v <= x < m ==> !t[x].request.Inspect?
  {
    assert forall x :: i < x < m ==> t[..m][x] == t[x];
  }

  lemma SinceIsVerified(initial: Progress, t: seq<Call>, i: nat, m: nat, v: nat, step: Step)
    requires Disciplined(initial, t) && i < m <= |t| && Quiet(t, i, m)
    requires VerifiedMeans(t[..m], Read(initial, t[..m]))
    requires i < v && VerifiedAt(t[..m], v, step)
    ensures Read(initial, t[..m]).verified
  {
    QuietIsCurrent(t, i, v, m);
    assert t[..m][v] == t[v];
    VerifiedOwnStep(initial, t, v, m, step);
  }

  lemma VerifiedSubject(initial: Progress, t: seq<Call>, i: nat, m: nat, audit: IrreversibleAudit)
    requires Disciplined(initial, t) && IrreversiblePersisted(t, i, audit)
    requires i < m < |t| && Quiet(t, i, m)
    ensures Read(initial, t[..m]).verified <==> VerifiedSince(t[..m], i, audit.step)
  {
    AuditOfTheSubject(initial, t, i, m, audit);
    DisciplinedPrefix(initial, t, m);
    LedgerMeans(initial, t[..m]);
    var l := Read(initial, t[..m]);
    assert VerifiedMeans(t[..m], l);
    if l.verified {
      assert t[..m][i] == t[i];
      VerifiedIsSince(t[..m], l, i);
    }
    if VerifiedSince(t[..m], i, audit.step) {
      var v, step :| i < v && VerifiedAt(t[..m], v, step) && ProgressKey(step.id) == audit.step;
      SinceIsVerified(initial, t, i, m, v, step);
    }
  }

  lemma ClosingIsTruthful(initial: Progress, t: seq<Call>, i: nat, j: nat, audit: IrreversibleAudit)
    requires Disciplined(initial, t) && IrreversiblePersisted(t, i, audit)
    requires i < j < |t| && Quiet(t, i, j)
    requires Read(initial, t[..j]).open == Some(audit) && Closes(t[j])
    ensures ClosesTruthfully(t, i, j, audit)
  {
    assert Permits(Read(initial, t[..j]), t[j].request);
    VerifiedSubject(initial, t, i, j, audit);
  }

  /** After a close at j an audit is open only once another was persisted. */
  lemma {:induction false} ClosedUntilOpened(initial: Progress, t: seq<Call>, j: nat, m: nat)
    requires j < m <= |t| && Closes(t[j])
    ensures Read(initial, t[..m]).open.Some? ==> OpenedBetween(t, j, m)
    decreases m
  {
    var last := m - 1;
    assert t[..m][..last] == t[..last] && t[..m][last] == t[last];
    if last > j {
      ClosedUntilOpened(initial, t, j, last);
      if Read(initial, t[..last]).open.Some? {
        var n :| 0 <= j < n < last && t[n].request.PersistIrreversible? && t[n].reply.ok;
      }
    }
  }

  lemma CloseIsLast(initial: Progress, t: seq<Call>, j: nat)
    requires Disciplined(initial, t) && j < |t| && Closes(t[j])
    ensures LastClose(t, j)
  {
    forall m | j < m < |t| && Closes(t[m]) ensures OpenedBetween(t, j, m) {
      ReadStep(initial, t, m);
      ClosedUntilOpened(initial, t, j, m);
    }
  }

  lemma StaysOpen(initial: Progress, t: seq<Call>, m: nat, audit: IrreversibleAudit)
    requires Disciplined(initial, t) && m < |t|
    requires Read(initial, t[..m]).open == Some(audit) && !Closes(t[m])
    ensures Read(initial, t[..m + 1]).open == Some(audit)
    ensures !t[m].request.Inspect? && !t[m].request.PersistIrreversible?
  {
    assert Permits(Read(initial, t[..m]), t[m].request);
    assert t[..m + 1][..m] == t[..m];
  }

  /** The audit left open before each position, and at the end. */
  function Opens(initial: Progress, t: seq<Call>): (opens: seq<Option<IrreversibleAudit>>)
    ensures |opens| == |t| + 1
  {
    seq(|t| + 1, k requires 0 <= k <= |t| => Read(initial, t[..k]).open)
  }

  /** An audit that is open and finally is not was closed at the first closing call. */
  lemma {:induction false} FirstClosing(t: seq<Call>, opens: seq<Option<IrreversibleAudit>>, i: nat, m: nat,
                                        audit: IrreversibleAudit)
    returns (j: nat)
    requires |opens| == |t| + 1 && opens[|t|].None?
    requires i < m <= |t| && opens[m] == Some(audit) && Quiet(t, i, m)
    requires forall x :: 0 <= x < |t| && opens[x] == Some(audit) && !Closes(t[x]) ==>
               opens[x + 1] == Some(audit) && !t[x].request.Inspect? && !t[x].request.PersistIrreversible?
    ensures i < j < |t| && Closes(t[j]) && opens[j] == Some(audit) && Quiet(t, i, j)
    decreases |t| - m
  {
    if Closes(t[m]) {
      j := m;
    } else {
      j := FirstClosing(t, opens, i, m + 1, audit);
    }
  }

  lemma PersistedIsOpen(initial: Progress, t: seq<Call>, i: nat, audit: IrreversibleAudit)
    requires IrreversiblePersisted(t, i, audit)
    ensures Read(initial, t[..i + 1]).open == Some(audit)
  {
    assert t[..i + 1][..i] == t[..i];
  }

  lemma OpensFollowTheLedger(initial: Progress, t: seq<Call>, i: nat, audit: IrreversibleAudit)
    requires Disciplined(initial, t) && IrreversiblePersisted(t, i, audit)
    ensures var opens := Opens(initial, t);
            && opens[|t|] == Read(initial, t).open
            && opens[i + 1] == Some(audit)
            && (forall x :: 0 <= x < |t| && opens[x] == Some(audit) && !Closes(t[x]) ==>
                  opens[x + 1] == Some(audit) && !t[x].request.Inspect? && !t[x].request.PersistIrreversible?)
    ensures forall x :: 0 <= x <= |t| ==> Opens(initial, t)[x] == Read(initial, t[..x]).open
  {
    var opens := Opens(initial, t);
    assert t[..|t|] == t;
    PersistedIsOpen(initial, t, i, audit);
    forall x | 0 <= x < |t| && opens[x] == Some(audit) && !Closes(t[x])
      ensures opens[x + 1] == Some(audit) && !t[x].request.Inspect? && !t[x].request.PersistIrreversible?
    {
      StaysOpen(initial, t, x, audit);
    }
  }

  /**
   * Every irreversible audit that was persisted gets exactly one finalize or fail
   * attempt: one before the next inspection, a finalize exactly when the audited
   * step was verified since, and none after it until another audit is persisted.
   */
  lemma EveryAuditIsClosedOnce(initial: Progress, t: seq<Call>, i: nat, audit: IrreversibleAudit)
    requires Disciplined(initial, t) && Read(initial, t).open.None?
    requires IrreversiblePersisted(t, i, audit)
    ensures exists j :: ClosedAt(t, i, j, audit)
  {
    var opens := Opens(initial, t);
    OpensFollowTheLedger(initial, t, i, audit);
    var j := FirstClosing(t, opens, i, i + 1, audit);
    assert opens[j] == Read(initial, t[..j]).open;
    ClosingIsTruthful(initial, t, i, j, audit);
    CloseIsLast(initial, t, j);
    assert ClosedAt(t, i, j, audit);
  }

  /** The audit persisted at i is what the close attempt at j closes, the first after it, within one step attempt. */
  predicate OwedBy(t: seq<Call>, i: int, j: int, audit: IrreversibleAudit)
    requires 0 <= j < |t|
  {
    && IrreversiblePersisted(t[..j], i, audit)
    && Quiet(t, i, j)
    && (t[j].request.FinalizeIrreversible? ==> t[j].request.final.SameSubject(audit))
    && (t[j].request.FailIrreversible? ==> t[j].request.failed.SameSubject(audit))
  }

  lemma StillOpen(l: Ledger, c: Call)
    requires Permits(l, c.request) && Observe(l, c).open.Some?
    ensures if c.request.PersistIrreversible? && c.reply.ok then Observe(l, c).open == Some(c.request.pending)
            else Observe(l, c).open == l.open && !Closes(c) && !c.request.Inspect? && !c.request.PersistIrreversible?
  {
  }

  lemma ReadStep(initial: Progress, t: seq<Call>, n: nat)
    requires Disciplined(initial, t) && n < |t|
    ensures Read(initial, t[..n + 1]) == Observe(Read(initial, t[..n]), t[n])
    ensures Permits(Read(initial, t[..n]), t[n].request)
  {
    assert t[..n + 1][..n] == t[..n];
  }

  predicate OpenedAt(t: seq<Call>, i: int, m: int, audit: IrreversibleAudit) {
    i < m && IrreversiblePersisted(t, i, audit) && Quiet(t, i, m)
  }

  /** How the open audit before position x and after it are related. */
  predicate OpensStep(t: seq<Call>, opens: seq<Option<IrreversibleAudit>>, x: int)
    requires 0 <= x < |t| && |opens| == |t| + 1
  {
    opens[x + 1].Some? ==>
      if t[x].request.PersistIrreversible? && t[x].reply.ok then opens[x + 1] == Some(t[x].request.pending)
      else opens[x + 1] == opens[x] && !Closes(t[x]) && !t[x].request.Inspect? && !t[x].request.PersistIrreversible?
  }

  /** An open audit was persisted, and since then nothing was closed, inspected or opened. */
  lemma {:induction false} LastOpening(t: seq<Call>, opens: seq<Option<IrreversibleAudit>>, m: nat,
                                       audit: IrreversibleAudit)
    requires |opens| == |t| + 1 && opens[0].None?
    requires forall x :: 0 <= x < |t| ==> OpensStep(t, opens, x)
    requires m <= |t| && opens[m] == Some(audit)
    ensures exists i :: OpenedAt(t, i, m, audit)
    decreases m
  {
    assert OpensStep(t, opens, m - 1);
    if t[m - 1].request.PersistIrreversible? && t[m - 1].reply.ok {
      assert OpenedAt(t, m - 1, m, audit);
    } else {
      LastOpening(t, opens, m - 1, audit);
      var i :| OpenedAt(t, i, m - 1, audit);
      assert OpenedAt(t, i, m, audit);
    }
  }

  lemma OpenedQuietly(initial: Progress, t: seq<Call>, m: nat, audit: IrreversibleAudit)
    requires Disciplined(initial, t) && m <= |t| && Read(initial, t[..m]).open == Some(audit)
    ensures exists i :: OpenedAt(t, i, m, audit)
  {
    var opens := Opens(initial, t);
    forall x | 0 <= x < |t| ensures OpensStep(t, opens, x) {
      ReadStep(initial, t, x);
      if opens[x + 1].Some? {
        StillOpen(Read(initial, t[..x]), t[x]);
      }
    }
    assert t[..0] == [];
    LastOpening(t, opens, m, audit);
  }

  /** No close attempt without a pending audit, persisted in the same step attempt, that it closes. */
  lemma ClosesAreOwed(initial: Progress, t: seq<Call>, j: nat)
    requires Disciplined(initial, t) && j < |t| && Closes(t[j])
    ensures exists i, audit :: OwedBy(t, i, j, audit)
  {
    var l := Read(initial, t[..j]);
    assert Permits(l, t[j].request);
    OpenedQuietly(initial, t, j, l.open.value);
    var i :| OpenedAt(t, i, j, l.open.value);
    assert t[..j][i] == t[i];
    assert OwedBy(t, i, j, l.open.value);
  }
}
