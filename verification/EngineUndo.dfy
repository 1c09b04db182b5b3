/** The log undoes everything: over any sessions, with any failures and retries. */
module EngineUndo {
  import opened Wrappers
  import opened Policy
  import opened Catalog
  import opened ProgressModel
  import opened Backup
  import opened UndoLog
  import opened NativeCaptures
  import opened Backend
  import opened EngineSpec
  import opened EngineLedger
  import opened EngineDiscipline

  /** The places an apply of the step may change and must be able to restore. */
  type Footprint = Step -> set<Location>

  predicate CapturesStep(words: Vocabulary, entries: seq<BackupEntry>, m: Machine, places: set<Location>) {
    && Speaks(words, entries)
    && (forall e <- entries :: Accurate(e, m))
    && (forall l <- places :: Covers(entries, l))
  }

  /**
   * What the trait asks of a backend: a capture records the current value of every
   * place the step's apply may write, an apply writes nowhere else, and only a step
   * without restorable places asks for an audit instead of backups. Every call may
   * still fail, and a failing apply may have written any part of its footprint.
   * The vocabulary holds the entries the backend may answer.
   */
  ghost predicate Faithful(o: Oracle, footprint: Footprint, words: Vocabulary) {
    && (forall w, step :: o(w, CaptureBackups(step)).ok ==>
          CapturesStep(words, o(w, CaptureBackups(step)).entries, w.machine, footprint(step)))
    && (forall w, step :: o(w, Apply(step)).writes.Keys <= footprint(step))
    && (forall w, step ::
          var recovery := o(w, AskRecovery(step)).recovery;
          recovery.RebuildableAuditing? || recovery.ManualRecoveryAuditing? ==> footprint(step) == {})
  }

  ghost predicate LogIsSound(original: Machine, words: Vocabulary, w: World) {
    Speaks(words, w.log) && SoundLog(original, w.machine, w.log)
  }

  /** The ledger's promises about the machine and the log. */
  ghost predicate Backed(footprint: Footprint, words: Vocabulary, w: World, l: Ledger) {
    && (l.captured.Some? ==> l.subject.Some? && CapturesStep(words, l.captured.value, w.machine, footprint(l.subject.value)))
    && (l.backups ==> l.subject.Some? && forall x <- footprint(l.subject.value) :: Covers(w.log, x))
    && (l.recovery.Some? && (l.recovery.value.RebuildableAuditing? || l.recovery.value.ManualRecoveryAuditing?)
        ==> l.subject.Some? && footprint(l.subject.value) == {})
  }

  lemma PersistKeepsSound(original: Machine, footprint: Footprint, words: Vocabulary, w: World, l: Ledger,
                          entries: seq<BackupEntry>)
    requires LogIsSound(original, words, w) && Backed(footprint, words, w, l) && l.captured == Some(entries)
    requires Unambiguous(words)
    ensures Speaks(words, PushAll(w.log, entries)) && SoundLog(original, w.machine, PushAll(w.log, entries))
    ensures forall x <- footprint(l.subject.value) :: Covers(PushAll(w.log, entries), x)
    ensures forall x :: Covers(w.log, x) ==> Covers(PushAll(w.log, entries), x)
  {
    PushAllIsSound(original, w.machine, w.log, entries);
    PushAllSpeaks(words, w.log, entries);
    UnambiguousLosesNothing(words, w.log, entries);
    NothingLostIsCoverage(w.log, entries);
    forall x | x in footprint(l.subject.value) ensures Covers(PushAll(w.log, entries), x) {
      assert Covers(entries, x);
    }
    forall x | Covers(w.log, x) ensures Covers(PushAll(w.log, entries), x) {
      RetryNeverDisplacesOriginal(w.log, entries, x);
    }
  }

  lemma ApplyKeepsSound(original: Machine, o: Oracle, footprint: Footprint, words: Vocabulary, w: World, l: Ledger,
                        step: Step)
    requires Faithful(o, footprint, words) && LogIsSound(original, words, w) && Backed(footprint, words, w, l)
    requires Permits(l, Apply(step))
    ensures SoundLog(original, Write(w.machine, o(w, Apply(step)).writes), w.log)
  {
    var writes := o(w, Apply(step)).writes;
    assert writes.Keys <= footprint(step);
    forall x | x in writes ensures Covers(w.log, x) {
      assert x in footprint(step);
    }
    CoveredWritesAreSound(original, w.machine, w.log, writes);
  }

  lemma CallKeepsSound(original: Machine, o: Oracle, footprint: Footprint, words: Vocabulary, w: World, l: Ledger,
                       r: Request)
    requires Faithful(o, footprint, words) && Unambiguous(words)
    requires LogIsSound(original, words, w) && Backed(footprint, words, w, l) && Permits(l, r)
    ensures LogIsSound(original, words, After(w, r, o(w, r)))
    ensures Backed(footprint, words, After(w, r, o(w, r)), Observe(l, Call(r, o(w, r))))
  {
    if r.Apply? {
      ApplyKeepsSound(original, o, footprint, words, w, l, r.step);
    } else if r.PersistBackups? {
      PersistKeepsSound(original, footprint, words, w, l, r.entries);
    } else if r.AskRecovery? {
      var recovery := o(w, AskRecovery(r.step)).recovery;
    } else if r.CaptureBackups? {
      var reply := o(w, CaptureBackups(r.step));
    }
  }

  /** Along a disciplined trace of a faithful backend the log stays sound. */
  lemma {:induction false} DisciplinedRunsStaySound(original: Machine, o: Oracle, footprint: Footprint,
                                                    words: Vocabulary, initial: Progress, start: World, w: World)
    requires Faithful(o, footprint, words) && Unambiguous(words)
    requires LogIsSound(original, words, start) && start.trace == []
    requires Genuine(o, start, w) && Disciplined(initial, w.trace)
    ensures LogIsSound(original, words, w) && Backed(footprint, words, w, Read(initial, w.trace))
    decreases |w.trace|
  {
    var requests := Requests(w.trace);
    if requests != [] {
      var n := |requests| - 1;
      var v := Rerun(o, start, requests[..n]);
      RerunTrace(o, start, requests[..n]);
      var r := requests[n];
      assert w == After(v, r, o(v, r));
      assert v.trace == w.trace[..n];
      assert forall i :: 0 <= i < n ==> w.trace[..n][..i] == w.trace[..i];
      DisciplinedRunsStaySound(original, o, footprint, words, initial, start, v);
      CallKeepsSound(original, o, footprint, words, v, Read(initial, v.trace), r);
    }
  }

  lemma RunKeepsLogSound(original: Machine, o: Oracle, footprint: Footprint, words: Vocabulary, dry: bool, w: World,
                         progress: Progress, steps: seq<Step>, profile: Profile)
    requires Faithful(o, footprint, words) && Unambiguous(words) && LogIsSound(original, words, w)
    ensures LogIsSound(original, words, RunSteps(o, dry, StartOf(w, progress), steps, profile).session.world)
  {
    var s := StartOf(w, progress);
    var genuine := world => Genuine(o, s.world, world);
    forall v, r | genuine(v) ensures genuine(After(v, r, o(v, r))) {
      ExtendGenuine(o, s.world, v, r);
    }
    assert Requests([]) == [];
    var c := Context(o, genuine, progress);
    assert c.Valid();
    RunIsDisciplined(c, dry, s, steps, profile);
    var end := RunSteps(o, dry, s, steps, profile).session.world;
    assert genuine(end);
    DisciplinedRunsStaySound(original, o, footprint, words, progress, s.world, end);
  }

  /** One engine session: its own backend, progress as loaded, steps and profile. */
  datatype SessionPlan = SessionPlan(oracle: Oracle, dry: bool, progress: Progress, steps: seq<Step>, profile: Profile)

  /** Sessions one after the other. Each may stop anywhere; only machine, log and disk carry over. */
  function RunSessions(w: World, plans: seq<SessionPlan>): World
    decreases |plans|
  {
    if plans == [] then w
    else
      var p := plans[0];
      RunSessions(RunSteps(p.oracle, p.dry, StartOf(w, p.progress), p.steps, p.profile).session.world, plans[1..])
  }

  lemma {:induction false} SessionsKeepLogSound(original: Machine, footprint: Footprint, words: Vocabulary,
                                                w: World, plans: seq<SessionPlan>)
    requires LogIsSound(original, words, w)
    requires Unambiguous(words) && forall p <- plans :: Faithful(p.oracle, footprint, words)
    ensures LogIsSound(original, words, RunSessions(w, plans))
    decreases |plans|
  {
    if plans != [] {
      var p := plans[0];
      RunKeepsLogSound(original, p.oracle, footprint, words, p.dry, w, p.progress, p.steps, p.profile);
      SessionsKeepLogSound(original, footprint, words,
                           RunSteps(p.oracle, p.dry, StartOf(w, p.progress), p.steps, p.profile).session.world, plans[1..]);
    }
  }

  /**
   * Starting with an empty log, after any number of live, dry, failed, cancelled or
   * retried sessions, replaying the log newest entry first gives back the whole
   * machine as it was before the first session. The entries captured may be of any
   * vocabulary in which one identity always means the same places.
   */
  lemma LogUndoesEverything(footprint: Footprint, words: Vocabulary, w: World, plans: seq<SessionPlan>)
    requires w.log == [] && Unambiguous(words)
    requires forall p <- plans :: Faithful(p.oracle, footprint, words)
    ensures var end := RunSessions(w, plans); Replay(end.log, end.machine) == w.machine
  {
    SessionsKeepLogSound(w.machine, footprint, words, w, plans);
    var end := RunSessions(w, plans);
    ReplayRestores(w.machine, end.machine, end.log);
  }

  /** So it is for backends that answer what the native backend captures, P1:30 included. */
  lemma NativeLogUndoesEverything(footprint: Footprint, w: World, plans: seq<SessionPlan>)
    requires w.log == []
    requires forall p <- plans :: Faithful(p.oracle, footprint, NativeVocabulary())
    ensures var end := RunSessions(w, plans); Replay(end.log, end.machine) == w.machine
  {
    NativeCapturesAreUnambiguous();
    LogUndoesEverything(footprint, NativeVocabulary(), w, plans);
  }
}
