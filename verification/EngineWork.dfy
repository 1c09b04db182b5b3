/** An engine run over steps of one phase is the work the reboot protocol takes it for. */
module EngineWork {
  import opened Policy
  import opened Catalog
  import opened ProgressModel
  import opened Backend
  import opened EngineSpec
  import opened EngineAccounting
  import RebootProtocol

  /**
   * Halted or not, a live run leaves the progress that resolving some of its steps,
   * each fresh and once, in order, leaves.
   */
  lemma {:induction false} EngineRunIsWork(o: Oracle, s: Session, steps: seq<Step>, profile: Profile, phase: Phase)
    returns (work: RebootProtocol.Work)
    requires forall step <- steps :: step.id.phase == phase && RoleOf(step.id).EngineStep?
    ensures RebootProtocol.WorkFits(s.progress, work, phase)
    ensures RunSteps(o, false, s, steps, profile).session.progress == RebootProtocol.Worked(s.progress, work)
    ensures forall w <- work :: exists step <- steps :: step.id == w.0
    decreases |steps|
  {
    work := [];
    if steps != [] {
      var step := steps[0];
      LiveStepOutcome(o, s, step, profile);
      var first := RunStep(o, false, s, step, profile);
      if first.Going? {
        assert forall x <- steps[1..] :: x in steps;
        var more := EngineRunIsWork(o, first.session, steps[1..], profile, phase);
        if s.progress.Recorded(ProgressKey(step.id)) {
          work := more;
        } else {
          var how :| first.session.progress == Resolve(s.progress, step.id, how) && first.session.report == Counted(s.report, how);
          work := [(step.id, how)] + more;
          assert work[1..] == more;
        }
      }
    }
  }
}
