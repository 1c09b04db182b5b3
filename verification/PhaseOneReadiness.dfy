/** When a finished Phase 1 run may hand over to the reboot transaction. */
module PhaseOneReadiness {
  import opened Policy
  import opened Catalog
  import opened ProgressModel
  import opened Orchestration
  import opened Backend
  import opened EngineSpec
  import opened EngineAccounting

  function EngineRows(rows: seq<Step>): seq<Step> {
    if rows == [] then []
    else (if rows[0].role.EngineStep? then [rows[0]] else []) + EngineRows(rows[1..])
  }

  lemma {:induction false} EngineRowsAreFiltered(rows: seq<Step>)
    ensures forall step :: step in EngineRows(rows) <==> step in rows && step.role.EngineStep?
  {
    if rows != [] {
      EngineRowsAreFiltered(rows[1..]);
      assert forall step :: step in rows <==> step == rows[0] || step in rows[1..];
    }
  }

  /** No advisory stands where a readiness check would not accept it. */
  predicate OnlyAuthorizedAdvisories(p: Progress, steps: seq<Step>) {
    forall step <- steps :: p.HasAdvisory(step.id) ==> AdvisoryIsAuthorized(step.id)
  }

  lemma ReadyWithoutAdvisory(p: Progress, id: StepId)
    requires p.Disjoint() && p.Recorded(ProgressKey(id))
    ensures IsReady(p, id) <==> (p.HasAdvisory(id) ==> AdvisoryIsAuthorized(id))
  {
  }

  lemma ReadinessOver(p: Progress, rows: seq<Step>)
    requires p.Disjoint() && forall step <- EngineRows(rows) :: p.Recorded(ProgressKey(step.id))
    ensures FirstNotReady(p, rows).None? <==> OnlyAuthorizedAdvisories(p, EngineRows(rows))
  {
    EngineRowsAreFiltered(rows);
    forall step | step in EngineRows(rows)
      ensures IsReady(p, step.id) <==> (p.HasAdvisory(step.id) ==> AdvisoryIsAuthorized(step.id))
    {
      ReadyWithoutAdvisory(p, step.id);
    }
  }

  /**
   * From disjoint progress, after any successful live run over the Phase 1 engine
   * steps, the handoff is ready exactly when no step but P1:2 and P1:9 stands as an
   * advisory; the three progress sets are disjoint again.
   */
  lemma ReadinessCharacterised(o: Oracle, s: Session, profile: Profile)
    requires s.progress.Disjoint()
    requires RunSteps(o, false, s, EngineRows(Rows(One)), profile).Going?
    ensures var p := RunSteps(o, false, s, EngineRows(Rows(One)), profile).session.progress;
            && p.Disjoint()
            && (RequirePhaseOneHandoffReady(p).Ok? <==> OnlyAuthorizedAdvisories(p, EngineRows(Rows(One))))
  {
    ReadinessAfterRun(o, s, Rows(One), profile);
  }

  lemma ReadinessAfterRun(o: Oracle, s: Session, rows: seq<Step>, profile: Profile)
    requires s.progress.Disjoint()
    requires RunSteps(o, false, s, EngineRows(rows), profile).Going?
    ensures var p := RunSteps(o, false, s, EngineRows(rows), profile).session.progress;
            p.Disjoint() && (FirstNotReady(p, rows).None? <==> OnlyAuthorizedAdvisories(p, EngineRows(rows)))
  {
    RunRecordsEveryStep(o, s, EngineRows(rows), profile);
    ReadinessOver(RunSteps(o, false, s, EngineRows(rows), profile).session.progress, rows);
  }
}
