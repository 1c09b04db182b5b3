/** Typed recovery audits for mutations that are not restorable byte for byte. */
module Audit {
  import opened Text

  datatype RecoveryRequirement = LosslessBackup | RebuildableAuditing | ManualRecoveryAuditing | Mixed

  datatype RebuildableTarget = Cs2ShaderCache | NvidiaDxCache | NvidiaGlCache | DirectxD3dCache

  const P1_3_REBUILDABLE_TARGETS: seq<RebuildableTarget> :=
    [Cs2ShaderCache, NvidiaDxCache, NvidiaGlCache, DirectxD3dCache]

  datatype AuditOutcome = Pending | Verified(finalizedAt: string) | Failed(failedAt: string)

  datatype RebuildableAudit = RebuildableAudit(
    step: string, capturedAt: string, targets: seq<RebuildableTarget>, outcome: AuditOutcome)
  {
    predicate IsValidPendingFor(key: string) {
      && outcome.Pending?
      && step == key
      && capturedAt != ""
      && targets != []
      && targets == DeduplicatedTargets(targets)
      && (key == "P1:3" ==> targets == P1_3_REBUILDABLE_TARGETS)
    }

    function Finalized(at: string): RebuildableAudit {
      this.(outcome := Verified(at))
    }
  }

  function TargetRank(t: RebuildableTarget): nat {
    match t
    case Cs2ShaderCache => 0
    case NvidiaDxCache => 1
    case NvidiaGlCache => 2
    case DirectxD3dCache => 3
  }

  /** The keys of the ordered map the source collects the targets into. */
  function DeduplicatedTargets(targets: seq<RebuildableTarget>): seq<RebuildableTarget> {
    Present(P1_3_REBUILDABLE_TARGETS, targets)
  }

  /** The entries of an ordered list that occur among the targets. */
  function Present(ordered: seq<RebuildableTarget>, targets: seq<RebuildableTarget>): seq<RebuildableTarget> {
    if ordered == [] then []
    else (if ordered[0] in targets then [ordered[0]] else []) + Present(ordered[1..], targets)
  }

  predicate StrictlyOrdered(targets: seq<RebuildableTarget>) {
    forall i, j :: 0 <= i < j < |targets| ==> TargetRank(targets[i]) < TargetRank(targets[j])
  }

  /** Deduplication keeps the set, orders it, and so is the only canonical form of it. */
  lemma DeduplicationIsCanonical(targets: seq<RebuildableTarget>)
    ensures StrictlyOrdered(DeduplicatedTargets(targets))
    ensures forall t :: t in DeduplicatedTargets(targets) <==> t in targets
    ensures StrictlyOrdered(targets) ==> targets == DeduplicatedTargets(targets)
  {
    PresentIsOrdered(P1_3_REBUILDABLE_TARGETS, targets);
    forall t ensures t in DeduplicatedTargets(targets) <==> t in targets {
      EveryTargetIsListed(t);
    }
    if StrictlyOrdered(targets) {
      OrderedSequencesAgree(targets, DeduplicatedTargets(targets));
    }
  }

  lemma EveryTargetIsListed(t: RebuildableTarget)
    ensures t in P1_3_REBUILDABLE_TARGETS
  {
    assert P1_3_REBUILDABLE_TARGETS[TargetRank(t)] == t;
  }

  lemma {:induction false} PresentIsOrdered(ordered: seq<RebuildableTarget>, targets: seq<RebuildableTarget>)
    requires StrictlyOrdered(ordered)
    ensures StrictlyOrdered(Present(ordered, targets))
    ensures forall t :: t in Present(ordered, targets) <==> t in ordered && t in targets
  {
    if ordered != [] {
      PresentIsOrdered(ordered[1..], targets);
      OneBeforeOrdered(ordered, Present(ordered[1..], targets));
      assert [] + Present(ordered[1..], targets) == Present(ordered[1..], targets);
    }
  }

  lemma OneBeforeOrdered(ordered: seq<RebuildableTarget>, rest: seq<RebuildableTarget>)
    requires ordered != [] && StrictlyOrdered(ordered) && StrictlyOrdered(rest)
    requires forall t <- rest :: t in ordered[1..]
    ensures StrictlyOrdered([ordered[0]] + rest)
    ensures forall t :: t in ordered <==> t == ordered[0] || t in ordered[1..]
  {
    assert ordered == [ordered[0]] + ordered[1..];
    forall i | 0 <= i < |rest| ensures TargetRank(ordered[0]) < TargetRank(rest[i]) {
      assert rest[i] in rest;
      var j :| 0 <= j < |ordered[1..]| && ordered[1..][j] == rest[i];
      assert ordered[j + 1] == rest[i];
    }
  }

  lemma TailMembers(a: seq<RebuildableTarget>, t: RebuildableTarget)
    requires a != [] && StrictlyOrdered(a)
    ensures t in a[1..] <==> t in a && t != a[0]
  {
    if t in a && t != a[0] {
      var i :| 0 <= i < |a| && a[i] == t;
      assert a[1..][i - 1] == t;
    }
  }

  lemma {:induction false} OrderedSequencesAgree(a: seq<RebuildableTarget>, b: seq<RebuildableTarget>)
    requires StrictlyOrdered(a) && StrictlyOrdered(b)
    requires forall t :: t in a <==> t in b
    ensures a == b
  {
    assert forall i :: 0 <= i < |a| ==> a[i] in b;
    assert forall i :: 0 <= i < |b| ==> b[i] in a;
    if a != [] && b != [] {
      assert a[0] == b[0] by {
        TailMembers(a, b[0]);
        TailMembers(b, a[0]);
      }
      forall t ensures t in a[1..] <==> t in b[1..] {
        TailMembers(a, t);
        TailMembers(b, t);
      }
      OrderedSequencesAgree(a[1..], b[1..]);
      assert a == [a[0]] + a[1..] && b == [b[0]] + b[1..];
    }
  }

  datatype ManualRecoveryTarget = AppxRemovals | ExactDriverPackageRemoval | DriverInstallation

  datatype AppxRemovalSubject = Installed(name: string) | Provisioned(name: string)

  /** A manual audit has no subject list; a mixed one may carry AppX subjects. */
  datatype IrreversibleAudit =
    | ManualAudit(step: string, capturedAt: string, target: ManualRecoveryTarget, outcome: AuditOutcome)
    | MixedAudit(step: string, capturedAt: string, target: ManualRecoveryTarget,
                 subjects: seq<AppxRemovalSubject>, outcome: AuditOutcome)
  {
    predicate IsValidPendingFor(requirement: RecoveryRequirement, key: string) {
      && (match this
          case ManualAudit(_, _, _, _) => requirement.ManualRecoveryAuditing?
          case MixedAudit(_, _, _, _, _) => requirement.Mixed?)
      && step == key
      && capturedAt != ""
      && outcome.Pending?
      && HasExpectedTarget(key, target)
      && (MixedAudit? && key == "P1:13" ==> AppxSubjectsAreValid(subjects))
    }

    function Finalized(at: string): IrreversibleAudit {
      this.(outcome := Verified(at))
    }

    function FailedAt(at: string): IrreversibleAudit {
      this.(outcome := Failed(at))
    }

    /** The same audit apart from its outcome. */
    predicate SameSubject(other: IrreversibleAudit) {
      this.(outcome := Pending) == other.(outcome := Pending)
    }
  }

  predicate HasExpectedTarget(key: string, target: ManualRecoveryTarget) {
    || (key == "P1:13" && target.AppxRemovals?)
    || (key == "P2:2" && target.ExactDriverPackageRemoval?)
    || (key == "P3:1" && target.DriverInstallation?)
  }

  predicate SubjectBelow(a: AppxRemovalSubject, b: AppxRemovalSubject) {
    if a.Installed? != b.Installed? then a.Installed? else TextBelow(a.name, b.name)
  }

  predicate AppxSubjectsAreValid(subjects: seq<AppxRemovalSubject>) {
    && (forall s <- subjects :: 0 < |s.name| <= 1024)
    && forall i :: 0 < i < |subjects| ==> SubjectBelow(subjects[i - 1], subjects[i])
  }

  // ---------------------------------------------------------------------
  // What a pending audit must be, exactly
  // ---------------------------------------------------------------------

  lemma RankIsAtLeastIndex(targets: seq<RebuildableTarget>, i: nat)
    requires StrictlyOrdered(targets) && i < |targets|
    ensures TargetRank(targets[i]) >= i
  {
    if i > 0 {
      RankIsAtLeastIndex(targets, i - 1);
    }
  }

  /** Strictly ordered targets are at most the four there are, and all four if they are four. */
  lemma FourTargetsAreAll(targets: seq<RebuildableTarget>)
    requires StrictlyOrdered(targets)
    ensures |targets| <= 4
    ensures |targets| == 4 <==> targets == [Cs2ShaderCache, NvidiaDxCache, NvidiaGlCache, DirectxD3dCache]
  {
    if targets != [] {
      RankIsAtLeastIndex(targets, |targets| - 1);
    }
    if |targets| == 4 {
      assert TargetRank(targets[0]) < TargetRank(targets[1]) < TargetRank(targets[2]) < TargetRank(targets[3]);
    }
  }

  /** Pending for its own step, dated, with some targets, each once and in order; all four of them for P1:3. */
  lemma PendingRebuildableMeans(audit: RebuildableAudit, key: string)
    ensures audit.IsValidPendingFor(key) <==>
              && audit.outcome.Pending? && audit.step == key && audit.capturedAt != ""
              && audit.targets != [] && StrictlyOrdered(audit.targets) && (key == "P1:3" ==> |audit.targets| == 4)
  {
    DeduplicationIsCanonical(audit.targets);
    if StrictlyOrdered(audit.targets) {
      FourTargetsAreAll(audit.targets);
    }
  }

  /** Named subjects, installed before provisioned, ascending and so none twice. */
  predicate SubjectsAscend(subjects: seq<AppxRemovalSubject>) {
    && (forall s <- subjects :: 1 <= |s.name| <= 1024)
    && forall i, j :: 0 <= i < j < |subjects| ==>
         || (subjects[i].Installed? && subjects[j].Provisioned?)
         || (subjects[i].Installed? == subjects[j].Installed? && TextBelow(subjects[i].name, subjects[j].name))
  }

  lemma {:induction false} NeighboursAscend(subjects: seq<AppxRemovalSubject>, i: nat, j: nat)
    requires i < j < |subjects| && forall k :: 0 < k < |subjects| ==> SubjectBelow(subjects[k - 1], subjects[k])
    ensures SubjectBelow(subjects[i], subjects[j])
    decreases j
  {
    if i < j - 1 {
      NeighboursAscend(subjects, i, j - 1);
      if subjects[i].Installed? == subjects[j - 1].Installed? == subjects[j].Installed? {
        TextOrderIsTransitive(subjects[i].name, subjects[j - 1].name, subjects[j].name);
      }
    }
  }

  lemma SubjectsMean(subjects: seq<AppxRemovalSubject>)
    ensures AppxSubjectsAreValid(subjects) <==> SubjectsAscend(subjects)
  {
    if AppxSubjectsAreValid(subjects) {
      forall i, j | 0 <= i < j < |subjects| ensures SubjectBelow(subjects[i], subjects[j]) {
        NeighboursAscend(subjects, i, j);
      }
    }
  }

  /** Pending for its own step, dated, of the demanded kind and with that step's target; AppX subjects in order. */
  lemma PendingIrreversibleMeans(audit: IrreversibleAudit, requirement: RecoveryRequirement, key: string)
    ensures audit.IsValidPendingFor(requirement, key) <==>
              && audit.outcome.Pending? && audit.step == key && audit.capturedAt != ""
              && (if audit.MixedAudit? then requirement.Mixed? else requirement.ManualRecoveryAuditing?)
              && (match audit.target
                  case AppxRemovals => key == "P1:13"
                  case ExactDriverPackageRemoval => key == "P2:2"
                  case DriverInstallation => key == "P3:1")
              && (audit.MixedAudit? && audit.target.AppxRemovals? ==> SubjectsAscend(audit.subjects))
  {
    if audit.MixedAudit? {
      SubjectsMean(audit.subjects);
    }
  }
}
