/** Persisted progress: completed, skipped and advisory step keys. */
module ProgressModel {
  import opened Text
  import opened Catalog

  /** The persisted value. Advisories carry only their reason text. */
  datatype Progress = Progress(
    phase: nat,
    lastCompletedStep: nat,
    lastSkippedStep: nat,
    completed: set<string>,
    skipped: set<string>,
    timestamps: map<string, string>,
    advisories: map<string, string>)
  {
    predicate IsCompleted(id: StepId) {
      ProgressKey(id) in completed
    }

    predicate IsSkipped(id: StepId) {
      ProgressKey(id) in skipped
    }

    predicate HasAdvisory(id: StepId) {
      ProgressKey(id) in advisories
    }

    /** The key was recorded in any way, so the engine will not run it again. */
    predicate Recorded(key: string) {
      key in completed || key in skipped || key in advisories
    }

    /** No key carries two resolutions. Decoded files need not have this shape. */
    predicate Disjoint() {
      completed !! skipped && completed !! advisories.Keys && skipped !! advisories.Keys
    }

    function RecordedKeys(): set<string> {
      completed + skipped + advisories.Keys
    }
  }

  /** `"{phase}-{step}"`, the timestamp map's key. */
  function TimestampKey(id: StepId): string {
    Decimal(id.phase.Number()) + "-" + Decimal(id.number)
  }

  function Completing(p: Progress, id: StepId, timestamp: string): Progress {
    p.(completed := p.completed + {ProgressKey(id)},
       skipped := p.skipped - {ProgressKey(id)},
       advisories := p.advisories - {ProgressKey(id)},
       timestamps := p.timestamps[TimestampKey(id) := timestamp],
       phase := id.phase.Number(),
       lastCompletedStep := id.number)
  }

  function Skipping(p: Progress, id: StepId): Progress {
    p.(completed := p.completed - {ProgressKey(id)},
       skipped := p.skipped + {ProgressKey(id)},
       advisories := p.advisories - {ProgressKey(id)},
       phase := id.phase.Number(),
       lastSkippedStep := if p.lastSkippedStep < id.number then id.number else p.lastSkippedStep)
  }

  function Acknowledging(p: Progress, id: StepId, reason: string): Progress {
    p.(completed := p.completed - {ProgressKey(id)},
       skipped := p.skipped - {ProgressKey(id)},
       advisories := p.advisories[ProgressKey(id) := reason],
       phase := id.phase.Number())
  }

  /** One of the three in-place resolutions of a step. */
  datatype Resolution = AsCompleted(timestamp: string) | AsSkipped | AsAdvisory(reason: string)

  function Resolve(p: Progress, id: StepId, how: Resolution): Progress {
    match how
    case AsCompleted(timestamp) => Completing(p, id, timestamp)
    case AsSkipped => Skipping(p, id)
    case AsAdvisory(reason) => Acknowledging(p, id, reason)
  }

  /**
   * A resolution leaves its key in exactly one of the three sets, whatever held
   * it before, and moves no other key. Disjointness is therefore inductive.
   */
  lemma ResolutionIsExclusive(p: Progress, id: StepId, how: Resolution)
    ensures var q := Resolve(p, id, how);
            && (ProgressKey(id) in q.completed <==> how.AsCompleted?)
            && (ProgressKey(id) in q.skipped <==> how.AsSkipped?)
            && (ProgressKey(id) in q.advisories <==> how.AsAdvisory?)
    ensures forall key | key != ProgressKey(id) ::
              var q := Resolve(p, id, how);
              && (key in q.completed <==> key in p.completed)
              && (key in q.skipped <==> key in p.skipped)
              && (key in q.advisories <==> key in p.advisories)
              && (key in p.advisories ==> q.advisories[key] == p.advisories[key])
    ensures p.Disjoint() ==> Resolve(p, id, how).Disjoint()
  {
  }

  function With(keys: set<string>, key: string, added: bool): set<string> {
    if added then keys + {key} else keys
  }

  lemma WithCounts(keys: set<string>, key: string, added: bool)
    requires key !in keys
    ensures |With(keys, key, added)| == |keys| + (if added then 1 else 0)
  {
  }

  lemma FreshResolutionSets(p: Progress, id: StepId, how: Resolution)
    requires !p.Recorded(ProgressKey(id))
    ensures Resolve(p, id, how).completed == With(p.completed, ProgressKey(id), how.AsCompleted?)
    ensures Resolve(p, id, how).skipped == With(p.skipped, ProgressKey(id), how.AsSkipped?)
    ensures Resolve(p, id, how).advisories.Keys == With(p.advisories.Keys, ProgressKey(id), how.AsAdvisory?)
    ensures Resolve(p, id, how).RecordedKeys() == With(p.RecordedKeys(), ProgressKey(id), true)
  {
  }

  /** Resolving a fresh key adds exactly one key to exactly one set. */
  lemma FreshResolutionGrowsOneSet(p: Progress, id: StepId, how: Resolution)
    requires !p.Recorded(ProgressKey(id))
    ensures |Resolve(p, id, how).completed| == |p.completed| + (if how.AsCompleted? then 1 else 0)
    ensures |Resolve(p, id, how).skipped| == |p.skipped| + (if how.AsSkipped? then 1 else 0)
    ensures |Resolve(p, id, how).advisories.Keys| == |p.advisories.Keys| + (if how.AsAdvisory? then 1 else 0)
    ensures |Resolve(p, id, how).RecordedKeys()| == |p.RecordedKeys()| + 1
  {
    FreshResolutionSets(p, id, how);
    WithCounts(p.completed, ProgressKey(id), how.AsCompleted?);
    WithCounts(p.skipped, ProgressKey(id), how.AsSkipped?);
    WithCounts(p.advisories.Keys, ProgressKey(id), how.AsAdvisory?);
    WithCounts(p.RecordedKeys(), ProgressKey(id), true);
  }

  /** The cloned progress an engine path edits in place before persisting it. */
  class ProgressDraft {
    var phase: nat
    var lastCompletedStep: nat
    var lastSkippedStep: nat
    var completed: set<string>
    var skipped: set<string>
    var timestamps: map<string, string>
    var advisories: map<string, string>

    function Value(): Progress
      reads this
    {
      Progress(phase, lastCompletedStep, lastSkippedStep, completed, skipped, timestamps, advisories)
    }

    constructor (p: Progress)
      ensures Value() == p
    {
      phase, lastCompletedStep, lastSkippedStep := p.phase, p.lastCompletedStep, p.lastSkippedStep;
      completed, skipped := p.completed, p.skipped;
      timestamps, advisories := p.timestamps, p.advisories;
    }

    method CompleteStep(id: StepId, timestamp: string)
      modifies this
      ensures Value() == Completing(old(Value()), id, timestamp)
    {
      var key := ProgressKey(id);
      skipped := skipped - {key};
      advisories := advisories - {key};
      completed := completed + {key};
      timestamps := timestamps[TimestampKey(id) := timestamp];
      phase := id.phase.Number();
      lastCompletedStep := id.number;
    }

    method SkipStep(id: StepId)
      modifies this
      ensures Value() == Skipping(old(Value()), id)
    {
      var key := ProgressKey(id);
      completed := completed - {key};
      advisories := advisories - {key};
      skipped := skipped + {key};
      phase := id.phase.Number();
      if lastSkippedStep < id.number {
        lastSkippedStep := id.number;
      }
    }

    method AcknowledgeStepAdvisory(id: StepId, reason: string)
      modifies this
      ensures Value() == Acknowledging(old(Value()), id, reason)
    {
      var key := ProgressKey(id);
      completed := completed - {key};
      skipped := skipped - {key};
      advisories := advisories[key := reason];
      phase := id.phase.Number();
    }
  }
}
