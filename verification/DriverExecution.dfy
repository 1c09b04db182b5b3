/** Capturing, starting and resuming the removal of driver packages. */
module DriverExecution {
  import opened Wrappers
  import opened Sorting
  import opened DriverModel
  import opened DriverEvidence
  import opened DriverRemoval

  /** No adapter call fails. */
  ghost predicate Steady(host: DriverHost) {
    forall n :: host.fault(n).NoFault?
  }

  /** Every later reading of the clock falls within the freshness window after `since`. */
  ghost predicate Timely(host: DriverHost, from: nat, since: Timestamp, freshness: Freshness) {
    && since.Some? && freshness.maximumAgeSeconds != 0
    && forall n :: n >= from ==> host.clock(n).Some? && 0 <= host.clock(n).value - since.value <= freshness.Limit()
  }

  /** The store lost some captured packages, name and record together, and nothing else. */
  ghost predicate LostOnly(capture: Capture, records: seq<Package>, names: set<string>, records': seq<Package>,
                           names': set<string>)
  {
    exists gone: set<string> :: Lost(capture, gone, records, names, records', names')
  }

  predicate Lost(capture: Capture, gone: set<string>, records: seq<Package>, names: set<string>,
                 records': seq<Package>, names': set<string>)
  {
    gone <= NamesOf(capture.installed.packages) && records' == Without(records, gone) && names' == names - gone
  }

  /** A run cut short anywhere leaves a part of the capture: losses keep what the progress check needs. */
  lemma LossesLeaveAPart(capture: Capture, records: seq<Package>, names: set<string>, records': seq<Package>,
                         names': set<string>)
    requires CaptureIsSound(capture) && HoldsPartOf(capture, records, names)
    requires LostOnly(capture, records, names, records', names')
    ensures HoldsPartOf(capture, records', names')
    ensures Members(records') <= Members(records)
  {
    var gone :| Lost(capture, gone, records, names, records', names');
    RemovalLeavesAPart(capture, records, names, gone);
  }

  /** On a part of the capture exactly one of the two entry points passes its progress check. */
  lemma ExactlyOneEntryPoint(capture: Capture, records: seq<Package>, names: set<string>)
    requires CaptureIsSound(capture) && HoldsPartOf(capture, records, names)
    ensures RemovalStarted(capture, records, names) == Ok(false) <==> RemovalStarted(capture, records, names) != Ok(true)
    ensures RemovalStarted(capture, records, names) == Ok(false) <==> Members(records) == Members(capture.installed.packages)
  {
    RemovalStartedIsExact(capture, records, names);
  }

  datatype Store = Store(records: seq<Package>, names: set<string>)

  /** Any number of removal attempts, each cut short anywhere. */
  ghost predicate Attempts(capture: Capture, stores: seq<Store>) {
    forall i :: 0 <= i < |stores| - 1 ==>
      LostOnly(capture, stores[i].records, stores[i].names, stores[i + 1].records, stores[i + 1].names)
  }

  /**
   * After any number of interrupted attempts on a store that held the whole capture,
   * exactly one way on is open: start while nothing is lost, resume from then on.
   */
  lemma {:induction false} OneWayOnAfterAnyCrashes(capture: Capture, stores: seq<Store>)
    requires CaptureIsSound(capture) && stores != [] && Attempts(capture, stores)
    requires RemovalStarted(capture, stores[0].records, stores[0].names) == Ok(false)
    ensures var last := stores[|stores| - 1];
            && HoldsPartOf(capture, last.records, last.names)
            && RemovalStarted(capture, last.records, last.names)
                 == Ok(Members(last.records) != Members(capture.installed.packages))
  {
    var n := |stores| - 1;
    var last := stores[n];
    if n == 0 {
      RemovalStartedIsExact(capture, last.records, last.names);
    } else {
      var before := stores[..n];
      assert before[n - 1] == stores[n - 1];
      OneWayOnAfterAnyCrashes(capture, before);
      LossesLeaveAPart(capture, stores[n - 1].records, stores[n - 1].names, stores[n - 1 + 1].records, stores[n - 1 + 1].names);
    }
    ExactlyOneEntryPoint(capture, last.records, last.names);
  }

  lemma NamesPlusOne(front: seq<Package>, last: Package)
    ensures NamesOf(front + [last]) == NamesOf(front) + {last.publishedName}
    ensures KeysAreUnique(NameOf, front + [last]) <==> KeysAreUnique(NameOf, front) && last.publishedName !in NamesOf(front)
  {
    assert forall p :: p in front + [last] <==> p in front || p == last;
    UniquePlusOne(NameOf, front, last);
    NameIsTaken(front, last);
  }

  lemma OneMoreName(names: set<string>, name: string)
    requires name !in names
    ensures |names + {name}| == |names| + 1
  {
  }

  lemma {:induction false} UniqueNamesCount(packages: seq<Package>)
    requires KeysAreUnique(NameOf, packages)
    ensures |NamesOf(packages)| == |packages|
  {
    if packages != [] {
      var n := |packages| - 1;
      assert packages == packages[..n] + [packages[n]];
      NamesPlusOne(packages[..n], packages[n]);
      UniqueNamesCount(packages[..n]);
      OneMoreName(NamesOf(packages[..n]), packages[n].publishedName);
    }
  }

  // ---------------------------------------------------------------------
  // The operations
  // ---------------------------------------------------------------------

  method CapturedPackageRemovalStarted(capture: Capture, host: DriverHost) returns (r: Result<bool, Failure>)
    modifies host`calls
    ensures host.calls >= old(host.calls)
    ensures r.Ok? || Steady(host) ==> r == RemovalStarted(capture, host.records, host.names)
  {
    var checked := ValidatePackageSet(capture.installed);
    if checked.Fail? {
      return Err(Refused(checked.error));
    }
    var inventory :- host.InspectPublishedPackages();
    var current := CanonicalPackageSet.FromUnsorted(capture.gpu, inventory);
    if current.Err? {
      return Err(Refused(current.error));
    }
    r := CompareWithCapture(capture.installed.packages, current.value.packages, host);
  }

  method CompareWithCapture(captured: seq<Package>, current: seq<Package>,
                            host: DriverHost) returns (r: Result<bool, Failure>)
    modifies host`calls
    ensures host.calls >= old(host.calls)
    ensures r.Ok? || Steady(host) ==> r == Progress(captured, current, host.names)
  {
    for i := 0 to |current|
      invariant forall j :: 0 <= j < i ==> current[j] in captured
    {
      if current[i] !in captured {
        return Err(RecordNotCaptured);
      }
    }
    var removalStarted := false;
    for i := 0 to |captured|
      invariant host.calls >= old(host.calls)
      invariant forall j :: 0 <= j < i ==> Agrees(captured[j], current, host.names)
      invariant removalStarted <==> exists j :: 0 <= j < i && captured[j].publishedName !in host.names
    {
      var expected := captured[i];
      var inStore :- host.IsPresent(expected.publishedName);
      var found := FindByName(current, expected.publishedName);
      if inStore && found == Some(expected) {
      } else if !inStore && found.None? {
        removalStarted := true;
      } else {
        assert !Agrees(captured[i], current, host.names);
        return Err(StoreDisagrees);
      }
    }
    r := Ok(removalStarted);
  }

  predicate AllSound(outcomes: seq<RemovalOutcome>, authorized: Timestamp) {
    authorized.Some? && forall o <- outcomes :: o.IsSound(authorized.value)
  }

  /** The removal calls in order, until one fails. */
  method RemoveEach(capture: Capture, host: DriverHost, ghost authorized: Timestamp, ghost freshness: Freshness)
    returns (r: Result<seq<RemovalOutcome>, Failure>)
    modifies host
    ensures host.calls >= old(host.calls)
    ensures LostOnly(capture, old(host.records), old(host.names), host.records, host.names)
    ensures r.Ok? ==> |r.value| == |capture.installed.packages| && OutcomeNames(r.value) == NamesOf(capture.installed.packages)
    ensures Steady(host) ==> r.Ok? && host.names == old(host.names) - NamesOf(capture.installed.packages)
    ensures Steady(host) && Timely(host, old(host.calls), authorized, freshness) ==> r.Ok? && AllSound(r.value, authorized)
  {
    var captured := capture.installed.packages;
    var outcomes: seq<RemovalOutcome> := [];
    ghost var gone: set<string> := {};
    WithoutNone(host.records);
    for i := 0 to |captured|
      invariant host.calls >= old(host.calls)
      invariant |outcomes| == i && OutcomeNames(outcomes) == NamesOf(captured[..i])
      invariant Lost(capture, gone, old(host.records), old(host.names), host.records, host.names)
      invariant Steady(host) ==> gone == NamesOf(captured[..i])
      invariant Steady(host) && Timely(host, old(host.calls), authorized, freshness) ==> AllSound(outcomes, authorized)
    {
      assert captured[..i + 1] == captured[..i] + [captured[i]];
      NamesPlusOne(captured[..i], captured[i]);
      ghost var name, before, beforeNames := captured[i].publishedName, host.records, host.names;
      WithoutTwice(old(host.records), gone, {name});
      var attempt := host.RemovePublishedPackage(captured[i]);
      if Steady(host) || host.records != before || host.names != beforeNames {
        gone := gone + {name};
      }
      assert Lost(capture, gone, old(host.records), old(host.names), host.records, host.names);
      var outcome :- attempt;
      OutcomesPlusOne(outcomes, outcome);
      outcomes := outcomes + [outcome];
    }
    assert captured[..|captured|] == captured;
    r := Ok(outcomes);
  }

  lemma OutcomesPlusOne(outcomes: seq<RemovalOutcome>, last: RemovalOutcome)
    ensures OutcomeNames(outcomes + [last]) == OutcomeNames(outcomes) + {last.publishedName}
    ensures forall o :: o in outcomes + [last] <==> o in outcomes || o == last
  {
    assert forall o :: o in outcomes + [last] <==> o in outcomes || o == last;
  }

  function Authorized(capture: Capture, resume: Option<SafeModeObservation>): Timestamp {
    if resume.Some? then resume.value.observedAt else capture.capturedAt
  }

  /** Everything a removal is allowed to rely on before its first call. */
  ghost predicate IsAuthorized(d: Digests, plan: DryRunPlan, capture: Capture, resume: Option<SafeModeObservation>,
                               freshness: Freshness)
  {
    capture.ValidateForPlan(d, plan, freshness).Pass? && (resume.Some? ==> resume.value.ValidateAgainst(capture).Pass?)
  }

  lemma ValidatedCaptureIsSound(d: Digests, plan: DryRunPlan, capture: Capture, freshness: Freshness)
    requires capture.ValidateForPlan(d, plan, freshness).Pass?
    ensures CaptureIsSound(capture) && capture.gpu.IsValid()
    ensures |NamesOf(capture.installed.packages)| == |capture.installed.packages|
  {
    CapturedNamesAreUnique(capture);
    UniqueNamesCount(capture.installed.packages);
  }

  lemma EvidenceIsAccepted(d: Digests, plan: DryRunPlan, evidence: RemovalEvidence, freshness: Freshness,
                           now: Timestamp)
    requires IsAuthorized(d, plan, evidence.capture, evidence.resume, freshness)
    requires |evidence.outcomes| == |evidence.capture.installed.packages|
    requires OutcomeNames(evidence.outcomes) == NamesOf(evidence.capture.installed.packages)
    requires AllSound(evidence.outcomes, evidence.AuthorizedAt())
    requires evidence.post == CanonicalPackageSet(evidence.capture.gpu, [])
    requires evidence.observedAt.Some? && evidence.AuthorizedAt().value <= evidence.observedAt.value
    requires freshness.ValidateAt(evidence.AuthorizedAt(), now).Pass?
    ensures evidence.ValidateForPlanAt(d, plan, freshness, now).Pass?
  {
    ValidatedCaptureIsSound(d, plan, evidence.capture, freshness);
    assert NamesOf(evidence.post.packages) == {};
  }

  lemma EveryRecordIsNamed(capture: Capture, records: seq<Package>, names: set<string>, i: nat)
    requires i < |records| && HoldsPartOf(capture, records, names)
    ensures records[i].publishedName in names && records[i].publishedName in NamesOf(capture.installed.packages)
  {
    assert records[i] in records;
  }

  /** With every captured name gone, nothing of a part of the capture is left. */
  lemma NothingIsLeft(capture: Capture, records: seq<Package>, names: set<string>)
    requires CaptureIsSound(capture) && HoldsPartOf(capture, records, names)
    requires names !! NamesOf(capture.installed.packages)
    ensures records == []
  {
    if records != [] {
      EveryRecordIsNamed(capture, records, names, 0);
      assert false;
    }
  }

  /** Everything a readback needs to accept, before its first call. */
  ghost predicate ReadyToReadBack(d: Digests, plan: DryRunPlan, capture: Capture, resume: Option<SafeModeObservation>,
                                  outcomes: seq<RemovalOutcome>, freshness: Freshness)
  {
    && IsAuthorized(d, plan, capture, resume, freshness)
    && |outcomes| == |capture.installed.packages| && OutcomeNames(outcomes) == NamesOf(capture.installed.packages)
    && AllSound(outcomes, Authorized(capture, resume))
  }

  lemma ReadyEvidenceIsAccepted(d: Digests, plan: DryRunPlan, capture: Capture, resume: Option<SafeModeObservation>,
                                outcomes: seq<RemovalOutcome>, freshness: Freshness, observedAt: Timestamp, now: Timestamp)
    requires ReadyToReadBack(d, plan, capture, resume, outcomes, freshness)
    requires WithinAge(Authorized(capture, resume), observedAt, freshness.maximumAgeSeconds)
    requires WithinAge(Authorized(capture, resume), now, freshness.maximumAgeSeconds)
    ensures CanonicalPackageSet.FromUnsorted(capture.gpu, []) == Ok(CanonicalPackageSet(capture.gpu, []))
    ensures RemovalEvidence(capture, resume, outcomes, CanonicalPackageSet(capture.gpu, []), observedAt)
              .ValidateForPlanAt(d, plan, freshness, now).Pass?
  {
    ValidatedCaptureIsSound(d, plan, capture, freshness);
    EmptySetIsCanonical(capture.gpu);
    FreshnessMeans(freshness, Authorized(capture, resume), now);
    EvidenceIsAccepted(d, plan, RemovalEvidence(capture, resume, outcomes, CanonicalPackageSet(capture.gpu, []), observedAt),
                       freshness, now);
  }

  lemma TimelyIsWithinAge(host: DriverHost, from: nat, since: Timestamp, freshness: Freshness, n: nat)
    requires Timely(host, from, since, freshness) && n >= from
    ensures WithinAge(since, host.clock(n), freshness.maximumAgeSeconds)
  {
  }

  /** The evidence of the two clock readings that follow the inventory. */
  lemma TimelyEvidenceIsAccepted(d: Digests, plan: DryRunPlan, capture: Capture, resume: Option<SafeModeObservation>,
                                 outcomes: seq<RemovalOutcome>, freshness: Freshness, host: DriverHost, from: nat)
    requires ReadyToReadBack(d, plan, capture, resume, outcomes, freshness)
    requires Timely(host, from, Authorized(capture, resume), freshness)
    ensures CanonicalPackageSet.FromUnsorted(capture.gpu, []) == Ok(CanonicalPackageSet(capture.gpu, []))
    ensures RemovalEvidence(capture, resume, outcomes, CanonicalPackageSet(capture.gpu, []), host.clock(from + 1))
              .ValidateForPlanAt(d, plan, freshness, host.clock(from + 2)).Pass?
  {
    TimelyIsWithinAge(host, from, Authorized(capture, resume), freshness, from + 1);
    TimelyIsWithinAge(host, from, Authorized(capture, resume), freshness, from + 2);
    ReadyEvidenceIsAccepted(d, plan, capture, resume, outcomes, freshness, host.clock(from + 1), host.clock(from + 2));
  }

  lemma SortedNamesAreTheNames(gpu: Gpu, inventory: seq<Package>)
    requires CanonicalPackageSet.FromUnsorted(gpu, inventory).Ok?
    ensures NamesOf(CanonicalPackageSet.FromUnsorted(gpu, inventory).value.packages) == NamesOf(inventory)
  {
    FromUnsortedIsExact(gpu, inventory);
    SameMembers(inventory, CanonicalPackageSet.FromUnsorted(gpu, inventory).value.packages);
  }

  /** The fresh inventory after the removal calls, and the evidence it must make. */
  method ReadBackRemoval(d: Digests, plan: DryRunPlan, capture: Capture, resume: Option<SafeModeObservation>,
                         outcomes: seq<RemovalOutcome>, host: DriverHost, freshness: Freshness)
    returns (r: Result<RemovalEvidence, Failure>)
    modifies host`calls
    ensures r.Ok? ==>
              && r.value.capture == capture && r.value.resume == resume
              && host.calls > 0 && r.value.ValidateForPlanAt(d, plan, freshness, host.clock(host.calls - 1)).Pass?
              && NamesOf(host.records) !! NamesOf(capture.installed.packages)
    ensures Steady(host) && host.records == [] && ReadyToReadBack(d, plan, capture, resume, outcomes, freshness)
            && Timely(host, old(host.calls), Authorized(capture, resume), freshness)
            ==> r.Ok?
  {
    ghost var from := host.calls;
    var inventory :- host.InspectPublishedPackages();
    var post := CanonicalPackageSet.FromUnsorted(capture.gpu, inventory);
    if host.records == [] && ReadyToReadBack(d, plan, capture, resume, outcomes, freshness)
       && Timely(host, from, Authorized(capture, resume), freshness) {
      TimelyEvidenceIsAccepted(d, plan, capture, resume, outcomes, freshness, host, from);
    }
    if post.Err? {
      return Err(Refused(post.error));
    }
    SortedNamesAreTheNames(capture.gpu, inventory);
    var observedAt :- host.CurrentUtc();
    var evidence := RemovalEvidence(capture, resume, outcomes, post.value, observedAt);
    var now :- host.CurrentUtc();
    r := AcceptEvidence(d, plan, evidence, freshness, now);
  }

  function AcceptEvidence(d: Digests, plan: DryRunPlan, evidence: RemovalEvidence, freshness: Freshness, now: Timestamp)
    : (r: Result<RemovalEvidence, Failure>)
    ensures r.Ok? ==>
              && r.value == evidence && evidence.ValidateForPlanAt(d, plan, freshness, now).Pass?
              && NamesOf(evidence.capture.installed.packages) !! NamesOf(evidence.post.packages)
  {
    match evidence.ValidateForPlanAt(d, plan, freshness, now)
    case Pass => Ok(evidence)
    case Fail(error) => Err(Refused(error))
  }

  lemma EmptySetIsCanonical(gpu: Gpu)
    requires gpu.IsValid()
    ensures CanonicalPackageSet.FromUnsorted(gpu, []) == Ok(CanonicalPackageSet(gpu, []))
  {
  }

  /** The observation was made before the capture, by no more than the maximum age. */
  predicate SafeModeIsRecent(capture: Capture, maximumAgeSeconds: nat) {
    && capture.safeMode.observedAt.Some? && capture.capturedAt.Some?
    && 0 <= capture.capturedAt.value - capture.safeMode.observedAt.value <= maximumAgeSeconds
  }

  lemma AcceptedCaptureIsConfirmed(d: Digests, plan: DryRunPlan, capture: Capture, freshness: Freshness)
    requires capture.ValidateForPlan(d, plan, freshness).Pass?
    ensures ConfirmsSafeMode(capture.safeMode, plan.gpu) && SafeModeIsRecent(capture, freshness.maximumAgeSeconds)
  {
    CaptureIsAcceptedExactly(d, plan, capture, freshness);
  }

  lemma StartedHoldsAPart(d: Digests, plan: DryRunPlan, capture: Capture, freshness: Freshness, records: seq<Package>,
                          names: set<string>)
    requires capture.ValidateForPlan(d, plan, freshness).Pass?
    ensures RemovalStarted(capture, records, names).Ok? ==> HoldsPartOf(capture, records, names)
  {
    ValidatedCaptureIsSound(d, plan, capture, freshness);
    CheckPassesOnParts(capture, records, names);
  }

  /** Once every captured name is gone from a started removal, no record is left. */
  lemma AllIsRemoved(d: Digests, plan: DryRunPlan, capture: Capture, freshness: Freshness, before: seq<Package>,
                     beforeNames: set<string>, records: seq<Package>, names: set<string>)
    requires capture.ValidateForPlan(d, plan, freshness).Pass? && RemovalStarted(capture, before, beforeNames).Ok?
    requires LostOnly(capture, before, beforeNames, records, names)
    requires names == beforeNames - NamesOf(capture.installed.packages)
    ensures records == []
  {
    StartedHoldsAPart(d, plan, capture, freshness, before, beforeNames);
    ValidatedCaptureIsSound(d, plan, capture, freshness);
    LossesLeaveAPart(capture, before, beforeNames, records, names);
    NothingIsLeft(capture, records, names);
  }

  method ExecuteRemoval(d: Digests, plan: DryRunPlan, capture: Capture, resume: Option<SafeModeObservation>,
                        host: DriverHost, freshness: Freshness)
    returns (r: Result<RemovalEvidence, Failure>)
    modifies host
    ensures LostOnly(capture, old(host.records), old(host.names), host.records, host.names)
    ensures r.Ok? ==>
              && r.value.capture == capture && r.value.resume == resume
              && host.calls > 0 && r.value.ValidateForPlanAt(d, plan, freshness, host.clock(host.calls - 1)).Pass?
              && NamesOf(host.records) !! NamesOf(capture.installed.packages)
    ensures Steady(host) && old(RemovalStarted(capture, host.records, host.names)).Ok?
            && IsAuthorized(d, plan, capture, resume, freshness)
            && Timely(host, old(host.calls), Authorized(capture, resume), freshness)
            ==> r.Ok? && host.records == []
  {
    var outcomes :- RemoveEach(capture, host, Authorized(capture, resume), freshness);
    if Steady(host) && IsAuthorized(d, plan, capture, resume, freshness)
       && old(RemovalStarted(capture, host.records, host.names)).Ok? {
      AllIsRemoved(d, plan, capture, freshness, old(host.records), old(host.names), host.records, host.names);
    }
    r := ReadBackRemoval(d, plan, capture, resume, outcomes, host, freshness);
  }

  /** The checks before the first call on the store: the capture is valid, and fresh by the clock read now. */
  method AuthorizeStart(d: Digests, plan: DryRunPlan, capture: Capture, host: DriverHost, freshness: Freshness)
    returns (r: Outcome<Failure>)
    modifies host`calls
    ensures host.calls == old(host.calls) + 1
    ensures r.Pass? ==>
              && capture.ValidateForPlan(d, plan, freshness).Pass?
              && ConfirmsSafeMode(capture.safeMode, plan.gpu) && SafeModeIsRecent(capture, freshness.maximumAgeSeconds)
              && WithinAge(capture.capturedAt, old(host.clock(host.calls)), freshness.maximumAgeSeconds)
    ensures old(host.fault(host.calls)).NoFault? && capture.ValidateForPlan(d, plan, freshness).Pass?
            && WithinAge(capture.capturedAt, old(host.clock(host.calls)), freshness.maximumAgeSeconds)
            ==> r.Pass?
  {
    var read := host.CurrentUtc();
    if read.Err? {
      return Fail(read.error);
    }
    var checked := capture.ValidateForPlanAt(d, plan, freshness, read.value);
    FreshnessMeans(freshness, capture.capturedAt, read.value);
    if checked.Fail? {
      return Fail(Refused(checked.error));
    }
    AcceptedCaptureIsConfirmed(d, plan, capture, freshness);
    r := Pass;
  }

  /** The same before a resume, under an observation of Safe Mode made now. */
  method AuthorizeResume(d: Digests, plan: DryRunPlan, capture: Capture, host: DriverHost, freshness: Freshness)
    returns (r: Result<SafeModeObservation, Failure>)
    modifies host`calls
    ensures host.calls >= old(host.calls)
    ensures r.Ok? ==>
              && r.value == old(host.safeMode(host.calls)) && host.calls == old(host.calls) + 2
              && capture.ValidateForPlan(d, plan, freshness).Pass? && r.value.ValidateAgainst(capture).Pass?
              && ConfirmsSafeMode(capture.safeMode, plan.gpu) && SafeModeIsRecent(capture, freshness.maximumAgeSeconds)
              && ConfirmsSafeMode(r.value, plan.gpu)
              && capture.capturedAt.Some? && capture.capturedAt.value <= r.value.observedAt.value
              && WithinAge(r.value.observedAt, old(host.clock(host.calls + 1)), freshness.maximumAgeSeconds)
    ensures Steady(host) && capture.ValidateForPlan(d, plan, freshness).Pass?
            && old(host.safeMode(host.calls)).ValidateAgainst(capture).Pass?
            && WithinAge(old(host.safeMode(host.calls)).observedAt, old(host.clock(host.calls + 1)), freshness.maximumAgeSeconds)
            ==> r.Ok?
  {
    var checked := capture.ValidateForPlan(d, plan, freshness);
    if checked.Fail? {
      return Err(Refused(checked.error));
    }
    AcceptedCaptureIsConfirmed(d, plan, capture, freshness);
    var resumed :- host.ObserveSafeMode();
    var now :- host.CurrentUtc();
    checked := resumed.ValidateForResume(capture, freshness, now);
    ResumeIsAcceptedExactly(resumed, capture, freshness, now);
    if checked.Fail? {
      return Err(Refused(checked.error));
    }
    r := Ok(resumed);
  }

  /**
   * Starts a removal from a fresh capture. It goes ahead only on a store that
   * still holds the whole capture; otherwise nothing is touched.
   */
  method RemoveCapturedPackages(d: Digests, plan: DryRunPlan, capture: Capture, host: DriverHost, freshness: Freshness)
    returns (r: Result<RemovalEvidence, Failure>)
    modifies host
    ensures LostOnly(capture, old(host.records), old(host.names), host.records, host.names)
    ensures old(RemovalStarted(capture, host.records, host.names)) != Ok(false)
            || !capture.ValidateForPlan(d, plan, freshness).Pass?
            ==> r.Err? && host.records == old(host.records) && host.names == old(host.names)
    ensures r.Ok? || host.records != old(host.records) || host.names != old(host.names) ==>
              && ConfirmsSafeMode(capture.safeMode, plan.gpu) && SafeModeIsRecent(capture, freshness.maximumAgeSeconds)
              && WithinAge(capture.capturedAt, old(host.clock(host.calls)), freshness.maximumAgeSeconds)
    ensures r.Ok? ==>
              && r.value.capture == capture && r.value.resume == None
              && r.value.ValidateForPlan(d, plan, freshness).Pass?
              && NamesOf(host.records) !! NamesOf(capture.installed.packages)
              && host.calls > 0
              && WithinAge(capture.capturedAt, host.clock(host.calls - 1), freshness.maximumAgeSeconds)
    ensures Steady(host) && capture.ValidateForPlan(d, plan, freshness).Pass?
            && Timely(host, old(host.calls), capture.capturedAt, freshness)
            && old(RemovalStarted(capture, host.records, host.names)) == Ok(false)
            ==> r.Ok? && host.records == []
  {
    UnchangedLosesNothing(capture, host.records, host.names);
    var authorized := AuthorizeStart(d, plan, capture, host, freshness);
    if authorized.Fail? {
      return Err(authorized.error);
    }
    var started :- CapturedPackageRemovalStarted(capture, host);
    if started {
      return Err(CapturedSetChanged);
    }
    r := ExecuteRemoval(d, plan, capture, None, host, freshness);
    if r.Ok? {
      FreshnessMeans(freshness, r.value.AuthorizedAt(), host.clock(host.calls - 1));
    }
  }

  lemma UnchangedLosesNothing(capture: Capture, records: seq<Package>, names: set<string>)
    ensures LostOnly(capture, records, names, records, names)
  {
    WithoutNone(records);
    assert Lost(capture, {}, records, names, records, names);
  }

  /**
   * Resumes a removal from its old capture under a fresh Safe Mode observation.
   * It goes ahead only on a store that already lost part of the capture.
   */
  method ResumeCapturedPackageRemoval(d: Digests, plan: DryRunPlan, capture: Capture, host: DriverHost,
                                      freshness: Freshness)
    returns (r: Result<RemovalEvidence, Failure>)
    modifies host
    ensures LostOnly(capture, old(host.records), old(host.names), host.records, host.names)
    ensures old(RemovalStarted(capture, host.records, host.names)) != Ok(true)
            || !capture.ValidateForPlan(d, plan, freshness).Pass?
            || old(host.safeMode(host.calls)).ValidateAgainst(capture).Fail?
            ==> r.Err? && host.records == old(host.records) && host.names == old(host.names)
    ensures r.Ok? || host.records != old(host.records) || host.names != old(host.names) ==>
              && ConfirmsSafeMode(capture.safeMode, plan.gpu) && SafeModeIsRecent(capture, freshness.maximumAgeSeconds)
              && var resumed := old(host.safeMode(host.calls));
                 && ConfirmsSafeMode(resumed, plan.gpu)
                 && capture.capturedAt.Some? && capture.capturedAt.value <= resumed.observedAt.value
                 && WithinAge(resumed.observedAt, old(host.clock(host.calls + 1)), freshness.maximumAgeSeconds)
    ensures r.Ok? ==>
              && r.value.capture == capture && r.value.resume == Some(old(host.safeMode(host.calls)))
              && r.value.ValidateForPlan(d, plan, freshness).Pass?
              && NamesOf(host.records) !! NamesOf(capture.installed.packages)
              && host.calls > 0
              && WithinAge(old(host.safeMode(host.calls)).observedAt, host.clock(host.calls - 1), freshness.maximumAgeSeconds)
    ensures Steady(host) && capture.ValidateForPlan(d, plan, freshness).Pass?
            && old(host.safeMode(host.calls)).ValidateAgainst(capture).Pass?
            && Timely(host, old(host.calls), old(host.safeMode(host.calls)).observedAt, freshness)
            && old(RemovalStarted(capture, host.records, host.names)) == Ok(true)
            ==> r.Ok? && host.records == []
  {
    UnchangedLosesNothing(capture, host.records, host.names);
    var resumed :- AuthorizeResume(d, plan, capture, host, freshness);
    var started :- CapturedPackageRemovalStarted(capture, host);
    if !started {
      return Err(NothingRemovedYet);
    }
    r := ExecuteRemoval(d, plan, capture, Some(resumed), host, freshness);
    if r.Ok? {
      FreshnessMeans(freshness, r.value.AuthorizedAt(), host.clock(host.calls - 1));
    }
  }

  /** Captures the live inventory under a confirmed Safe Mode; removes nothing. */
  method CaptureDriverExecution(d: Digests, plan: DryRunPlan, host: DriverHost, freshness: Freshness)
    returns (r: Result<Capture, Failure>)
    modifies host`calls
    ensures r.Ok? ==>
              && r.value.safeMode == old(host.safeMode(host.calls)) && r.value.capturedAt == old(host.clock(host.calls + 2))
              && ConfirmsSafeMode(r.value.safeMode, plan.gpu) && SafeModeIsRecent(r.value, freshness.maximumAgeSeconds)
              && freshness.maximumAgeSeconds > 0
              && r.value.gpu == plan.gpu && r.value.planSha == plan.inputSha
              && r.value.packageSetSha == d.ofPackageSet(r.value.installed)
    ensures r.Ok? ==>
              && r.value.ValidateForPlan(d, plan, freshness).Pass?
              && Members(r.value.installed.packages) == Members(host.records)
              && (NamesOf(host.records) <= host.names ==> RemovalStarted(r.value, host.records, host.names) == Ok(false))
  {
    var checked := plan.Validate();
    if checked.Fail? {
      return Err(Refused(checked.error));
    }
    var safeMode :- host.ObserveSafeMode();
    var inventory :- host.InspectPublishedPackages();
    var installed := CanonicalPackageSet.FromUnsorted(plan.gpu, inventory);
    if installed.Err? {
      return Err(Refused(installed.error));
    }
    FromUnsortedIsExact(plan.gpu, inventory);
    SameMembers(inventory, installed.value.packages);
    var capturedAt :- host.CurrentUtc();
    var capture := Capture(SCHEMA_VERSION, plan.inputSha, plan.gpu, safeMode, installed.value,
                           d.ofPackageSet(installed.value), capturedAt);
    checked := capture.ValidateForPlanAt(d, plan, freshness, capturedAt);
    if checked.Fail? {
      return Err(Refused(checked.error));
    }
    AcceptedCaptureIsConfirmed(d, plan, capture, freshness);
    FreshnessMeans(freshness, capturedAt, capturedAt);
    RemovalStartedIsExact(capture, host.records, host.names);
    assert Members(capture.installed.packages) == Members(host.records);
    if NamesOf(host.records) <= host.names {
      assert forall p <- capture.installed.packages :: p in host.records && p.publishedName in NamesOf(host.records);
      assert HoldsPartOf(capture, host.records, host.names);
    }
    r := Ok(capture);
  }
}
