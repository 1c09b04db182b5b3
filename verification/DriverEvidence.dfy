/** Captured removal evidence: what binds it to a plan, a GPU and a moment. */
module DriverEvidence {
  import opened Wrappers
  import opened DriverModel

  const I64_MAX := 0x7FFF_FFFF_FFFF_FFFF

  /** Seconds of an RFC 3339 text, or None when the text is not one. */
  type Timestamp = Option<int>

  datatype SafeModeState = Confirmed | NotDetected | Indeterminate

  datatype SafeModeObservation = SafeModeObservation(gpu: Gpu, state: SafeModeState, observedAt: Timestamp, sessionValid: bool) {
    function Validate(): Outcome<ValidationError> {
      if !gpu.IsValid() then Fail(VendorMismatch)
      else if observedAt.None? || !sessionValid then Fail(InvalidField)
      else Pass
    }

    function ValidateAgainst(capture: Capture): Outcome<ValidationError> {
      var first := Validate();
      if first.Fail? then first
      else if gpu != capture.gpu || state != Confirmed then Fail(SafeModeNotConfirmed)
      else if capture.capturedAt.None? then Fail(InvalidField)
      else if observedAt.value < capture.capturedAt.value then Fail(StaleCapture)
      else Pass
    }

    function ValidateForResume(capture: Capture, freshness: Freshness, now: Timestamp): Outcome<ValidationError> {
      var first := ValidateAgainst(capture);
      if first.Fail? then first
      else freshness.ValidateAt(observedAt, now)
    }
  }

  datatype Freshness = Freshness(maximumAgeSeconds: nat) {
    function Limit(): int {
      if maximumAgeSeconds <= I64_MAX then maximumAgeSeconds else I64_MAX
    }

    function ValidateAt(captured: Timestamp, now: Timestamp): Outcome<ValidationError> {
      if maximumAgeSeconds == 0 then Fail(InvalidField)
      else if captured.None? || now.None? then Fail(InvalidField)
      else if now.value - captured.value < 0 || now.value - captured.value > Limit() then Fail(StaleCapture)
      else Pass
    }
  }

  datatype Capture = Capture(
    schemaVersion: nat,
    planSha: string,
    gpu: Gpu,
    safeMode: SafeModeObservation,
    installed: CanonicalPackageSet,
    packageSetSha: string,
    capturedAt: Timestamp)
  {
    function ValidateForPlan(d: Digests, plan: DryRunPlan, freshness: Freshness): Outcome<ValidationError> {
      var first := plan.Validate();
      if first.Fail? then first
      else
        if schemaVersion != SCHEMA_VERSION || planSha != plan.inputSha || gpu != plan.gpu then Fail(CapturePlanMismatch)
        else
          :- installed.Validate();
          if installed.gpu != gpu || packageSetSha != d.ofPackageSet(installed) then Fail(CapturePlanMismatch)
          else if plan.PlannedNames() != Ok(NamesOf(installed.packages)) then Fail(CapturePlanMismatch)
          else
            :- safeMode.Validate();
            if safeMode.gpu != gpu || safeMode.state != Confirmed then Fail(SafeModeNotConfirmed)
            else if capturedAt.None? then Fail(InvalidField)
            else if safeMode.observedAt.value > capturedAt.value
                    || capturedAt.value - safeMode.observedAt.value > freshness.Limit()
            then Fail(StaleCapture)
            else Pass
    }

    function ValidateForPlanAt(d: Digests, plan: DryRunPlan, freshness: Freshness,
                               now: Timestamp): Outcome<ValidationError>
    {
      var first := ValidateForPlan(d, plan, freshness);
      if first.Fail? then first
      else freshness.ValidateAt(capturedAt, now)
    }
  }

  datatype Disposition = Removed | AlreadyAbsent | Failed(reason: string)

  datatype RemovalOutcome = RemovalOutcome(publishedName: string, disposition: Disposition, observedAt: Timestamp) {
    predicate IsSound(authorizedAt: int) {
      !disposition.Failed? && observedAt.Some? && observedAt.value >= authorizedAt
    }
  }

  function OutcomeNames(outcomes: seq<RemovalOutcome>): set<string> {
    set o <- outcomes :: o.publishedName
  }

  datatype RemovalEvidence = RemovalEvidence(
    capture: Capture,
    resume: Option<SafeModeObservation>,
    outcomes: seq<RemovalOutcome>,
    post: CanonicalPackageSet,
    observedAt: Timestamp)
  {
    function AuthorizedAt(): Timestamp {
      if resume.Some? then resume.value.observedAt else capture.capturedAt
    }

    function ValidateForPlan(d: Digests, plan: DryRunPlan, freshness: Freshness): Outcome<ValidationError> {
      var first := capture.ValidateForPlan(d, plan, freshness);
      if first.Fail? then first
      else
        :- if resume.Some? then resume.value.ValidateAgainst(capture) else Pass;
        :- post.Validate();
        if post.gpu != capture.gpu then Fail(InvalidRemovalEvidence)
        else if observedAt.None? then Fail(InvalidField)
        else
          var authorized := AuthorizedAt();
          if authorized.None? then Fail(InvalidField)
          else if observedAt.value < authorized.value then Fail(InvalidRemovalEvidence)
          else
            var expected := NamesOf(capture.installed.packages);
            if |outcomes| != |expected| || OutcomeNames(outcomes) != expected then Fail(InvalidRemovalEvidence)
            else if exists o <- outcomes :: !o.IsSound(authorized.value) then Fail(InvalidRemovalEvidence)
            else if expected !! NamesOf(post.packages) then Pass
            else Fail(InvalidRemovalEvidence)
    }

    function ValidateForPlanAt(d: Digests, plan: DryRunPlan, freshness: Freshness,
                               now: Timestamp): Outcome<ValidationError>
    {
      var first := ValidateForPlan(d, plan, freshness);
      if first.Fail? then first
      else freshness.ValidateAt(AuthorizedAt(), now)
    }
  }

  // ---------------------------------------------------------------------
  // What the checks accept, exactly
  // ---------------------------------------------------------------------

  /** `now` is not before `since`, and at most the maximum age after it. */
  predicate WithinAge(since: Timestamp, now: Timestamp, maximumAgeSeconds: nat) {
    && maximumAgeSeconds > 0 && since.Some? && now.Some?
    && since.value <= now.value <= since.value + maximumAgeSeconds
    && now.value - since.value <= 0x7FFF_FFFF_FFFF_FFFF
  }

  lemma FreshnessMeans(freshness: Freshness, since: Timestamp, now: Timestamp)
    ensures freshness.ValidateAt(since, now).Pass? <==> WithinAge(since, now, freshness.maximumAgeSeconds)
  {
  }

  /** Safe Mode was confirmed, for this GPU, in a valid session, at a known time. */
  predicate ConfirmsSafeMode(observation: SafeModeObservation, gpu: Gpu) {
    && observation.state.Confirmed? && observation.gpu == gpu && gpu.IsValid()
    && observation.sessionValid && observation.observedAt.Some?
  }

  /** A capture is accepted exactly for its plan, its GPU, a canonical inventory of the planned names, under fresh Safe Mode. */
  lemma CaptureIsAcceptedExactly(d: Digests, plan: DryRunPlan, capture: Capture, freshness: Freshness)
    ensures capture.ValidateForPlan(d, plan, freshness).Pass? <==>
              && plan.Validate().Pass?
              && capture.schemaVersion == 1 && capture.planSha == plan.inputSha && capture.gpu == plan.gpu
              && capture.installed.Validate().Pass? && capture.installed.gpu == capture.gpu
              && capture.packageSetSha == d.ofPackageSet(capture.installed)
              && plan.PlannedNames() == Ok(NamesOf(capture.installed.packages))
              && ConfirmsSafeMode(capture.safeMode, capture.gpu)
              && capture.capturedAt.Some?
              && 0 <= capture.capturedAt.value - capture.safeMode.observedAt.value <= freshness.maximumAgeSeconds
              && capture.capturedAt.value - capture.safeMode.observedAt.value <= 0x7FFF_FFFF_FFFF_FFFF
  {
  }

  /** A resume observation is accepted exactly if it confirms Safe Mode for the captured GPU, not before the capture. */
  lemma ResumeIsAcceptedExactly(observation: SafeModeObservation, capture: Capture, freshness: Freshness, now: Timestamp)
    ensures observation.ValidateAgainst(capture).Pass? <==>
              && ConfirmsSafeMode(observation, capture.gpu)
              && capture.capturedAt.Some? && capture.capturedAt.value <= observation.observedAt.value
    ensures observation.ValidateForResume(capture, freshness, now).Pass? <==>
              && observation.ValidateAgainst(capture).Pass?
              && WithinAge(observation.observedAt, now, freshness.maximumAgeSeconds)
  {
    FreshnessMeans(freshness, observation.observedAt, now);
  }

  /** The time the removal was authorized at: of the resume observation if there is one. */
  predicate IsAuthorizedFrom(evidence: RemovalEvidence, at: int) {
    if evidence.resume.Some? then evidence.resume.value.observedAt == Some(at) else evidence.capture.capturedAt == Some(at)
  }

  /**
   * Removal evidence is accepted exactly if every captured package, and no other,
   * has one outcome that is no failure and not before the authorization, and the
   * inventory read afterwards holds none of them.
   */
  lemma EvidenceIsAcceptedExactly(d: Digests, plan: DryRunPlan, evidence: RemovalEvidence, freshness: Freshness)
    ensures evidence.ValidateForPlan(d, plan, freshness).Pass? <==>
              && evidence.capture.ValidateForPlan(d, plan, freshness).Pass?
              && (evidence.resume.Some? ==> evidence.resume.value.ValidateAgainst(evidence.capture).Pass?)
              && evidence.post.Validate().Pass? && evidence.post.gpu == evidence.capture.gpu
              && evidence.observedAt.Some?
              && |evidence.outcomes| == |NamesOf(evidence.capture.installed.packages)|
              && (forall name :: name in NamesOf(evidence.capture.installed.packages)
                                 <==> exists o <- evidence.outcomes :: o.publishedName == name)
              && (exists at: int :: IsAuthorizedFrom(evidence, at) && at <= evidence.observedAt.value
                    && forall o <- evidence.outcomes ::
                         !o.disposition.Failed? && o.observedAt.Some? && at <= o.observedAt.value)
              && (forall p <- evidence.post.packages :: p.publishedName !in NamesOf(evidence.capture.installed.packages))
  {
    var expected := NamesOf(evidence.capture.installed.packages);
    assert forall name :: name in OutcomeNames(evidence.outcomes) <==> exists o <- evidence.outcomes :: o.publishedName == name;
    assert OutcomeNames(evidence.outcomes) == expected
           <==> forall name :: name in expected <==> name in OutcomeNames(evidence.outcomes);
    assert expected !! NamesOf(evidence.post.packages) <==> forall p <- evidence.post.packages :: p.publishedName !in expected;
    var authorized := evidence.AuthorizedAt();
    assert forall at: int :: IsAuthorizedFrom(evidence, at) <==> authorized == Some(at);
    if authorized.Some? {
      assert IsAuthorizedFrom(evidence, authorized.value);
    }
  }
}
