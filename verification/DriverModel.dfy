/** Driver packages, canonical package sets and the dry-run plan. */
module DriverModel {
  import opened Wrappers
  import opened Sorting
  import Text

  const SCHEMA_VERSION := 1

  datatype ValidationError =
    | InstalledPackagesRequired
    | InvalidField
    | VendorMismatch
    | PackageGpuMismatch
    | DuplicatePublishedName
    | InvalidArtifact
    | ArtifactGpuMismatch
    | NotReadOnly
    | InvalidPlan
    | NonCanonicalPackageSet
    | SafeModeNotConfirmed
    | CapturePlanMismatch
    | StaleCapture
    | InvalidRemovalEvidence

  datatype GpuVendor = Nvidia | Amd | Intel {
    function PciVendorId(): nat {
      match this
      case Nvidia => 0x10de
      case Amd => 0x1002
      case Intel => 0x8086
    }
  }

  datatype Gpu = Gpu(vendor: GpuVendor, pciVendorId: nat, deviceId: nat, subsystemVendorId: nat, subsystemDeviceId: nat, revisionId: nat)
  {
    predicate IsValid() {
      pciVendorId == vendor.PciVendorId()
    }
  }

  /** `record` stands for the remaining text fields, `fieldsValid` for the verdict on them. */
  datatype Package = Package(gpu: Gpu, publishedName: string, record: string, fieldsValid: bool) {
    function ValidateFor(target: Gpu): Outcome<ValidationError> {
      if !gpu.IsValid() then Fail(VendorMismatch)
      else if gpu != target then Fail(PackageGpuMismatch)
      else if !fieldsValid then Fail(InvalidField)
      else Pass
    }

    predicate IsValidFor(target: Gpu) {
      ValidateFor(target).Pass?
    }
  }

  predicate AllAreValid(gpu: Gpu, packages: seq<Package>) {
    forall p <- packages :: p.IsValidFor(gpu)
  }

  lemma AllAreValidPlusOne(gpu: Gpu, front: seq<Package>, last: Package)
    ensures AllAreValid(gpu, front + [last]) <==> AllAreValid(gpu, front) && last.IsValidFor(gpu)
  {
    assert forall p :: p in front + [last] <==> p in front || p == last;
  }

  predicate IsCanonical(gpu: Gpu, packages: seq<Package>) {
    AllAreValid(gpu, packages) && StrictlyAscending(NameOf, packages)
  }

  predicate IsUniqueAndValid(gpu: Gpu, packages: seq<Package>) {
    AllAreValid(gpu, packages) && KeysAreUnique(NameOf, packages)
  }

  function NameOf(p: Package): string {
    p.publishedName
  }

  function NamesOf(packages: seq<Package>): set<string> {
    set p <- packages :: p.publishedName
  }

  datatype Artifact = Artifact(gpu: Gpu, text: string, locatorValid: bool, signatureValid: bool) {
    function ValidateFor(target: Gpu): Outcome<ValidationError> {
      if !locatorValid then Fail(InvalidField)
      else if !gpu.IsValid() then Fail(VendorMismatch)
      else if gpu != target then Fail(ArtifactGpuMismatch)
      else if !signatureValid then Fail(InvalidArtifact)
      else Pass
    }
  }

  /** SHA-256 over the canonical encoding of a value, left uninterpreted. */
  datatype Digests = Digests(ofPlanInput: DriverPlanInput -> string, ofPackageSet: CanonicalPackageSet -> string)

  // ---------------------------------------------------------------------
  // Canonical package sets
  // ---------------------------------------------------------------------

  /** The check of the packages in order: each valid, each name above the one before. */
  function CheckPackages(gpu: Gpu, packages: seq<Package>): Outcome<ValidationError> {
    if packages == [] then Pass
    else
      var front, last := packages[..|packages| - 1], packages[|packages| - 1];
      :- CheckPackages(gpu, front);
      :- last.ValidateFor(gpu);
      if last.publishedName in NamesOf(front)
         || (front != [] && !Text.TextBelow(front[|front| - 1].publishedName, last.publishedName))
      then Fail(NonCanonicalPackageSet)
      else Pass
  }

  datatype CanonicalPackageSet = CanonicalPackageSet(gpu: Gpu, packages: seq<Package>) {
    function Validate(): Outcome<ValidationError> {
      if !gpu.IsValid() then Fail(VendorMismatch) else CheckPackages(gpu, packages)
    }

    static function FromUnsorted(gpu: Gpu, packages: seq<Package>): Result<CanonicalPackageSet, ValidationError> {
      var canonical := CanonicalPackageSet(gpu, SortedBy(NameOf, packages));
      var checked := canonical.Validate();
      if checked.Fail? then Err(checked.error) else Ok(canonical)
    }
  }

  method ValidatePackageSet(s: CanonicalPackageSet) returns (r: Outcome<ValidationError>)
    ensures r == s.Validate()
  {
    if !s.gpu.IsValid() {
      return Fail(VendorMismatch);
    }
    var names: set<string> := {};
    var previous: Option<string> := None;
    for i := 0 to |s.packages|
      invariant CheckPackages(s.gpu, s.packages[..i]) == Pass
      invariant names == NamesOf(s.packages[..i])
      invariant previous == (if i == 0 then None else Some(s.packages[i - 1].publishedName))
    {
      var package := s.packages[i];
      CheckOneMore(s.gpu, s.packages, i);
      var checked := package.ValidateFor(s.gpu);
      if checked.Fail? {
        return checked;
      }
      if package.publishedName in names || (previous.Some? && !Text.TextBelow(previous.value, package.publishedName)) {
        return Fail(NonCanonicalPackageSet);
      }
      names := names + {package.publishedName};
      previous := Some(package.publishedName);
    }
    assert s.packages[..|s.packages|] == s.packages;
    r := Pass;
  }

  /** What the next package adds to the check of the packages before it. */
  lemma CheckOneMore(gpu: Gpu, packages: seq<Package>, i: nat)
    requires i < |packages| && CheckPackages(gpu, packages[..i]).Pass?
    ensures var package, names := packages[i], NamesOf(packages[..i]);
            var next :=
              if package.ValidateFor(gpu).Fail? then package.ValidateFor(gpu)
              else if package.publishedName in names
                      || (i > 0 && !Text.TextBelow(packages[i - 1].publishedName, package.publishedName))
              then Fail(NonCanonicalPackageSet)
              else Pass;
            && CheckPackages(gpu, packages[..i + 1]) == next
            && (next.Fail? ==> CheckPackages(gpu, packages) == next)
    ensures NamesOf(packages[..i + 1]) == NamesOf(packages[..i]) + {packages[i].publishedName}
  {
    assert packages[..i + 1][..i] == packages[..i];
    assert packages[..i + 1] == packages[..i] + [packages[i]];
    if CheckPackages(gpu, packages[..i + 1]).Fail? {
      FailureSticks(gpu, packages, i + 1);
    }
  }

  lemma {:induction false} FailureSticks(gpu: Gpu, packages: seq<Package>, n: nat)
    requires n <= |packages| && CheckPackages(gpu, packages[..n]).Fail?
    ensures CheckPackages(gpu, packages) == CheckPackages(gpu, packages[..n])
  {
    if n < |packages| {
      assert packages[..|packages| - 1][..n] == packages[..n];
      FailureSticks(gpu, packages[..|packages| - 1], n);
    } else {
      assert packages[..n] == packages;
    }
  }

  lemma NameIsTaken(front: seq<Package>, last: Package)
    ensures last.publishedName in NamesOf(front) <==> !forall x <- front :: NameOf(x) != NameOf(last)
  {
  }

  /** What a valid set is. */
  lemma {:induction false} CheckedMeansStrict(gpu: Gpu, packages: seq<Package>)
    ensures CheckPackages(gpu, packages).Pass? <==>
              IsCanonical(gpu, packages)
  {
    if packages != [] {
      var n := |packages| - 1;
      var front, last := packages[..n], packages[n];
      CheckedMeansStrict(gpu, front);
      assert packages == front + [last];
      CanonicalPlusOne(gpu, front, last);
    }
  }

  lemma CanonicalPlusOne(gpu: Gpu, front: seq<Package>, last: Package)
    ensures IsCanonical(gpu, front + [last]) <==>
              && IsCanonical(gpu, front) && last.IsValidFor(gpu)
              && last.publishedName !in NamesOf(front)
              && (front == [] || Text.TextBelow(front[|front| - 1].publishedName, last.publishedName))
  {
    AllAreValidPlusOne(gpu, front, last);
    StrictPlusOne(NameOf, front, last);
    UniquePlusOne(NameOf, front, last);
    NameIsTaken(front, last);
    if StrictlyAscending(NameOf, front + [last]) {
      StrictKeysAreUnique(NameOf, front + [last]);
    }
  }

  /**
   * An inventory forms a canonical set exactly when the GPU and every package are
   * valid and the names are distinct; the result is the one sorted arrangement.
   */
  lemma FromUnsortedIsExact(gpu: Gpu, packages: seq<Package>)
    ensures var r := CanonicalPackageSet.FromUnsorted(gpu, packages);
            && (r.Ok? <==> gpu.IsValid() && IsUniqueAndValid(gpu, packages))
            && (r.Ok? ==> r.value.gpu == gpu && multiset(r.value.packages) == multiset(packages)
                          && StrictlyAscending(NameOf, r.value.packages))
  {
    var sorted := SortedBy(NameOf, packages);
    SortIsAnAscendingPermutation(NameOf, packages);
    CheckedMeansStrict(gpu, sorted);
    StrictIsUnique(NameOf, sorted);
    if KeysAreUnique(NameOf, packages) {
      UniqueKeysAreUniqueInAnyOrder(NameOf, packages, sorted);
    }
    if KeysAreUnique(NameOf, sorted) {
      UniqueKeysAreUniqueInAnyOrder(NameOf, sorted, packages);
    }
    SameMembers(packages, sorted);
  }

  lemma SameMembers(a: seq<Package>, b: seq<Package>)
    requires multiset(a) == multiset(b)
    ensures forall p :: p in a <==> p in b
    ensures NamesOf(a) == NamesOf(b)
  {
    assert forall p :: p in a <==> p in multiset(a);
    assert forall p :: p in b <==> p in multiset(b);
  }

  /** The order of the inventory does not matter, and no other sorted arrangement exists. */
  lemma FromUnsortedIgnoresOrder(gpu: Gpu, a: seq<Package>, b: seq<Package>)
    requires multiset(a) == multiset(b)
    ensures CanonicalPackageSet.FromUnsorted(gpu, a).Ok? == CanonicalPackageSet.FromUnsorted(gpu, b).Ok?
    ensures CanonicalPackageSet.FromUnsorted(gpu, a).Ok? ==>
              CanonicalPackageSet.FromUnsorted(gpu, a) == CanonicalPackageSet.FromUnsorted(gpu, b)
  {
    FromUnsortedIsExact(gpu, a);
    FromUnsortedIsExact(gpu, b);
    SameMembers(a, b);
    if KeysAreUnique(NameOf, a) {
      UniqueKeysAreUniqueInAnyOrder(NameOf, a, b);
    }
    if KeysAreUnique(NameOf, b) {
      UniqueKeysAreUniqueInAnyOrder(NameOf, b, a);
    }
    var x, y := CanonicalPackageSet.FromUnsorted(gpu, a), CanonicalPackageSet.FromUnsorted(gpu, b);
    if x.Ok? && y.Ok? {
      SameMembers(a, x.value.packages);
      SameMembers(b, y.value.packages);
      StrictOrderIsUnique(NameOf, x.value.packages, y.value.packages);
    }
  }

  // ---------------------------------------------------------------------
  // The dry-run plan
  // ---------------------------------------------------------------------

  datatype PlanStep = P1Step18 | P1Step19 | P2Step2 | P3Step1

  datatype PlannedAction =
    | InspectExactGpu(gpu: Gpu)
    | RecordExactPackages(packages: seq<Package>)
    | ProposePackageCleanup(publishedNames: seq<string>)
    | ProposeSignedArtifactInstall(artifact: Artifact)

  datatype PlanEntry = PlanEntry(step: PlanStep, action: PlannedAction)

  datatype DriverPlanInput = DriverPlanInput(gpu: Gpu, packages: seq<Package>, artifact: Artifact) {
    function Validate(): Outcome<ValidationError> {
      if !gpu.IsValid() then Fail(VendorMismatch)
      else if packages == [] then Fail(InstalledPackagesRequired)
      else
        :- CheckInstalled(gpu, packages);
        artifact.ValidateFor(gpu)
    }
  }

  /** Each package valid and each name new, in any order. */
  function CheckInstalled(gpu: Gpu, packages: seq<Package>): Outcome<ValidationError> {
    if packages == [] then Pass
    else
      var front, last := packages[..|packages| - 1], packages[|packages| - 1];
      :- CheckInstalled(gpu, front);
      :- last.ValidateFor(gpu);
      if last.publishedName in NamesOf(front) then Fail(DuplicatePublishedName) else Pass
  }

  method ValidatePlanInput(input: DriverPlanInput) returns (r: Outcome<ValidationError>)
    ensures r == input.Validate()
  {
    if !input.gpu.IsValid() {
      return Fail(VendorMismatch);
    }
    if input.packages == [] {
      return Fail(InstalledPackagesRequired);
    }
    var names: set<string> := {};
    for i := 0 to |input.packages|
      invariant CheckInstalled(input.gpu, input.packages[..i]) == Pass
      invariant names == NamesOf(input.packages[..i])
    {
      var package := input.packages[i];
      assert input.packages[..i + 1][..i] == input.packages[..i];
      ghost var upTo := input.packages[..i + 1];
      var checked := package.ValidateFor(input.gpu);
      if checked.Fail? || package.publishedName in names {
        r := if checked.Fail? then checked else Fail(DuplicatePublishedName);
        assert CheckInstalled(input.gpu, upTo) == r;
        InstalledFailureSticks(input.gpu, input.packages, i + 1);
        return;
      }
      names := names + {package.publishedName};
    }
    assert input.packages[..|input.packages|] == input.packages;
    r := input.artifact.ValidateFor(input.gpu);
  }

  lemma {:induction false} InstalledFailureSticks(gpu: Gpu, packages: seq<Package>, n: nat)
    requires n <= |packages| && CheckInstalled(gpu, packages[..n]).Fail?
    ensures CheckInstalled(gpu, packages) == CheckInstalled(gpu, packages[..n])
  {
    if n < |packages| {
      assert packages[..|packages| - 1][..n] == packages[..n];
      InstalledFailureSticks(gpu, packages[..|packages| - 1], n);
    } else {
      assert packages[..n] == packages;
    }
  }

  lemma {:induction false} InstalledMeansUnique(gpu: Gpu, packages: seq<Package>)
    ensures CheckInstalled(gpu, packages).Pass? <==>
              IsUniqueAndValid(gpu, packages)
  {
    if packages != [] {
      var n := |packages| - 1;
      InstalledMeansUnique(gpu, packages[..n]);
      assert packages == packages[..n] + [packages[n]];
      AllAreValidPlusOne(gpu, packages[..n], packages[n]);
      UniquePlusOne(NameOf, packages[..n], packages[n]);
      NameIsTaken(packages[..n], packages[n]);
    }
  }

  datatype DryRunPlan = DryRunPlan(schemaVersion: nat, readOnly: bool, gpu: Gpu, inputSha: string, entries: seq<PlanEntry>) {
    function Validate(): Outcome<ValidationError> {
      if schemaVersion != SCHEMA_VERSION then Fail(InvalidField)
      else if !readOnly then Fail(NotReadOnly)
      else if !gpu.IsValid() then Fail(VendorMismatch)
      else if |entries| != 4 || entries[0].step != P1Step18 || entries[1].step != P1Step19
              || entries[2].step != P2Step2 || entries[3].step != P3Step1
      then Fail(InvalidPlan)
      else Pass
    }

    function PlannedNames(): Result<set<string>, ValidationError> {
      if |entries| > 1 && entries[1].action.RecordExactPackages? then Ok(NamesOf(entries[1].action.packages))
      else Err(CapturePlanMismatch)
    }
  }

  function NameList(packages: seq<Package>): seq<string> {
    seq(|packages|, i requires 0 <= i < |packages| => packages[i].publishedName)
  }

  function GeneratePlan(d: Digests, input: DriverPlanInput): Result<DryRunPlan, ValidationError> {
    var checked := input.Validate();
    if checked.Fail? then Err(checked.error)
    else
      var packages := SortedBy(NameOf, input.packages);
      Ok(DryRunPlan(SCHEMA_VERSION, true, input.gpu, d.ofPlanInput(input.(packages := packages)),
                    [PlanEntry(P1Step18, InspectExactGpu(input.gpu)),
                     PlanEntry(P1Step19, RecordExactPackages(packages)),
                     PlanEntry(P2Step2, ProposePackageCleanup(NameList(packages))),
                     PlanEntry(P3Step1, ProposeSignedArtifactInstall(input.artifact))]))
  }

  /** Two inventories of the same packages are both refused or give the same plan and fingerprint. */
  lemma PlanIgnoresPackageOrder(d: Digests, input: DriverPlanInput, other: seq<Package>)
    requires multiset(other) == multiset(input.packages)
    ensures var a, b := GeneratePlan(d, input), GeneratePlan(d, input.(packages := other));
            a.Ok? == b.Ok? && (a.Ok? ==> a == b)
  {
    assert |other| == |multiset(other)| && |input.packages| == |multiset(input.packages)|;
    InstalledMeansUnique(input.gpu, input.packages);
    InstalledMeansUnique(input.gpu, other);
    SameMembers(other, input.packages);
    if KeysAreUnique(NameOf, other) {
      UniqueKeysAreUniqueInAnyOrder(NameOf, other, input.packages);
    }
    if KeysAreUnique(NameOf, input.packages) {
      UniqueKeysAreUniqueInAnyOrder(NameOf, input.packages, other);
      var x, y := SortedBy(NameOf, input.packages), SortedBy(NameOf, other);
      SortIsAnAscendingPermutation(NameOf, input.packages);
      SortIsAnAscendingPermutation(NameOf, other);
      UniqueKeysAreUniqueInAnyOrder(NameOf, input.packages, x);
      UniqueKeysAreUniqueInAnyOrder(NameOf, other, y);
      StrictIsUnique(NameOf, x);
      StrictIsUnique(NameOf, y);
      SameMembers(x, y);
      StrictOrderIsUnique(NameOf, x, y);
    }
  }

  /** A generated plan is valid, plans exactly the installed names, and is itself a canonical package set. */
  lemma GeneratedPlanIsValid(d: Digests, input: DriverPlanInput)
    requires GeneratePlan(d, input).Ok?
    ensures var plan := GeneratePlan(d, input).value;
            && plan.Validate().Pass?
            && plan.PlannedNames() == Ok(NamesOf(input.packages))
            && CanonicalPackageSet.FromUnsorted(input.gpu, input.packages) == Ok(CanonicalPackageSet(input.gpu, plan.entries[1].action.packages))
  {
    SortIsAnAscendingPermutation(NameOf, input.packages);
    SameMembers(SortedBy(NameOf, input.packages), input.packages);
    InstalledMeansUnique(input.gpu, input.packages);
    FromUnsortedIsExact(input.gpu, input.packages);
  }

  // ---------------------------------------------------------------------
  // What the checks accept, exactly
  // ---------------------------------------------------------------------

  /** The vendor and its PCI id belong together: 0x10de, 0x1002 or 0x8086. */
  predicate IsConsistent(gpu: Gpu) {
    || (gpu.vendor.Nvidia? && gpu.pciVendorId == 4318)
    || (gpu.vendor.Amd? && gpu.pciVendorId == 4098)
    || (gpu.vendor.Intel? && gpu.pciVendorId == 32902)
  }

  predicate AllBelongTo(gpu: Gpu, packages: seq<Package>) {
    forall p <- packages :: p.gpu == gpu && p.fieldsValid
  }

  predicate NamesDiffer(packages: seq<Package>) {
    forall i, j :: 0 <= i < j < |packages| ==> packages[i].publishedName != packages[j].publishedName
  }

  lemma PackagesMean(gpu: Gpu, packages: seq<Package>)
    requires IsConsistent(gpu)
    ensures AllAreValid(gpu, packages) <==> AllBelongTo(gpu, packages)
    ensures KeysAreUnique(NameOf, packages) <==> NamesDiffer(packages)
  {
  }

  /** A set is canonical exactly with all packages the GPU's and their names strictly ascending. */
  lemma CanonicalSetMeans(s: CanonicalPackageSet)
    ensures s.Validate().Pass? <==>
              && IsConsistent(s.gpu) && AllBelongTo(s.gpu, s.packages)
              && forall i, j :: 0 <= i < j < |s.packages| ==>
                   Text.TextBelow(s.packages[i].publishedName, s.packages[j].publishedName)
  {
    CheckedMeansStrict(s.gpu, s.packages);
    if IsConsistent(s.gpu) {
      PackagesMean(s.gpu, s.packages);
    }
  }

  /** A stored plan is accepted exactly with its four steps in order, read-only, for a consistent GPU. */
  lemma PlanIsAcceptedExactly(plan: DryRunPlan)
    ensures plan.Validate().Pass? <==>
              && plan.schemaVersion == 1 && plan.readOnly && IsConsistent(plan.gpu)
              && |plan.entries| == 4 && plan.entries[0].step.P1Step18? && plan.entries[1].step.P1Step19?
              && plan.entries[2].step.P2Step2? && plan.entries[3].step.P3Step1?
  {
  }

  /**
   * A plan is generated exactly for a consistent GPU, at least one package, all of
   * them and a signed artifact the GPU's, and distinct names; it inspects the GPU,
   * records the packages in one order, proposes their names in that order, and the
   * artifact.
   */
  lemma PlanIsGeneratedExactly(d: Digests, input: DriverPlanInput)
    ensures GeneratePlan(d, input).Ok? <==>
              && IsConsistent(input.gpu) && input.packages != []
              && AllBelongTo(input.gpu, input.packages) && NamesDiffer(input.packages)
              && input.artifact.gpu == input.gpu && input.artifact.locatorValid && input.artifact.signatureValid
    ensures GeneratePlan(d, input).Ok? ==>
              var plan := GeneratePlan(d, input).value;
              && plan.gpu == input.gpu && |plan.entries| == 4
              && plan.entries[0].action == InspectExactGpu(input.gpu)
              && plan.entries[1].action.RecordExactPackages? && plan.entries[2].action.ProposePackageCleanup?
              && plan.entries[3].action == ProposeSignedArtifactInstall(input.artifact)
              && var packages, names := plan.entries[1].action.packages, plan.entries[2].action.publishedNames;
                 && multiset(packages) == multiset(input.packages)
                 && |names| == |packages| && (forall i :: 0 <= i < |names| ==> names[i] == packages[i].publishedName)
                 && plan.inputSha == d.ofPlanInput(DriverPlanInput(input.gpu, packages, input.artifact))
  {
    InstalledMeansUnique(input.gpu, input.packages);
    SortIsAnAscendingPermutation(NameOf, input.packages);
    if IsConsistent(input.gpu) {
      PackagesMean(input.gpu, input.packages);
    }
  }
}
