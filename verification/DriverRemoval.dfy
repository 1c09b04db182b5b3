/** Removing an immutable captured package set from a live Driver Store, across crashes. */
module DriverRemoval {
  import opened Wrappers
  import opened Sorting
  import opened DriverModel
  import opened DriverEvidence

  datatype Failure =
    | AdapterFailed
    | Refused(error: ValidationError)
    | CapturedSetChanged
    | RecordNotCaptured
    | StoreDisagrees
    | NothingRemovedYet

  // ---------------------------------------------------------------------
  // Removal progress
  // ---------------------------------------------------------------------

  function FindByName(packages: seq<Package>, name: string): (r: Option<Package>)
    ensures r.Some? ==> r.value in packages && r.value.publishedName == name
    ensures r.None? ==> name !in NamesOf(packages)
  {
    if packages == [] then None
    else if packages[0].publishedName == name then Some(packages[0])
    else FindByName(packages[1..], name)
  }

  /** Store presence and inventory record agree: both whole, or both absent. */
  predicate Agrees(expected: Package, current: seq<Package>, names: set<string>) {
    var found := FindByName(current, expected.publishedName);
    if expected.publishedName in names then found == Some(expected) else found.None?
  }

  /** The comparison of a canonical inventory with the captured packages. */
  function Progress(captured: seq<Package>, current: seq<Package>, names: set<string>): Result<bool, Failure> {
    if exists p <- current :: p !in captured then Err(RecordNotCaptured)
    else if exists p <- captured :: !Agrees(p, current, names) then Err(StoreDisagrees)
    else Ok(exists p <- captured :: p.publishedName !in names)
  }

  function RemovalStarted(capture: Capture, records: seq<Package>, names: set<string>): Result<bool, Failure> {
    var checked := capture.installed.Validate();
    if checked.Fail? then Err(Refused(checked.error))
    else
      var current := CanonicalPackageSet.FromUnsorted(capture.gpu, records);
      if current.Err? then Err(Refused(current.error))
      else Progress(capture.installed.packages, current.value.packages, names)
  }

  /** The live store holds a part of the capture, record by record, and nothing else of it. */
  ghost predicate HoldsPartOf(capture: Capture, records: seq<Package>, names: set<string>) {
    && KeysAreUnique(NameOf, records)
    && (forall p <- records :: p in capture.installed.packages)
    && (forall p <- capture.installed.packages :: p.publishedName in names <==> p in records)
  }

  predicate CaptureIsSound(capture: Capture) {
    capture.installed.Validate().Pass? && capture.installed.gpu == capture.gpu
  }

  lemma CapturedNamesAreUnique(capture: Capture)
    requires CaptureIsSound(capture)
    ensures KeysAreUnique(NameOf, capture.installed.packages)
    ensures AllAreValid(capture.gpu, capture.installed.packages) && capture.gpu.IsValid()
  {
    CheckedMeansStrict(capture.gpu, capture.installed.packages);
    StrictKeysAreUnique(NameOf, capture.installed.packages);
  }

  lemma SameNameSamePackage(packages: seq<Package>, p: Package, q: Package)
    requires KeysAreUnique(NameOf, packages) && p in packages && q in packages
    requires p.publishedName == q.publishedName
    ensures p == q
  {
    var i :| 0 <= i < |packages| && packages[i] == p;
    var j :| 0 <= j < |packages| && packages[j] == q;
    assert NameOf(packages[i]) == NameOf(packages[j]);
  }

  lemma AgreementIsMembership(captured: seq<Package>, expected: Package, current: seq<Package>, names: set<string>)
    requires KeysAreUnique(NameOf, captured) && expected in captured
    requires forall p <- current :: p in captured
    ensures Agrees(expected, current, names) <==> (expected.publishedName in names <==> expected in current)
  {
    var found := FindByName(current, expected.publishedName);
    if found.Some? {
      SameNameSamePackage(captured, found.value, expected);
    } else {
      assert expected in current ==> expected.publishedName in NamesOf(current);
    }
  }

  lemma ProgressIsExact(captured: seq<Package>, current: seq<Package>, names: set<string>)
    requires KeysAreUnique(NameOf, captured)
    ensures Progress(captured, current, names).Ok? <==>
              && (forall p <- current :: p in captured)
              && (forall p <- captured :: p.publishedName in names <==> p in current)
    ensures Progress(captured, current, names).Ok? ==>
              (Progress(captured, current, names).value <==> exists p <- captured :: p !in current)
  {
    if forall p <- current :: p in captured {
      forall p | p in captured ensures Agrees(p, current, names) <==> (p.publishedName in names <==> p in current) {
        AgreementIsMembership(captured, p, current, names);
      }
    }
  }

  lemma CheckPassesOnParts(capture: Capture, records: seq<Package>, names: set<string>)
    requires CaptureIsSound(capture)
    ensures RemovalStarted(capture, records, names).Ok? <==> HoldsPartOf(capture, records, names)
    ensures RemovalStarted(capture, records, names).Ok? ==>
              (RemovalStarted(capture, records, names).value <==> exists p <- capture.installed.packages :: p !in records)
  {
    var captured := capture.installed.packages;
    CapturedNamesAreUnique(capture);
    FromUnsortedIsExact(capture.gpu, records);
    var current := CanonicalPackageSet.FromUnsorted(capture.gpu, records);
    if current.Ok? {
      SameMembers(records, current.value.packages);
      ProgressIsExact(captured, current.value.packages, names);
    } else {
      assert HoldsPartOf(capture, records, names) ==> AllAreValid(capture.gpu, records);
    }
  }

  lemma CheckOnAnyCapture(capture: Capture, records: seq<Package>, names: set<string>)
    requires capture.installed.Validate().Pass?
    ensures RemovalStarted(capture, records, names).Ok? <==>
              && IsConsistent(capture.gpu) && (records == [] || capture.installed.gpu == capture.gpu)
              && HoldsPartOf(capture, records, names)
    ensures RemovalStarted(capture, records, names).Ok? ==>
              (RemovalStarted(capture, records, names).value <==> exists p <- capture.installed.packages :: p !in records)
  {
    var captured := capture.installed.packages;
    var current := CanonicalPackageSet.FromUnsorted(capture.gpu, records);
    CheckedMeansStrict(capture.installed.gpu, captured);
    StrictKeysAreUnique(NameOf, captured);
    FromUnsortedIsExact(capture.gpu, records);
    assert capture.installed.gpu == capture.gpu && HoldsPartOf(capture, records, names) ==> AllAreValid(capture.gpu, records);
    if current.Ok? {
      SameMembers(records, current.value.packages);
      ProgressIsExact(captured, current.value.packages, names);
      if records != [] {
        assert records[0] in records && records[0].IsValidFor(capture.gpu);
      }
    }
  }

  /**
   * On any capture at all the check passes exactly if the captured set is canonical and
   * the store holds a part of it, and tells whether the part is proper.
   */
  lemma RemovalStartedIsExact(capture: Capture, records: seq<Package>, names: set<string>)
    ensures var r := RemovalStarted(capture, records, names);
            var live, captured := Members(records), Members(capture.installed.packages);
            && (r.Ok? <==>
                  && capture.installed.Validate().Pass? && IsConsistent(capture.gpu)
                  && (records == [] || capture.installed.gpu == capture.gpu) && HoldsPartOf(capture, records, names))
            && (r.Ok? ==> live <= captured && (r.value <==> live < captured))
  {
    if capture.installed.Validate().Pass? {
      CheckOnAnyCapture(capture, records, names);
      if HoldsPartOf(capture, records, names) {
        ProperPart(records, capture.installed.packages);
      }
    }
  }

  function Members(packages: seq<Package>): set<Package> {
    set p <- packages
  }

  lemma ProperPart(records: seq<Package>, captured: seq<Package>)
    requires forall p <- records :: p in captured
    ensures Members(records) <= Members(captured)
    ensures (exists p <- captured :: p !in records) <==> Members(records) != Members(captured)
  {
    if p :| p in captured && p !in records {
      assert p in Members(captured) && p !in Members(records);
    }
    if forall p <- captured :: p in records {
      assert Members(records) == Members(captured);
    }
  }

  // ---------------------------------------------------------------------
  // What a removal may do to the store
  // ---------------------------------------------------------------------

  function Without(records: seq<Package>, gone: set<string>): seq<Package> {
    if records == [] then []
    else
      var front, last := records[..|records| - 1], records[|records| - 1];
      Without(front, gone) + (if last.publishedName in gone then [] else [last])
  }

  lemma {:induction false} WithoutTwice(records: seq<Package>, gone: set<string>, more: set<string>)
    ensures Without(Without(records, gone), more) == Without(records, gone + more)
  {
    if records != [] {
      var front, last := records[..|records| - 1], records[|records| - 1];
      WithoutTwice(front, gone, more);
      var kept := Without(front, gone) + [last];
      assert kept[..|kept| - 1] == Without(front, gone) && kept[|kept| - 1] == last;
      assert Without(front, gone) + [] == Without(front, gone);
    }
  }

  lemma {:induction false} WithoutNone(records: seq<Package>)
    ensures Without(records, {}) == records
  {
    if records != [] {
      WithoutNone(records[..|records| - 1]);
    }
  }

  lemma {:induction false} WithoutIsFiltered(records: seq<Package>, gone: set<string>)
    ensures forall p :: p in Without(records, gone) <==> p in records && p.publishedName !in gone
    ensures KeysAreUnique(NameOf, records) ==> KeysAreUnique(NameOf, Without(records, gone))
  {
    if records != [] {
      var front, last := records[..|records| - 1], records[|records| - 1];
      WithoutIsFiltered(front, gone);
      assert records == front + [last];
      UniquePlusOne(NameOf, front, last);
      UniquePlusOne(NameOf, Without(front, gone), last);
      if last.publishedName in gone {
        assert Without(records, gone) == Without(front, gone);
      }
    }
  }

  /** Any removal run, whole or cut short, leaves a part of the capture. */
  lemma RemovalLeavesAPart(capture: Capture, records: seq<Package>, names: set<string>, gone: set<string>)
    requires CaptureIsSound(capture) && HoldsPartOf(capture, records, names)
    ensures HoldsPartOf(capture, Without(records, gone), names - gone)
    ensures Members(Without(records, gone)) <= Members(records)
  {
    WithoutIsFiltered(records, gone);
  }

  // ---------------------------------------------------------------------
  // The adapters
  // ---------------------------------------------------------------------

  /** What one adapter call does besides answering. */
  datatype Fault = NoFault | FailsBefore | FailsAfter | ReportsFailure

  /** The host behind the adapters; call number n meets fault(n) at clock(n). */
  class DriverHost {
    const fault: nat -> Fault
    const clock: nat -> Timestamp
    const safeMode: nat -> SafeModeObservation
    var calls: nat
    var records: seq<Package>
    var names: set<string>

    constructor (fault: nat -> Fault, clock: nat -> Timestamp, safeMode: nat -> SafeModeObservation,
                 records: seq<Package>, names: set<string>)
      ensures this.fault == fault && this.clock == clock && this.safeMode == safeMode
      ensures this.records == records && this.names == names && calls == 0
    {
      this.fault, this.clock, this.safeMode := fault, clock, safeMode;
      this.records, this.names, calls := records, names, 0;
    }

    method CurrentUtc() returns (r: Result<Timestamp, Failure>)
      modifies this`calls
      ensures calls == old(calls) + 1
      ensures r == old(if fault(calls).NoFault? then Ok(clock(calls)) else Err(AdapterFailed))
    {
      var n := calls;
      calls := calls + 1;
      r := if fault(n).NoFault? then Ok(clock(n)) else Err(AdapterFailed);
    }

    method ObserveSafeMode() returns (r: Result<SafeModeObservation, Failure>)
      modifies this`calls
      ensures calls == old(calls) + 1
      ensures r == old(if fault(calls).NoFault? then Ok(safeMode(calls)) else Err(AdapterFailed))
    {
      var n := calls;
      calls := calls + 1;
      r := if fault(n).NoFault? then Ok(safeMode(n)) else Err(AdapterFailed);
    }

    method InspectPublishedPackages() returns (r: Result<seq<Package>, Failure>)
      modifies this`calls
      ensures calls == old(calls) + 1
      ensures r == old(if fault(calls).NoFault? then Ok(records) else Err(AdapterFailed))
    {
      var n := calls;
      calls := calls + 1;
      r := if fault(n).NoFault? then Ok(records) else Err(AdapterFailed);
    }

    method IsPresent(name: string) returns (r: Result<bool, Failure>)
      modifies this`calls
      ensures calls == old(calls) + 1
      ensures r == old(if fault(calls).NoFault? then Ok(name in names) else Err(AdapterFailed))
    {
      var n := calls;
      calls := calls + 1;
      r := if fault(n).NoFault? then Ok(name in names) else Err(AdapterFailed);
    }

    /** Removes the package by name, or loses the call before or after doing so. */
    method RemovePublishedPackage(expected: Package) returns (r: Result<RemovalOutcome, Failure>)
      modifies this
      ensures calls == old(calls) + 1
      ensures (records == old(records) && names == old(names))
              || (records == Without(old(records), {expected.publishedName}) && names == old(names) - {expected.publishedName})
      ensures r.Ok? ==> r.value.publishedName == expected.publishedName
      ensures old(fault(calls)).NoFault? ==> r.Ok? && !r.value.disposition.Failed? && r.value.observedAt == old(clock(calls))
      ensures old(fault(calls)).NoFault? ==>
                records == Without(old(records), {expected.publishedName}) && names == old(names) - {expected.publishedName}
    {
      var n, name := calls, expected.publishedName;
      calls := calls + 1;
      if fault(n).FailsBefore? {
        return Err(AdapterFailed);
      }
      if fault(n).ReportsFailure? {
        return Ok(RemovalOutcome(name, Failed("removal failed"), clock(n)));
      }
      var disposition := if name in names then Removed else AlreadyAbsent;
      records := Without(records, {name});
      names := names - {name};
      r := if fault(n).FailsAfter? then Err(AdapterFailed) else Ok(RemovalOutcome(name, disposition, clock(n)));
    }
  }
}
