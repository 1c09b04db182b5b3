/** The persisted snapshot of a CFG write set: capture, validation, restore. */
module CfgTransaction {
  import opened Wrappers
  import opened CfgTargets
  import opened CfgFiles
  import opened CfgController
  import opened CfgOperations

  const CONFIG_STEP := "P1:34"
  const OPTIONAL_STEP := "CS2:CFG"
  const MAX_FILE_BYTES := 1048576
  const MAX_TOTAL_BYTES := 8388608

  datatype Snapshot = Snapshot(target: Cs2ConfigTarget, existed: bool, original: Option<Bytes>, digest: Option<string>)

  /** The identity of a validated install, as its fingerprint. */
  type Fingerprint = string

  datatype Transaction = Transaction(
    step: string,
    timestamp: string,
    install: Fingerprint,
    snapshots: seq<Snapshot>,
    hasUnknownFields: bool)

  datatype BackupError =
    | Config(error: ConfigError)
    | ReadFailed(target: Cs2ConfigTarget)
    | FileTooLarge(target: Cs2ConfigTarget)
    | TotalTooLarge
    | WrongStep
    | InstallMismatch
    | DuplicateTarget(target: Cs2ConfigTarget)
    | MissingTarget(target: Cs2ConfigTarget)
    | UnexpectedTarget(target: Cs2ConfigTarget)
    | TargetOrderMismatch
    | AbsentTargetHasBytes(target: Cs2ConfigTarget)
    | ExistingTargetMissingBytes(target: Cs2ConfigTarget)
    | MissingDigest(target: Cs2ConfigTarget)
    | DigestMismatch(target: Cs2ConfigTarget)
    | UnknownFields

  /** SHA-256, left uninterpreted. */
  type Sha = Bytes -> string

  function Originals(snapshots: seq<Snapshot>): seq<Original> {
    seq(|snapshots|, i requires 0 <= i < |snapshots| => (snapshots[i].target, snapshots[i].original))
  }

  function SnapshotTargets(snapshots: seq<Snapshot>): seq<Cs2ConfigTarget> {
    seq(|snapshots|, i requires 0 <= i < |snapshots| => snapshots[i].target)
  }

  // ---------------------------------------------------------------------
  // Validation
  // ---------------------------------------------------------------------

  function SizeOf(content: Option<Bytes>): nat {
    if content.Some? then content.value.Size() else 0
  }

  /** The bytes of one snapshot against its digest and the limits; gives the new total. */
  function CheckBytes(sha: Sha, s: Snapshot, total: nat): Result<nat, BackupError> {
    if !s.existed then
      if s.original.None? && s.digest.None? then Ok(total) else Err(AbsentTargetHasBytes(s.target))
    else if s.original.None? then Err(ExistingTargetMissingBytes(s.target))
    else if s.original.value.Size() > MAX_FILE_BYTES then Err(FileTooLarge(s.target))
    else if total + s.original.value.Size() > MAX_TOTAL_BYTES then Err(TotalTooLarge)
    else if s.digest.None? then Err(MissingDigest(s.target))
    else if s.digest.value != sha(s.original.value) then Err(DigestMismatch(s.target))
    else Ok(total + s.original.value.Size())
  }

  function CheckSnapshots(sha: Sha, snapshots: seq<Snapshot>, expected: seq<Cs2ConfigTarget>)
    : Result<nat, BackupError>
  {
    if snapshots == [] then Ok(0)
    else
      var front, last := snapshots[..|snapshots| - 1], snapshots[|snapshots| - 1];
      var total :- CheckSnapshots(sha, front, expected);
      if last.target in SnapshotTargets(front) then Err(DuplicateTarget(last.target))
      else if last.target !in expected then Err(UnexpectedTarget(last.target))
      else CheckBytes(sha, last, total)
  }

  function FirstMissing(expected: seq<Cs2ConfigTarget>, seen: seq<Cs2ConfigTarget>): Option<Cs2ConfigTarget> {
    if expected == [] then None
    else if expected[0] !in seen then Some(expected[0])
    else FirstMissing(expected[1..], seen)
  }

  function ValidateSnapshots(sha: Sha, snapshots: seq<Snapshot>, expected: seq<Cs2ConfigTarget>): Outcome<BackupError> {
    var checked := CheckSnapshots(sha, snapshots, expected);
    var missing := FirstMissing(expected, SnapshotTargets(snapshots));
    if checked.Err? then Fail(checked.error)
    else if missing.Some? then Fail(MissingTarget(missing.value))
    else if SnapshotTargets(snapshots) != expected then Fail(TargetOrderMismatch)
    else Pass
  }

  method ValidateSnapshotTargets(sha: Sha, snapshots: seq<Snapshot>, expected: seq<Cs2ConfigTarget>)
    returns (r: Outcome<BackupError>)
    ensures r == ValidateSnapshots(sha, snapshots, expected)
  {
    var seen: set<Cs2ConfigTarget> := {};
    var totalBytes: nat := 0;
    for i := 0 to |snapshots|
      invariant CheckSnapshots(sha, snapshots[..i], expected) == Ok(totalBytes)
      invariant forall t :: t in seen <==> t in SnapshotTargets(snapshots[..i])
    {
      var snapshot := snapshots[i];
      ghost var upTo := snapshots[..i + 1];
      assert upTo[..i] == snapshots[..i];
      assert SnapshotTargets(upTo) == SnapshotTargets(snapshots[..i]) + [snapshot.target];
      if CheckSnapshots(sha, upTo, expected).Err? {
        RefusalSticks(sha, snapshots, expected, i + 1);
      }
      if snapshot.target in seen {
        return Fail(DuplicateTarget(snapshot.target));
      }
      seen := seen + {snapshot.target};
      if snapshot.target !in expected {
        return Fail(UnexpectedTarget(snapshot.target));
      }
      var checked := CheckBytes(sha, snapshot, totalBytes);
      if checked.Err? {
        return Fail(checked.error);
      }
      totalBytes := checked.value;
    }
    assert snapshots[..|snapshots|] == snapshots;
    for i := 0 to |expected|
      invariant FirstMissing(expected, SnapshotTargets(snapshots)) == FirstMissing(expected[i..], SnapshotTargets(snapshots))
    {
      assert expected[i..][1..] == expected[i + 1..];
      if expected[i] !in seen {
        return Fail(MissingTarget(expected[i]));
      }
    }
    r := if SnapshotTargets(snapshots) != expected then Fail(TargetOrderMismatch) else Pass;
  }

  lemma {:induction false} RefusalSticks(sha: Sha, snapshots: seq<Snapshot>, expected: seq<Cs2ConfigTarget>, n: nat)
    requires n <= |snapshots| && CheckSnapshots(sha, snapshots[..n], expected).Err?
    ensures CheckSnapshots(sha, snapshots, expected) == CheckSnapshots(sha, snapshots[..n], expected)
  {
    if n < |snapshots| {
      assert snapshots[..|snapshots| - 1][..n] == snapshots[..n];
      RefusalSticks(sha, snapshots[..|snapshots| - 1], expected, n);
    } else {
      assert snapshots[..n] == snapshots;
    }
  }

  /** One snapshot that says what it holds. */
  predicate IsWellFormed(sha: Sha, s: Snapshot) {
    && s.existed == s.original.Some?
    && s.digest == (if s.original.Some? then Some(sha(s.original.value)) else None)
    && SizeOf(s.original) <= MAX_FILE_BYTES
  }

  function TotalSize(originals: seq<Original>): nat {
    if originals == [] then 0
    else TotalSize(originals[..|originals| - 1]) + SizeOf(originals[|originals| - 1].1)
  }

  lemma BytesAreWellFormed(sha: Sha, s: Snapshot, total: nat)
    requires total <= MAX_TOTAL_BYTES
    ensures CheckBytes(sha, s, total).Ok? <==> IsWellFormed(sha, s) && total + SizeOf(s.original) <= MAX_TOTAL_BYTES
    ensures CheckBytes(sha, s, total).Ok? ==> CheckBytes(sha, s, total).value == total + SizeOf(s.original)
  {
  }

  lemma {:induction false} CheckedIsWellFormed(sha: Sha, snapshots: seq<Snapshot>, expected: seq<Cs2ConfigTarget>)
    ensures CheckSnapshots(sha, snapshots, expected).Ok? <==>
              && Distinct(SnapshotTargets(snapshots))
              && (forall t <- SnapshotTargets(snapshots) :: t in expected)
              && (forall s <- snapshots :: IsWellFormed(sha, s))
              && TotalSize(Originals(snapshots)) <= MAX_TOTAL_BYTES
    ensures CheckSnapshots(sha, snapshots, expected).Ok? ==>
              CheckSnapshots(sha, snapshots, expected).value == TotalSize(Originals(snapshots))
  {
    if snapshots != [] {
      var n := |snapshots| - 1;
      var front, last := snapshots[..n], snapshots[n];
      CheckedIsWellFormed(sha, front, expected);
      assert snapshots == front + [last];
      assert SnapshotTargets(snapshots) == SnapshotTargets(front) + [last.target];
      assert Originals(snapshots) == Originals(front) + [(last.target, last.original)];
      assert Originals(snapshots)[..n] == Originals(front);
      assert TotalSize(Originals(snapshots)) == TotalSize(Originals(front)) + SizeOf(last.original);
      if TotalSize(Originals(front)) <= MAX_TOTAL_BYTES {
        BytesAreWellFormed(sha, last, TotalSize(Originals(front)));
      }
      assert forall s :: s in snapshots <==> s in front || s == last;
      DistinctPlusOne(SnapshotTargets(front), last.target);
    }
  }

  lemma DistinctPlusOne(front: seq<Cs2ConfigTarget>, last: Cs2ConfigTarget)
    ensures Distinct(front + [last]) <==> Distinct(front) && last !in front
  {
    var whole := front + [last];
    if Distinct(whole) {
      assert forall i :: 0 <= i < |front| ==> front[i] == whole[i];
      assert whole[|front|] == last;
    }
  }

  lemma {:induction false} NothingIsMissing(expected: seq<Cs2ConfigTarget>, seen: seq<Cs2ConfigTarget>)
    ensures FirstMissing(expected, seen).None? <==> forall t <- expected :: t in seen
  {
    if expected != [] {
      NothingIsMissing(expected[1..], seen);
      assert forall t :: t in expected <==> t == expected[0] || t in expected[1..];
    }
  }

  /** A snapshot list is valid exactly when it is the expected targets, in order, each well formed and within the limits. */
  lemma ValidationIsExact(sha: Sha, snapshots: seq<Snapshot>, expected: seq<Cs2ConfigTarget>)
    requires Distinct(expected)
    ensures ValidateSnapshots(sha, snapshots, expected).Pass? <==>
              && SnapshotTargets(snapshots) == expected
              && (forall s <- snapshots :: IsWellFormed(sha, s))
              && TotalSize(Originals(snapshots)) <= MAX_TOTAL_BYTES
  {
    CheckedIsWellFormed(sha, snapshots, expected);
    NothingIsMissing(expected, SnapshotTargets(snapshots));
  }

  // ---------------------------------------------------------------------
  // Capture
  // ---------------------------------------------------------------------

  function SnapshotOf(sha: Sha, files: Files, t: Cs2ConfigTarget): Snapshot {
    var content := Lookup(files, Target(t));
    Snapshot(t, content.Some?, content, if content.Some? then Some(sha(content.value)) else None)
  }

  function Captured(sha: Sha, files: Files, targets: seq<Cs2ConfigTarget>): seq<Snapshot> {
    seq(|targets|, i requires 0 <= i < |targets| => SnapshotOf(sha, files, targets[i]))
  }

  /** Every selected file is within the limits a transaction can hold. */
  predicate Fits(sha: Sha, files: Files, targets: seq<Cs2ConfigTarget>) {
    && (forall t <- targets :: SizeOf(Lookup(files, Target(t))) <= MAX_FILE_BYTES)
    && TotalSize(Originals(Captured(sha, files, targets))) <= MAX_TOTAL_BYTES
  }

  lemma {:induction false} TotalGrows(originals: seq<Original>, n: nat)
    requires n <= |originals|
    ensures TotalSize(originals[..n]) <= TotalSize(originals)
  {
    if n < |originals| {
      assert originals[..|originals| - 1][..n] == originals[..n];
      TotalGrows(originals[..|originals| - 1], n);
    } else {
      assert originals[..n] == originals;
    }
  }

  /** Reads every target; writes nothing. */
  method CaptureTargets(sha: Sha, targets: seq<Cs2ConfigTarget>,
                        fs: ConfigFs) returns (r: Result<seq<Snapshot>, BackupError>)
    modifies fs`calls
    ensures r.Ok? ==> r.value == Captured(sha, fs.files, targets) && Fits(sha, fs.files, targets)
    ensures old(fs.Steady()) ==> (r.Ok? <==> Fits(sha, fs.files, targets))
    ensures fs.calls >= old(fs.calls)
  {
    ghost var all := Captured(sha, fs.files, targets);
    var totalBytes: nat := 0;
    var snapshots: seq<Snapshot> := [];
    for i := 0 to |targets|
      invariant fs.calls >= old(fs.calls)
      invariant snapshots == all[..i]
      invariant totalBytes == TotalSize(Originals(all)[..i]) <= MAX_TOTAL_BYTES
      invariant forall j :: 0 <= j < i ==> SizeOf(Lookup(fs.files, Target(targets[j]))) <= MAX_FILE_BYTES
    {
      OneMoreTotal(sha, fs.files, targets, i);
      var snapshot :- CaptureOne(sha, targets[i], totalBytes, fs);
      totalBytes := totalBytes + SizeOf(snapshot.original);
      snapshots := snapshots + [snapshot];
    }
    assert Originals(all)[..|targets|] == Originals(all);
    r := Ok(snapshots);
  }

  /** One target, read against the limits; `totalBytes` is what was captured before it. */
  method CaptureOne(sha: Sha, target: Cs2ConfigTarget, totalBytes: nat,
                    fs: ConfigFs) returns (r: Result<Snapshot, BackupError>)
    requires totalBytes <= MAX_TOTAL_BYTES
    modifies fs`calls
    ensures fs.calls >= old(fs.calls)
    ensures var size := SizeOf(Lookup(fs.files, Target(target)));
            && (r.Ok? ==> r.value == SnapshotOf(sha, fs.files, target) && size <= MAX_FILE_BYTES
                          && totalBytes + size <= MAX_TOTAL_BYTES)
            && (old(fs.Steady()) && size <= MAX_FILE_BYTES && totalBytes + size <= MAX_TOTAL_BYTES ==> r.Ok?)
  {
    var read := fs.ReadFile(Target(target));
    var original: Option<Bytes> := None;
    if read.Ok? {
      if read.value.Size() > MAX_FILE_BYTES {
        return Err(FileTooLarge(target));
      }
      if totalBytes + read.value.Size() > MAX_TOTAL_BYTES {
        return Err(TotalTooLarge);
      }
      original := Some(read.value);
    } else if read.error != NotFound {
      return Err(ReadFailed(target));
    }
    r := Ok(Snapshot(target, original.Some?, original, if original.Some? then Some(sha(original.value)) else None));
  }

  lemma OneMoreTotal(sha: Sha, files: Files, targets: seq<Cs2ConfigTarget>, i: nat)
    requires i < |targets|
    ensures var all := Captured(sha, files, targets);
            && all[..i + 1] == all[..i] + [SnapshotOf(sha, files, targets[i])]
            && TotalSize(Originals(all)[..i + 1])
                 == TotalSize(Originals(all)[..i]) + SizeOf(Lookup(files, Target(targets[i])))
            && TotalSize(Originals(all)[..i + 1]) <= TotalSize(Originals(all))
    ensures targets[i] in targets
  {
    var all := Captured(sha, files, targets);
    TotalGrows(Originals(all), i + 1);
    assert Originals(all)[..i + 1][..i] == Originals(all)[..i];
    assert Originals(all)[i] == (targets[i], Lookup(files, Target(targets[i])));
  }

  /** What is captured validates, and holds of the files it was captured from. */
  lemma CapturedIsValid(sha: Sha, files: Files, targets: seq<Cs2ConfigTarget>)
    requires Distinct(targets) && Fits(sha, files, targets)
    ensures ValidateSnapshots(sha, Captured(sha, files, targets), targets).Pass?
    ensures Holds(files, Originals(Captured(sha, files, targets)))
    ensures TargetsOf(Originals(Captured(sha, files, targets))) == targets
  {
    var snapshots := Captured(sha, files, targets);
    assert SnapshotTargets(snapshots) == targets;
    assert forall i :: 0 <= i < |targets| ==> targets[i] in targets && snapshots[i] == SnapshotOf(sha, files, targets[i]);
    ValidationIsExact(sha, snapshots, targets);
  }

  // ---------------------------------------------------------------------
  // Transactions of one install
  // ---------------------------------------------------------------------

  function ValidateTransaction(sha: Sha, t: Transaction, install: Fingerprint, step: string,
                               expected: seq<Cs2ConfigTarget>)
    : Outcome<BackupError>
  {
    if t.step != step then Fail(WrongStep)
    else if t.install != install then Fail(InstallMismatch)
    else ValidateSnapshots(sha, t.snapshots, expected)
  }

  method CaptureConfig(sha: Sha, install: Fingerprint, request: Request, capturedAt: string, fs: ConfigFs)
    returns (r: Result<Transaction, BackupError>)
    modifies fs`calls
    ensures fs.calls >= old(fs.calls)
    ensures r.Ok? ==> IsCaptureOf(sha, r.value, install, request, fs.files)
    ensures old(fs.Steady()) ==> (r.Ok? <==> Fits(sha, fs.files, TargetsForRequest(request)))
  {
    TargetsAreExactlySelected(request);
    var targets := TargetsForRequest(request);
    var snapshots :- CaptureTargets(sha, targets, fs);
    var transaction := Transaction(CONFIG_STEP, capturedAt, install, snapshots, false);
    CapturedIsValid(sha, fs.files, targets);
    match ValidateTransaction(sha, transaction, install, CONFIG_STEP, targets) {
      case Pass => r := Ok(transaction);
      case Fail(error) => r := Err(error);
    }
  }

  /** A valid transaction of this install and request that holds of these files. */
  predicate IsCaptureOf(sha: Sha, t: Transaction, install: Fingerprint, request: Request, files: Files) {
    && ValidateTransaction(sha, t, install, CONFIG_STEP, TargetsForRequest(request)).Pass?
    && !t.hasUnknownFields
    && TargetsOf(Originals(t.snapshots)) == TargetsForRequest(request)
    && Holds(files, Originals(t.snapshots))
  }

  method RestoreConfig(sha: Sha, t: Transaction, install: Fingerprint, request: Request, fs: ConfigFs)
    returns (r: Outcome<BackupError>)
    modifies fs`calls, fs`files
    ensures r.Pass? ==>
              && ValidateTransaction(sha, t, install, CONFIG_STEP, TargetsForRequest(request)).Pass? && !t.hasUnknownFields
              && fs.files == Restored(Originals(t.snapshots), old(fs.files))
    ensures ValidateTransaction(sha, t, install, CONFIG_STEP, TargetsForRequest(request)).Fail? || t.hasUnknownFields ==>
              r.Fail? && fs.files == old(fs.files)
    ensures old(fs.Steady()) && !t.hasUnknownFields
            && ValidateTransaction(sha, t, install, CONFIG_STEP, TargetsForRequest(request)).Pass?
            ==> r.Pass?
  {
    var targets := TargetsForRequest(request);
    var checked := ValidateTransaction(sha, t, install, CONFIG_STEP, targets);
    if checked.Fail? {
      return checked;
    }
    if t.hasUnknownFields {
      return Fail(UnknownFields);
    }
    assert TargetsOf(Originals(t.snapshots)) == SnapshotTargets(t.snapshots);
    var restored := RestoreTargets(targets, Originals(t.snapshots), fs);
    r := if restored.Fail? then Fail(Config(restored.error)) else Pass;
  }

  /**
   * The whole story of one transaction: captured, applied over a port that may fail
   * anywhere, and restored once the port works again. Every target is back at what
   * it was; of all other paths only the two sidecars can differ.
   */
  method InterruptedApplyIsUndone(e: Embedded, sha: Sha, install: Fingerprint, request: Request, capturedAt: string,
                                  fs: ConfigFs)
    returns (captured: Result<Transaction, BackupError>, restored: Outcome<BackupError>, left: Files)
    modifies fs
    ensures captured.Ok? ==> restored.Pass? && forall path :: path !in SIDECARS ==> Lookup(left, path) == Lookup(old(fs.files), path)
    ensures captured.Ok? ==> SidecarsKept(old(fs.OnDisk()), Disk(left, fs.torn))
  {
    restored, left := Pass, fs.files;
    ghost var before := fs.OnDisk();
    captured := CaptureConfig(sha, install, request, capturedAt, fs);
    if captured.Ok? {
      var applied := Apply(e, request, fs);
      RestoringUndoes(request, Originals(captured.value.snapshots), before, fs.OnDisk());
      var repaired := new ConfigFs(_ => NoFault, fs.files);
      restored := RestoreConfig(sha, captured.value, install, request, repaired);
      left := repaired.files;
    }
  }

  lemma RestoringUndoes(request: Request, originals: seq<Original>, before: Disk, now: Disk)
    requires TargetsOf(originals) == TargetsForRequest(request) && Holds(before.files, originals)
    requires DiffersOnlyAt(before.files, now.files, WritablePaths(request)) && SidecarsKept(before, now)
    ensures forall path :: path !in SIDECARS ==> Lookup(Restored(originals, now.files), path) == Lookup(before.files, path)
    ensures SidecarsKept(before, Disk(Restored(originals, now.files), now.torn))
  {
    WritesStayInTransaction(request, before.files, now.files);
    TargetsAreExactlySelected(request);
    RestoreUndoes(originals, before.files, now.files);
    RestoreLeavesSidecars(originals, now);
  }

  lemma WritesStayInTransaction(request: Request, before: Files, now: Files)
    requires DiffersOnlyAt(before, now, WritablePaths(request))
    ensures DiffersOnlyAt(before, now, TargetPaths(TargetsForRequest(request)) + SIDECARS)
  {
    TargetsAreExactlySelected(request);
    forall path | path in WritablePaths(request) ensures path in TargetPaths(TargetsForRequest(request)) + SIDECARS {
    }
  }

  // ---------------------------------------------------------------------
  // Optional assets
  // ---------------------------------------------------------------------

  /** The selection a transaction was captured for, read off its targets. */
  function SelectionOf(snapshots: seq<Snapshot>): Result<set<OptionalCfgAsset>, BackupError> {
    if snapshots == [] then Ok({})
    else
      var front :- SelectionOf(snapshots[..|snapshots| - 1]);
      match snapshots[|snapshots| - 1].target
      case Asset(asset) => Ok(front + {asset})
      case target => Err(UnexpectedTarget(target))
  }

  lemma {:induction false} SelectionIsRead(snapshots: seq<Snapshot>, assets: set<OptionalCfgAsset>)
    requires forall i :: 0 <= i < |snapshots| ==> snapshots[i].target.Asset? && snapshots[i].target.asset in assets
    ensures SelectionOf(snapshots).Ok? && SelectionOf(snapshots).value <= assets
    ensures forall a :: a in SelectionOf(snapshots).value <==> Asset(a) in SnapshotTargets(snapshots)
  {
    if snapshots != [] {
      var front, last := snapshots[..|snapshots| - 1], snapshots[|snapshots| - 1];
      SelectionIsRead(front, assets);
      assert SnapshotTargets(snapshots) == SnapshotTargets(front) + [last.target];
    }
  }

  function ValidatedOptional(sha: Sha, t: Transaction, install: Fingerprint)
    : Result<set<OptionalCfgAsset>, BackupError>
  {
    var assets :- SelectionOf(t.snapshots);
    var checked := ValidateTransaction(sha, t, install, OPTIONAL_STEP, TargetsForAssets(assets));
    if checked.Fail? then Err(checked.error)
    else if t.hasUnknownFields then Err(UnknownFields)
    else Ok(assets)
  }

  predicate IsOptionalCaptureOf(sha: Sha, t: Transaction, install: Fingerprint, assets: set<OptionalCfgAsset>,
                                files: Files)
  {
    && assets != {}
    && ValidatedOptional(sha, t, install) == Ok(assets)
    && TargetsOf(Originals(t.snapshots)) == TargetsForAssets(assets)
    && Holds(files, Originals(t.snapshots))
  }

  method CaptureOptional(sha: Sha, install: Fingerprint, assets: set<OptionalCfgAsset>, capturedAt: string,
                         fs: ConfigFs)
    returns (r: Result<Transaction, BackupError>)
    modifies fs`calls
    ensures fs.calls >= old(fs.calls)
    ensures r.Ok? ==> IsOptionalCaptureOf(sha, r.value, install, assets, fs.files)
    ensures old(fs.Steady()) ==> (r.Ok? <==> assets != {} && Fits(sha, fs.files, TargetsForAssets(assets)))
  {
    if assets == {} {
      return Err(Config(EmptyOptionalSelection));
    }
    TargetsAreExactlySelected(Request("", assets, false));
    var targets := TargetsForAssets(assets);
    var snapshots :- CaptureTargets(sha, targets, fs);
    var transaction := Transaction(OPTIONAL_STEP, capturedAt, install, snapshots, false);
    CapturedIsValid(sha, fs.files, targets);
    CapturedSelection(sha, fs.files, assets);
    match ValidateTransaction(sha, transaction, install, OPTIONAL_STEP, targets) {
      case Pass => r := Ok(transaction);
      case Fail(error) => r := Err(error);
    }
  }

  lemma CapturedSelection(sha: Sha, files: Files, assets: set<OptionalCfgAsset>)
    ensures SelectionOf(Captured(sha, files, TargetsForAssets(assets))) == Ok(assets)
  {
    TargetsAreExactlySelected(Request("", assets, false));
    var targets := TargetsForAssets(assets);
    var snapshots := Captured(sha, files, targets);
    assert forall i :: 0 <= i < |targets| ==> targets[i] in targets && snapshots[i].target == targets[i];
    assert SnapshotTargets(snapshots) == targets;
    SelectionIsRead(snapshots, assets);
    forall a ensures a in SelectionOf(snapshots).value <==> a in assets {
      assert Asset(a) in targets <==> a in assets;
    }
    assert SelectionOf(snapshots).value == assets;
  }

  /** Applies a captured selection only while every target still holds what was captured. */
  method ApplyOptional(e: Embedded, sha: Sha, t: Transaction, install: Fingerprint, fs: ConfigFs)
    returns (r: Result<seq<Cs2ConfigTarget>, BackupError>)
    modifies fs`calls, fs`files
    ensures r.Ok? ==>
              && ValidatedOptional(sha, t, install).Ok? && Holds(old(fs.files), Originals(t.snapshots))
              && fs.files == Deployed(e, InOrder(ValidatedOptional(sha, t, install).value), old(fs.files))
    ensures ValidatedOptional(sha, t, install).Err? ==> r.Err? && fs.files == old(fs.files)
    ensures ValidatedOptional(sha, t, install).Ok? ==>
              exists k :: 0 <= k <= |InOrder(ValidatedOptional(sha, t, install).value)|
                && fs.files == Deployed(e, InOrder(ValidatedOptional(sha, t, install).value)[..k], old(fs.files))
                && k <= |t.snapshots| && Holds(old(fs.files), Originals(t.snapshots)[..k])
  {
    var assets :- ValidatedOptional(sha, t, install);
    var written := ApplyOptionalAssetsIfUnchanged(e, assets, Originals(t.snapshots), fs);
    r := if written.Ok? then Ok(written.value) else Err(Config(written.error));
  }

  method RestoreOptional(sha: Sha, t: Transaction, install: Fingerprint, fs: ConfigFs) returns (r: Outcome<BackupError>)
    modifies fs`calls, fs`files
    ensures r.Pass? ==> ValidatedOptional(sha, t, install).Ok? && fs.files == Restored(Originals(t.snapshots), old(fs.files))
    ensures ValidatedOptional(sha, t, install).Err? ==> r.Fail? && fs.files == old(fs.files)
    ensures old(fs.Steady()) && ValidatedOptional(sha, t, install).Ok? && ValidatedOptional(sha, t, install).value != {} ==> r.Pass?
  {
    var assets := ValidatedOptional(sha, t, install);
    if assets.Err? {
      return Fail(assets.error);
    }
    if assets.value == {} {
      return Fail(Config(EmptyOptionalSelection));
    }
    ValidOptionalIsOrdered(sha, t, install);
    var restored := RestoreTargets(TargetsForAssets(assets.value), Originals(t.snapshots), fs);
    r := if restored.Fail? then Fail(Config(restored.error)) else Pass;
  }

  lemma ValidOptionalIsOrdered(sha: Sha, t: Transaction, install: Fingerprint)
    requires ValidatedOptional(sha, t, install).Ok?
    ensures TargetsOf(Originals(t.snapshots)) == TargetsForAssets(ValidatedOptional(sha, t, install).value)
    ensures Distinct(TargetsOf(Originals(t.snapshots)))
  {
    TargetsAreExactlySelected(Request("", ValidatedOptional(sha, t, install).value, false));
    assert TargetsOf(Originals(t.snapshots)) == SnapshotTargets(t.snapshots);
  }

  /** An optional transaction stopped anywhere and then restored leaves every file exactly as captured. */
  method InterruptedOptionalApplyIsUndone(e: Embedded, sha: Sha, install: Fingerprint, assets: set<OptionalCfgAsset>,
                                          capturedAt: string, fs: ConfigFs)
    returns (captured: Result<Transaction, BackupError>, restored: Outcome<BackupError>, left: Files)
    modifies fs
    ensures captured.Ok? ==> restored.Pass? && left == old(fs.files)
  {
    restored, left := Pass, fs.files;
    ghost var before := fs.files;
    captured := CaptureOptional(sha, install, assets, capturedAt, fs);
    if captured.Ok? {
      var applied := ApplyOptional(e, sha, captured.value, install, fs);
      var repaired := new ConfigFs(_ => NoFault, fs.files);
      restored := RestoreOptional(sha, captured.value, install, repaired);
      left := repaired.files;
      ghost var k :| 0 <= k <= |InOrder(assets)| && fs.files == Deployed(e, InOrder(assets)[..k], before);
      DeployedIsBetween(e, InOrder(assets), k, before);
      ValidOptionalIsOrdered(sha, captured.value, install);
      OptionalAssetsAreNoSidecars(e, assets, k, before);
      RestoreUndoes(Originals(captured.value.snapshots), before, fs.files);
    }
  }

  lemma OptionalAssetsAreNoSidecars(e: Embedded, assets: set<OptionalCfgAsset>, k: nat, files: Files)
    requires k <= |InOrder(assets)|
    ensures forall path <- SIDECARS :: Lookup(Deployed(e, InOrder(assets)[..k], files), path) == Lookup(files, path)
  {
    DeployedLookup(e, InOrder(assets)[..k], files, OptimizationBackup);
    DeployedLookup(e, InOrder(assets)[..k], files, AutoexecBackup);
  }

  // ---------------------------------------------------------------------
  // What a transaction must be, exactly
  // ---------------------------------------------------------------------

  /** The targets in order, each as it was or absent, with its digest and within 1 MiB; 8 MiB in all. */
  predicate Describes(sha: Sha, snapshots: seq<Snapshot>, targets: seq<Cs2ConfigTarget>) {
    && |snapshots| == |targets|
    && (forall i :: 0 <= i < |targets| ==>
          var s := snapshots[i];
          && s.target == targets[i] && s.existed == s.original.Some?
          && (s.original.Some? ==> s.original.value.Size() <= 1048576 && s.digest == Some(sha(s.original.value)))
          && (s.original.None? ==> s.digest.None?))
    && TotalSize(Originals(snapshots)) <= 8388608
  }

  lemma ValidMeansDescribed(sha: Sha, snapshots: seq<Snapshot>, targets: seq<Cs2ConfigTarget>)
    requires Distinct(targets)
    ensures ValidateSnapshots(sha, snapshots, targets).Pass? <==> Describes(sha, snapshots, targets)
  {
    ValidationIsExact(sha, snapshots, targets);
    var named := SnapshotTargets(snapshots);
    assert |named| == |snapshots| && forall i :: 0 <= i < |named| ==> named[i] == snapshots[i].target;
    if Describes(sha, snapshots, targets) {
      forall s | s in snapshots ensures IsWellFormed(sha, s) {
        var i :| 0 <= i < |snapshots| && snapshots[i] == s;
        assert snapshots[i].target == targets[i];
      }
      assert named == targets;
    }
    if ValidateSnapshots(sha, snapshots, targets).Pass? {
      forall i | 0 <= i < |targets| ensures snapshots[i].target == targets[i] && IsWellFormed(sha, snapshots[i]) {
        assert snapshots[i] in snapshots && named[i] == targets[i];
      }
    }
  }

  /** A P1:34 transaction is restored exactly for its install and request, described in full and nothing unknown in it. */
  lemma TransactionIsAcceptedExactly(sha: Sha, t: Transaction, install: Fingerprint, request: Request)
    ensures ValidateTransaction(sha, t, install, CONFIG_STEP, TargetsForRequest(request)).Pass? <==>
              && t.step == "P1:34" && t.install == install && Describes(sha, t.snapshots, TargetsForRequest(request))
  {
    TargetsAreExactlySelected(request);
    ValidMeansDescribed(sha, t.snapshots, TargetsForRequest(request));
  }

  lemma {:induction false} OnlyAssetsAreSelected(snapshots: seq<Snapshot>)
    ensures SelectionOf(snapshots).Ok? <==> forall s <- snapshots :: s.target.Asset?
    ensures SelectionOf(snapshots).Ok? ==>
              forall a :: a in SelectionOf(snapshots).value <==> exists s <- snapshots :: s.target == Asset(a)
  {
    if snapshots != [] {
      var front, last := snapshots[..|snapshots| - 1], snapshots[|snapshots| - 1];
      OnlyAssetsAreSelected(front);
      assert forall s :: s in snapshots <==> s in front || s == last;
    }
  }

  lemma SelectedIsAcceptedExactly(sha: Sha, t: Transaction, install: Fingerprint, assets: set<OptionalCfgAsset>)
    requires SelectionOf(t.snapshots) == Ok(assets)
    ensures ValidatedOptional(sha, t, install) == Ok(assets) <==>
              && t.step == "CS2:CFG" && t.install == install && !t.hasUnknownFields
              && Describes(sha, t.snapshots, TargetsForAssets(assets))
  {
    TargetsAreExactlySelected(Request("", assets, false));
    ValidMeansDescribed(sha, t.snapshots, TargetsForAssets(assets));
  }

  /** An optional transaction is accepted exactly for its install and the one selection its targets are. */
  lemma OptionalIsAcceptedExactly(sha: Sha, t: Transaction, install: Fingerprint, assets: set<OptionalCfgAsset>)
    ensures ValidatedOptional(sha, t, install) == Ok(assets) <==>
              && t.step == "CS2:CFG" && t.install == install && !t.hasUnknownFields
              && Describes(sha, t.snapshots, TargetsForAssets(assets))
  {
    if SelectionOf(t.snapshots) == Ok(assets) {
      SelectedIsAcceptedExactly(sha, t, install, assets);
    }
    if Describes(sha, t.snapshots, TargetsForAssets(assets)) {
      DescribedSelection(sha, t.snapshots, assets);
    }
  }

  lemma DescribedSelection(sha: Sha, snapshots: seq<Snapshot>, assets: set<OptionalCfgAsset>)
    requires Describes(sha, snapshots, TargetsForAssets(assets))
    ensures SelectionOf(snapshots) == Ok(assets)
  {
    var targets := TargetsForAssets(assets);
    TargetsAreExactlySelected(Request("", assets, false));
    OnlyAssetsAreSelected(snapshots);
    forall s | s in snapshots ensures s.target.Asset? && s.target.asset in assets {
      var i :| 0 <= i < |snapshots| && snapshots[i] == s;
      assert targets[i] in targets;
    }
    forall a | a in assets ensures exists s <- snapshots :: s.target == Asset(a) {
      assert Asset(a) in targets;
      var i :| 0 <= i < |targets| && targets[i] == Asset(a);
      assert snapshots[i] in snapshots && snapshots[i].target == Asset(a);
    }
    assert SelectionOf(snapshots).value == assets;
  }
}
