/** The controller's operations over a port that may fail at any call. */
module CfgOperations {
  import opened Wrappers
  import opened CfgTargets
  import opened CfgFiles
  import opened CfgController
  import AutoexecText

  datatype WriteReport = WriteReport(
    optimizationBackup: Sidecar,
    autoexecBackup: Sidecar,
    autoexecUpdated: bool,
    optionalAssetsWritten: seq<Cs2ConfigTarget>)

  function CorePaths(request: Request): set<CfgPath> {
    {Target(Optimization), OptimizationBackup} + if request.bootstrap then {Target(Autoexec), AutoexecBackup} else {}
  }

  function WritablePaths(request: Request): set<CfgPath> {
    CorePaths(request) + TargetPaths(TargetsForAssets(request.assets))
  }

  ghost predicate SidecarsKept(before: Disk, now: Disk) {
    && SidecarKept(before, now, OptimizationBackup, Target(Optimization))
    && SidecarKept(before, now, AutoexecBackup, Target(Autoexec))
  }

  /** What an apply leaves when it stops anywhere: each file old or new, nothing else changed. */
  ghost predicate IsPartOf(paths: set<CfgPath>, before: Files, now: Files, after: Files) {
    && Between(before, now, after, SIDECARS)
    && DiffersOnlyAt(before, now, paths)
  }

  // ---------------------------------------------------------------------
  // Apply
  // ---------------------------------------------------------------------

  method DeployAssets(e: Embedded, assets: seq<OptionalCfgAsset>, fs: ConfigFs)
    returns (r: Result<seq<Cs2ConfigTarget>, ConfigError>)
    modifies fs`calls, fs`files
    ensures fs.calls >= old(fs.calls)
    ensures exists k :: 0 <= k <= |assets| && fs.files == Deployed(e, assets[..k], old(fs.files))
    ensures r.Ok? ==> fs.files == Deployed(e, assets, old(fs.files)) && r.value == AssetTargets(assets)
    ensures old(fs.Steady()) ==> r.Ok?
  {
    var written: seq<Cs2ConfigTarget> := [];
    assert assets[..0] == [];
    for i := 0 to |assets|
      invariant fs.calls >= old(fs.calls)
      invariant fs.files == Deployed(e, assets[..i], old(fs.files))
      invariant written == AssetTargets(assets)[..i]
    {
      assert assets[..i + 1][..i] == assets[..i] && assets[..i + 1][i] == assets[i];
      var wrote := WriteAndVerify(fs, Target(Asset(assets[i])), e.asset(assets[i]));
      assert fs.files == Deployed(e, assets[..i], old(fs.files)) || fs.files == Deployed(e, assets[..i + 1], old(fs.files));
      if wrote.Fail? {
        return Err(wrote.error);
      }
      written := written + [Asset(assets[i])];
    }
    assert assets[..|assets|] == assets;
    r := Ok(written);
  }

  function Replaced(files: Files, sidecar: CfgPath, main: CfgPath, content: Bytes): Files {
    WithSidecar(files, sidecar, Lookup(files, main))[main := content]
  }

  predicate Creates(files: Files, sidecar: CfgPath, main: CfgPath) {
    sidecar !in files && main in files
  }

  function ReplacedDisk(d: Disk, sidecar: CfgPath, main: CfgPath, content: Bytes): Disk {
    Disk(Replaced(d.files, sidecar, main, content), if Creates(d.files, sidecar, main) then d.torn - {sidecar} else d.torn)
  }

  /** Nothing yet, or the sidecar only, torn or not, or all of it. */
  predicate IsPartlyReplaced(before: Disk, now: Disk, sidecar: CfgPath, main: CfgPath, content: Bytes) {
    || now == before
    || now == ReplacedDisk(before, sidecar, main, content)
    || (&& Creates(before.files, sidecar, main) && sidecar in now.files
        && now == Disk(before.files[sidecar := now.files[sidecar]],
                       TornAfter(before.torn, sidecar, now.files[sidecar], before.files[main])))
  }

  /** Saves a file beside itself once, then replaces it. */
  method BackUpAndReplace(fs: ConfigFs, sidecar: CfgPath, main: CfgPath, original: Option<Bytes>, content: Bytes)
    returns (r: Result<Sidecar, ConfigError>)
    requires original == Lookup(fs.files, main) && sidecar != main
    modifies fs
    ensures fs.calls >= old(fs.calls)
    ensures r.Ok? ==>
              && fs.OnDisk() == ReplacedDisk(old(fs.OnDisk()), sidecar, main, content)
              && (r.value.Created? <==> Creates(old(fs.files), sidecar, main))
    ensures IsPartlyReplaced(old(fs.OnDisk()), fs.OnDisk(), sidecar, main, content)
    ensures old(fs.Steady()) ==> r.Ok?
  {
    ghost var before := fs.files;
    var backup :- CreateSidecar(fs, sidecar, original);
    var wrote := WriteAndVerify(fs, main, content);
    if wrote.Fail? {
      return Err(wrote.error);
    }
    r := Ok(backup);
  }

  /** The disk between the two core files. */
  function FirstReplaced(e: Embedded, request: Request, d: Disk): Disk {
    ReplacedDisk(d, OptimizationBackup, Target(Optimization), e.optimization(request.generatedAt))
  }

  function CoreReplaced(e: Embedded, request: Request, d: Disk): Disk {
    if AutoexecChanges(request, d.files)
    then ReplacedDisk(FirstReplaced(e, request, d), AutoexecBackup, Target(Autoexec), ExpectedAutoexec(d.files))
    else FirstReplaced(e, request, d)
  }

  /** The disks at which the core of an apply can stop. */
  predicate CoreStops(e: Embedded, request: Request, before: Disk, now: Disk) {
    || IsPartlyReplaced(before, now, OptimizationBackup, Target(Optimization), e.optimization(request.generatedAt))
    || (AutoexecChanges(request, before.files)
        && IsPartlyReplaced(FirstReplaced(e, request, before), now, AutoexecBackup, Target(Autoexec),
                            ExpectedAutoexec(before.files)))
  }

  /** The disks at which an apply can stop: in its core, or with some first assets deployed. */
  predicate ApplyStops(e: Embedded, request: Request, before: Disk, now: Disk) {
    || CoreStops(e, request, before, now)
    || (exists k | 0 <= k <= |InOrder(request.assets)| ::
          now == Disk(Deployed(e, InOrder(request.assets)[..k], CoreReplaced(e, request, before).files),
                      CoreReplaced(e, request, before).torn))
  }

  lemma PartlyReplacedKeepsSidecar(before: Disk, now: Disk, sidecar: CfgPath, main: CfgPath, content: Bytes)
    requires IsPartlyReplaced(before, now, sidecar, main, content) && sidecar != main
    ensures SidecarKept(before, now, sidecar, main)
    ensures forall path :: path != sidecar ==>
              (path != main ==> Lookup(now.files, path) == Lookup(before.files, path)) && (path in now.torn <==> path in before.torn)
  {
  }

  lemma CoreStopsKeepsSidecars(e: Embedded, request: Request, before: Disk, now: Disk)
    requires CoreStops(e, request, before, now)
    ensures SidecarsKept(before, now)
  {
    var optimization := e.optimization(request.generatedAt);
    if IsPartlyReplaced(before, now, OptimizationBackup, Target(Optimization), optimization) {
      PartlyReplacedKeepsSidecar(before, now, OptimizationBackup, Target(Optimization), optimization);
    } else {
      var mid := FirstReplaced(e, request, before);
      PartlyReplacedKeepsSidecar(before, mid, OptimizationBackup, Target(Optimization), optimization);
      PartlyReplacedKeepsSidecar(mid, now, AutoexecBackup, Target(Autoexec), ExpectedAutoexec(before.files));
    }
  }

  lemma CoreFilesAgree(e: Embedded, request: Request, before: Disk)
    ensures CoreReplaced(e, request, before).files == CoreApplied(e, request, before.files)
  {
  }

  lemma CoreStopsIsPart(e: Embedded, request: Request, before: Disk, now: Disk)
    requires CoreStops(e, request, before, now)
    ensures IsPartOf(CorePaths(request), before.files, now.files, CoreApplied(e, request, before.files))
  {
  }

  lemma ApplyStopsIsPart(e: Embedded, request: Request, before: Disk, now: Disk)
    requires ApplyStops(e, request, before, now)
    ensures IsPartOf(WritablePaths(request), before.files, now.files, Applied(e, request, before.files))
    ensures SidecarsKept(before, now)
  {
    ApplyStopsKeepsSidecars(e, request, before, now);
    if CoreStops(e, request, before, now) {
      CoreStopsIsPart(e, request, before, now);
      CoreIsPartOfWhole(e, request, before.files, now.files);
    } else {
      CoreFilesAgree(e, request, before);
      DeploymentIsPartOfWhole(e, request, before.files, now.files);
    }
  }

  lemma ApplyStopsKeepsSidecars(e: Embedded, request: Request, before: Disk, now: Disk)
    requires ApplyStops(e, request, before, now)
    ensures SidecarsKept(before, now)
  {
    if CoreStops(e, request, before, now) {
      CoreStopsKeepsSidecars(e, request, before, now);
    } else {
      var core := CoreReplaced(e, request, before);
      var k :| 0 <= k <= |InOrder(request.assets)|
               && now == Disk(Deployed(e, InOrder(request.assets)[..k], core.files), core.torn);
      assert CoreStops(e, request, before, core);
      CoreStopsKeepsSidecars(e, request, before, core);
      DeployedLookup(e, InOrder(request.assets)[..k], core.files, OptimizationBackup);
      DeployedLookup(e, InOrder(request.assets)[..k], core.files, AutoexecBackup);
    }
  }

  /** The optimization file and the bootstrap, each behind its sidecar. */
  method ApplyCore(e: Embedded, request: Request, fs: ConfigFs) returns (r: Result<WriteReport, ConfigError>)
    modifies fs
    ensures fs.calls >= old(fs.calls)
    ensures r.Ok? ==> AutoexecDecodes(request, old(fs.files)) && fs.OnDisk() == CoreReplaced(e, request, old(fs.OnDisk()))
    ensures r.Ok? ==> CoreReportIsTrue(r.value, request, old(fs.files))
    ensures CoreStops(e, request, old(fs.OnDisk()), fs.OnDisk())
    ensures old(fs.Steady()) && AutoexecDecodes(request, old(fs.files)) ==> r.Ok?
  {
    ghost var before := fs.OnDisk();
    var originalOptimization :- ReadOptional(fs, Target(Optimization));
    var originalAutoexec: Option<Bytes> := None;
    if request.bootstrap {
      originalAutoexec :- ReadOptional(fs, Target(Autoexec));
    }
    if originalAutoexec.Some? && originalAutoexec.value.NotUtf8? {
      return Err(AutoexecNotUtf8);
    }
    var expected := Utf8(AutoexecText.EnsureAutoexecLine(if originalAutoexec.Some? then originalAutoexec.value.text else []));
    assert request.bootstrap ==> expected == ExpectedAutoexec(before.files);
    var updated := request.bootstrap && originalAutoexec != Some(expected);
    var optimizationBackup := BackUpAndReplace(fs, OptimizationBackup, Target(Optimization), originalOptimization,
                                               e.optimization(request.generatedAt));
    if optimizationBackup.Err? {
      return Err(optimizationBackup.error);
    }
    var autoexecBackup := Ok(NotNeeded);
    if updated {
      assert Lookup(fs.files, Target(Autoexec)) == originalAutoexec;
      autoexecBackup := BackUpAndReplace(fs, AutoexecBackup, Target(Autoexec), originalAutoexec, expected);
      if autoexecBackup.Err? {
        return Err(autoexecBackup.error);
      }
    }
    r := Ok(WriteReport(optimizationBackup.value, autoexecBackup.value, updated, []));
  }

  /** The report names exactly the sidecars this apply created. */
  predicate CoreReportIsTrue(report: WriteReport, request: Request, before: Files) {
    && report.autoexecUpdated == AutoexecChanges(request, before)
    && (report.optimizationBackup.Created? <==> OptimizationBackup !in before && Target(Optimization) in before)
    && (report.autoexecBackup.Created? <==>
          AutoexecChanges(request, before) && AutoexecBackup !in before && Target(Autoexec) in before)
  }

  /** The whole apply. */
  method Apply(e: Embedded, request: Request, fs: ConfigFs) returns (r: Result<WriteReport, ConfigError>)
    modifies fs
    ensures fs.calls >= old(fs.calls)
    ensures r.Ok? ==>
              && AutoexecDecodes(request, old(fs.files))
              && fs.files == Applied(e, request, old(fs.files))
              && CoreReportIsTrue(r.value, request, old(fs.files))
              && r.value.optionalAssetsWritten == TargetsForAssets(request.assets)
              && IsVerified(e, request, fs.files)
    ensures ApplyStops(e, request, old(fs.OnDisk()), fs.OnDisk())
    ensures IsPartOf(WritablePaths(request), old(fs.files), fs.files, Applied(e, request, old(fs.files)))
    ensures SidecarsKept(old(fs.OnDisk()), fs.OnDisk())
    ensures old(fs.Steady()) && AutoexecDecodes(request, old(fs.files)) ==> r.Ok?
  {
    ghost var before := fs.OnDisk();
    var created := fs.CreateDirectory();
    if created.Err? {
      assert fs.OnDisk() == before;
      ApplyStopsIsPart(e, request, before, fs.OnDisk());
      return Err(Io(created.error));
    }
    var core := ApplyCore(e, request, fs);
    if core.Err? {
      ApplyStopsIsPart(e, request, before, fs.OnDisk());
      return Err(core.error);
    }
    var assets := InOrder(request.assets);
    var written := DeployAssets(e, assets, fs);
    ApplyStopsIsPart(e, request, before, fs.OnDisk());
    if written.Err? {
      return Err(written.error);
    }
    CoreFilesAgree(e, request, before);
    AppliedIsVerified(e, request, before.files);
    r := Ok(core.value.(optionalAssetsWritten := written.value));
  }

  lemma AssetPathsAreNoCorePaths(request: Request, path: CfgPath)
    requires path.Target? && path.target.Asset? && path.target.asset in InOrder(request.assets)
    ensures path in TargetPaths(TargetsForAssets(request.assets)) && path !in CorePaths(request) && path !in SIDECARS
  {
    AssetIsTargeted(InOrder(request.assets), path.target.asset);
  }

  lemma CoreIsPartOfWhole(e: Embedded, request: Request, before: Files, now: Files)
    requires IsPartOf(CorePaths(request), before, now, CoreApplied(e, request, before))
    ensures IsPartOf(WritablePaths(request), before, now, Applied(e, request, before))
  {
    var core, assets := CoreApplied(e, request, before), InOrder(request.assets);
    forall path | path !in SIDECARS
      ensures Lookup(now, path) == Lookup(before, path) || Lookup(now, path) == Lookup(Applied(e, request, before), path)
    {
      DeployedLookup(e, assets, core, path);
      if path.Target? && path.target.Asset? && path.target.asset in assets {
        AssetPathsAreNoCorePaths(request, path);
      }
    }
  }

  lemma DeploymentIsPartOfWhole(e: Embedded, request: Request, before: Files, now: Files)
    requires exists k :: 0 <= k <= |InOrder(request.assets)|
               && now == Deployed(e, InOrder(request.assets)[..k], CoreApplied(e, request, before))
    ensures IsPartOf(WritablePaths(request), before, now, Applied(e, request, before))
  {
    var core, assets := CoreApplied(e, request, before), InOrder(request.assets);
    var k :| 0 <= k <= |assets| && now == Deployed(e, assets[..k], core);
    DeployedIsBetween(e, assets, k, core);
    forall path ensures
        && (path !in SIDECARS ==> Lookup(now, path) == Lookup(before, path) || Lookup(now, path) == Lookup(Applied(e, request, before), path))
        && (path !in WritablePaths(request) ==> Lookup(now, path) == Lookup(before, path))
    {
      DeployedLookup(e, assets[..k], core, path);
      DeployedLookup(e, assets, core, path);
      if path.Target? && path.target.Asset? && path.target.asset in assets {
        AssetPathsAreNoCorePaths(request, path);
      }
    }
  }

  // ---------------------------------------------------------------------
  // Verify
  // ---------------------------------------------------------------------

  method VerifyAssets(e: Embedded, assets: seq<OptionalCfgAsset>, fs: ConfigFs) returns (r: Outcome<ConfigError>)
    modifies fs`calls
    ensures fs.calls >= old(fs.calls)
    ensures r.Pass? || old(fs.Steady()) ==>
              (r.Pass? <==> forall a <- assets :: Lookup(fs.files, Target(Asset(a))) == Some(e.asset(a)))
  {
    for i := 0 to |assets|
      invariant fs.calls >= old(fs.calls)
      invariant forall j :: 0 <= j < i ==> Lookup(fs.files, Target(Asset(assets[j]))) == Some(e.asset(assets[j]))
    {
      var checked := VerifyBytes(fs, Target(Asset(assets[i])), e.asset(assets[i]));
      if checked.Fail? {
        return checked;
      }
    }
    r := Pass;
  }

  /** Passes only on verified files, and on all of them when no call fails. */
  method Verify(e: Embedded, request: Request, fs: ConfigFs) returns (r: Outcome<ConfigError>)
    modifies fs`calls
    ensures r.Pass? || old(fs.Steady()) ==> (r.Pass? <==> IsVerified(e, request, fs.files))
  {
    var checked := VerifyBytes(fs, Target(Optimization), e.optimization(request.generatedAt));
    if checked.Fail? {
      return checked;
    }
    if request.bootstrap {
      var autoexec := fs.ReadFile(Target(Autoexec));
      if autoexec.Err? {
        return Fail(Io(autoexec.error));
      }
      if autoexec.value.NotUtf8? {
        return Fail(AutoexecNotUtf8);
      }
      if AutoexecText.EnsureAutoexecLine(autoexec.value.text) != autoexec.value.text {
        return Fail(ReadbackMismatch(Target(Autoexec)));
      }
    }
    r := VerifyAssets(e, InOrder(request.assets), fs);
  }

  // ---------------------------------------------------------------------
  // Optional assets, compared and swapped
  // ---------------------------------------------------------------------

  /** A captured original: a target with its bytes, or its absence. */
  type Original = (Cs2ConfigTarget, Option<Bytes>)

  function TargetsOf(originals: seq<Original>): seq<Cs2ConfigTarget> {
    seq(|originals|, i requires 0 <= i < |originals| => originals[i].0)
  }

  predicate Holds(files: Files, originals: seq<Original>) {
    forall i :: 0 <= i < |originals| ==> Lookup(files, Target(originals[i].0)) == originals[i].1
  }

  /**
   * Deploys each selected asset only over the content that was captured for it.
   * A target that changed since the capture stops the run and is left as it is.
   */
  method ApplyOptionalAssetsIfUnchanged(e: Embedded, assets: set<OptionalCfgAsset>, originals: seq<Original>,
                                        fs: ConfigFs)
    returns (r: Result<seq<Cs2ConfigTarget>, ConfigError>)
    modifies fs`calls, fs`files
    ensures r.Ok? ==>
              && assets != {} && TargetsOf(originals) == TargetsForAssets(assets) && Holds(old(fs.files), originals)
              && fs.files == Deployed(e, InOrder(assets), old(fs.files)) && r.value == TargetsForAssets(assets)
    ensures exists k :: 0 <= k <= |InOrder(assets)| && fs.files == Deployed(e, InOrder(assets)[..k], old(fs.files))
                        && k <= |originals| && Holds(old(fs.files), originals[..k])
    ensures old(fs.Steady()) && assets != {} && TargetsOf(originals) == TargetsForAssets(assets) && Holds(old(fs.files), originals)
            ==> r.Ok?
  {
    var chosen := InOrder(assets);
    ghost var before := fs.files;
    assert chosen[..0] == [] && Deployed(e, chosen[..0], before) == before;
    if assets == {} {
      return Err(EmptyOptionalSelection);
    }
    var created := fs.CreateDirectory();
    if created.Err? {
      return Err(Io(created.error));
    }
    if TargetsOf(originals) != TargetsForAssets(assets) {
      return Err(InvalidBinding);
    }
    assert |TargetsOf(originals)| == |originals| == |chosen|;
    var written: seq<Cs2ConfigTarget> := [];
    for i := 0 to |chosen|
      invariant fs.calls >= old(fs.calls)
      invariant fs.files == Deployed(e, chosen[..i], before)
      invariant Holds(before, originals[..i])
      invariant written == TargetsForAssets(assets)[..i]
    {
      CaptureIsCurrent(e, assets, originals, before, i);
      var current :- ReadOptional(fs, Target(Asset(chosen[i])));
      if current != originals[i].1 {
        return Err(PreconditionMismatch(Target(Asset(chosen[i]))));
      }
      assert chosen[..i + 1][..i] == chosen[..i] && chosen[..i + 1][i] == chosen[i];
      assert originals[..i + 1] == originals[..i] + [originals[i]];
      var wrote := WriteAndVerify(fs, Target(Asset(chosen[i])), e.asset(chosen[i]));
      assert fs.files == Deployed(e, chosen[..i], before) || fs.files == Deployed(e, chosen[..i + 1], before);
      if wrote.Fail? {
        return Err(wrote.error);
      }
      written := written + [Asset(chosen[i])];
    }
    assert chosen[..|chosen|] == chosen && originals[..|originals|] == originals;
    r := Ok(written);
  }

  /** Deploying the assets before does not touch the next target. */
  lemma CaptureIsCurrent(e: Embedded, assets: set<OptionalCfgAsset>, originals: seq<Original>, before: Files, i: nat)
    requires TargetsOf(originals) == TargetsForAssets(assets) && i < |InOrder(assets)|
    ensures |originals| == |InOrder(assets)| && originals[i].0 == Asset(InOrder(assets)[i])
    ensures Lookup(Deployed(e, InOrder(assets)[..i], before), Target(Asset(InOrder(assets)[i])))
              == Lookup(before, Target(originals[i].0))
  {
    var chosen := InOrder(assets);
    assert |TargetsOf(originals)| == |chosen|;
    assert TargetsOf(originals)[i] == Asset(chosen[i]);
    AllAssetsOnce();
    ChosenIsDistinct(AllAssets(), assets);
    DeployedLookup(e, chosen[..i], before, Target(Asset(chosen[i])));
    assert chosen[i] !in chosen[..i];
  }

  // ---------------------------------------------------------------------
  // Restore
  // ---------------------------------------------------------------------

  function Restored(originals: seq<Original>, files: Files): Files {
    if originals == [] then files
    else
      var (target, content) := originals[|originals| - 1];
      Set(Restored(originals[..|originals| - 1], files), Target(target), content)
  }

  lemma {:induction false} RestoredLookup(originals: seq<Original>, files: Files, path: CfgPath)
    requires Distinct(TargetsOf(originals))
    ensures (path.Target? && path.target in TargetsOf(originals)) ||
            Lookup(Restored(originals, files), path) == Lookup(files, path)
    ensures forall i :: 0 <= i < |originals| && path == Target(originals[i].0) ==>
              Lookup(Restored(originals, files), path) == originals[i].1
  {
    if originals != [] {
      var n := |originals| - 1;
      var front := originals[..n];
      assert TargetsOf(front) == TargetsOf(originals)[..n];
      RestoredLookup(front, files, path);
      assert forall i :: 0 <= i < n ==> front[i] == originals[i] && TargetsOf(originals)[i] == originals[i].0;
      assert TargetsOf(originals)[n] == originals[n].0;
    }
  }

  /** Writes every captured original back, or removes what was absent. */
  method RestoreTargets(targets: seq<Cs2ConfigTarget>, originals: seq<Original>,
                        fs: ConfigFs) returns (r: Outcome<ConfigError>)
    modifies fs`calls, fs`files
    ensures r.Pass? ==> TargetsOf(originals) == targets && fs.files == Restored(originals, old(fs.files))
    ensures exists k :: 0 <= k <= |originals| && fs.files == Restored(originals[..k], old(fs.files))
    ensures old(fs.Steady()) && TargetsOf(originals) == targets ==> r.Pass?
  {
    ghost var before := fs.files;
    assert originals[..0] == [] && Restored(originals[..0], before) == before;
    if TargetsOf(originals) != targets {
      return Fail(InvalidBinding);
    }
    for i := 0 to |originals|
      invariant fs.calls >= old(fs.calls)
      invariant fs.files == Restored(originals[..i], before)
    {
      var (target, original) := originals[i];
      assert originals[..i + 1][..i] == originals[..i] && originals[..i + 1][i] == originals[i];
      if original.Some? {
        var wrote := WriteAndVerify(fs, Target(target), original.value);
        assert fs.files == Restored(originals[..i], before) || fs.files == Restored(originals[..i + 1], before);
        if wrote.Fail? {
          return wrote;
        }
      } else {
        var removed := fs.RemoveFile(Target(target));
        assert fs.files == Restored(originals[..i], before) || fs.files == Restored(originals[..i + 1], before);
        if removed.Err? && removed.error != NotFound {
          return Fail(Mutation(removed.error));
        }
        var left := ReadOptional(fs, Target(target));
        if left.Err? {
          return Fail(left.error);
        }
        if left.value.Some? {
          return Fail(ReadbackMismatch(Target(target)));
        }
      }
    }
    assert originals[..|originals|] == originals;
    r := Pass;
  }

  /**
   * Restoring undoes any change confined to the captured targets: each target holds
   * its captured bytes or absence again, and every other path is as it was left.
   */
  lemma RestoreUndoes(originals: seq<Original>, before: Files, now: Files)
    requires Distinct(TargetsOf(originals)) && Holds(before, originals)
    requires DiffersOnlyAt(before, now, TargetPaths(TargetsOf(originals)) + SIDECARS)
    ensures forall path :: path !in SIDECARS ==> Lookup(Restored(originals, now), path) == Lookup(before, path)
    ensures forall path :: path in SIDECARS ==> Lookup(Restored(originals, now), path) == Lookup(now, path)
    ensures (forall path <- SIDECARS :: Lookup(now, path) == Lookup(before, path)) ==> Restored(originals, now) == before
  {
    forall path ensures Lookup(Restored(originals, now), path) == Lookup(if path in SIDECARS then now else before, path) {
      RestoredLookup(originals, now, path);
      if path.Target? && path.target in TargetsOf(originals) {
        var i :| 0 <= i < |originals| && TargetsOf(originals)[i] == path.target;
        assert originals[i].0 == path.target;
      }
    }
    if forall path <- SIDECARS :: Lookup(now, path) == Lookup(before, path) {
      SameLookupsSameFiles(Restored(originals, now), before);
    }
  }

  lemma SameLookupsSameFiles(a: Files, b: Files)
    requires forall path :: Lookup(a, path) == Lookup(b, path)
    ensures a == b
  {
    forall path ensures path in a <==> path in b {
      assert Lookup(a, path) == Lookup(b, path);
    }
    forall path | path in a ensures a[path] == b[path] {
      assert Lookup(a, path) == Lookup(b, path);
    }
  }

  /** Restoring, whole or in part, leaves every file that is not a target alone. */
  lemma {:induction false} RestoreKeepsSidecars(originals: seq<Original>, files: Files, path: CfgPath)
    requires !path.Target?
    ensures Lookup(Restored(originals, files), path) == Lookup(files, path)
  {
    if originals != [] {
      RestoreKeepsSidecars(originals[..|originals| - 1], files, path);
    }
  }

  // ---------------------------------------------------------------------
  // Sidecars over any history
  // ---------------------------------------------------------------------

  /** Both sidecars are as before: the user, the game or another program changed other files. */
  predicate SidecarsUntouched(before: Disk, now: Disk) {
    forall path <- SIDECARS :: Lookup(now.files, path) == Lookup(before.files, path) && (path in now.torn <==> path in before.torn)
  }

  /**
   * One thing that happens to the directory: an apply of any request and any
   * embedded texts, stopped anywhere with its creation torn or not; a restore or
   * an optional deployment, stopped anywhere; or a change away from the sidecars.
   */
  ghost predicate IsStep(before: Disk, now: Disk) {
    || (exists e, request :: ApplyStops(e, request, before, now))
    || (exists originals: seq<Original> :: now == Disk(Restored(originals, before.files), before.torn))
    || (exists e, assets :: now == Disk(Deployed(e, assets, before.files), before.torn))
    || SidecarsUntouched(before, now)
  }

  lemma RestoreLeavesSidecars(originals: seq<Original>, before: Disk)
    ensures SidecarsUntouched(before, Disk(Restored(originals, before.files), before.torn))
  {
    RestoreKeepsSidecars(originals, before.files, OptimizationBackup);
    RestoreKeepsSidecars(originals, before.files, AutoexecBackup);
  }

  lemma DeploymentLeavesSidecars(e: Embedded, assets: seq<OptionalCfgAsset>, before: Disk)
    ensures SidecarsUntouched(before, Disk(Deployed(e, assets, before.files), before.torn))
  {
    DeployedLookup(e, assets, before.files, OptimizationBackup);
    DeployedLookup(e, assets, before.files, AutoexecBackup);
  }

  lemma StepKeepsSidecars(before: Disk, now: Disk)
    requires IsStep(before, now)
    ensures SidecarsKept(before, now)
  {
    if e, request :| ApplyStops(e, request, before, now) {
      ApplyStopsKeepsSidecars(e, request, before, now);
    } else {
      if originals: seq<Original> :| now == Disk(Restored(originals, before.files), before.torn) {
        RestoreLeavesSidecars(originals, before);
      } else if e, assets :| now == Disk(Deployed(e, assets, before.files), before.torn) {
        DeploymentLeavesSidecars(e, assets, before);
      }
      assert SidecarsUntouched(before, now);
    }
  }

  ghost predicate IsHistory(history: seq<Disk>) {
    history != [] && forall i :: 0 <= i < |history| - 1 ==> IsStep(history[i], history[i + 1])
  }

  predicate IsSidecarOf(sidecar: CfgPath, main: CfgPath) {
    (sidecar, main) == (OptimizationBackup, Target(Optimization)) || (sidecar, main) == (AutoexecBackup, Target(Autoexec))
  }

  /** A sidecar that exists at some point of a history, torn or not, is the same at every later point. */
  lemma {:induction false} SidecarStaysForEver(history: seq<Disk>, i: nat, j: nat, sidecar: CfgPath, main: CfgPath)
    requires IsHistory(history) && IsSidecarOf(sidecar, main)
    requires i <= j < |history| && sidecar in history[i].files
    ensures Lookup(history[j].files, sidecar) == Lookup(history[i].files, sidecar)
    ensures sidecar in history[j].torn <==> sidecar in history[i].torn
    decreases j - i
  {
    if i < j {
      SidecarStaysForEver(history, i, j - 1, sidecar, main);
      assert IsStep(history[j - 1], history[j - 1 + 1]);
      StepKeepsSidecars(history[j - 1], history[j]);
    }
  }

  predicate CreatedIn(history: seq<Disk>, i: int, sidecar: CfgPath) {
    0 <= i < |history| - 1 && sidecar !in history[i].files && sidecar in history[i + 1].files
  }

  /**
   * Over any history: a sidecar that appears was made by one step, and at every
   * later point it holds what its file held just before that step exactly when the
   * creation was not torn to other bytes.
   */
  lemma {:induction false} SidecarKeepsTheFirstOriginal(history: seq<Disk>, j: nat, sidecar: CfgPath, main: CfgPath)
    requires IsHistory(history) && IsSidecarOf(sidecar, main)
    requires j < |history| && sidecar !in history[0].files && sidecar in history[j].files
    ensures exists i :: CreatedIn(history, i, sidecar) && i < j
              && (Lookup(history[j].files, sidecar) == Lookup(history[i].files, main) <==> sidecar !in history[i + 1].torn)
              && (sidecar in history[j].torn <==> sidecar in history[i + 1].torn)
    decreases j
  {
    if sidecar in history[j - 1].files {
      SidecarKeepsTheFirstOriginal(history, j - 1, sidecar, main);
      SidecarStaysForEver(history, j - 1, j, sidecar, main);
    } else {
      assert IsStep(history[j - 1], history[j - 1 + 1]);
      StepKeepsSidecars(history[j - 1], history[j]);
      assert CreatedIn(history, j - 1, sidecar);
    }
  }
}
