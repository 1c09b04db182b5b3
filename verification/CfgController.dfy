/** Writing, verifying and restoring the managed CFG files of one bound install. */
module CfgController {
  import opened Wrappers
  import opened CfgTargets
  import opened CfgFiles
  import AutoexecText

  /** A request after its timestamp was checked. */
  datatype Request = Request(generatedAt: string, assets: set<OptionalCfgAsset>, bootstrap: bool)

  /** The embedded texts: the rendered optimization file and the optional assets. */
  datatype Embedded = Embedded(optimization: string -> Bytes, asset: OptionalCfgAsset -> Bytes)

  // ---------------------------------------------------------------------
  // Target selection
  // ---------------------------------------------------------------------

  function Chosen(all: seq<OptionalCfgAsset>, assets: set<OptionalCfgAsset>): seq<OptionalCfgAsset> {
    if all == [] then []
    else (if all[0] in assets then [all[0]] else []) + Chosen(all[1..], assets)
  }

  /** The assets in the order of their set. */
  function InOrder(assets: set<OptionalCfgAsset>): seq<OptionalCfgAsset> {
    Chosen(AllAssets(), assets)
  }

  function AssetTargets(assets: seq<OptionalCfgAsset>): seq<Cs2ConfigTarget> {
    seq(|assets|, i requires 0 <= i < |assets| => Asset(assets[i]))
  }

  function TargetsForAssets(assets: set<OptionalCfgAsset>): seq<Cs2ConfigTarget> {
    AssetTargets(InOrder(assets))
  }

  function TargetsForRequest(request: Request): seq<Cs2ConfigTarget> {
    [Optimization] + (if request.bootstrap then [Autoexec] else []) + TargetsForAssets(request.assets)
  }

  predicate Distinct<T(==)>(s: seq<T>) {
    forall i, j :: 0 <= i < j < |s| ==> s[i] != s[j]
  }

  lemma {:induction false} ChosenIsDistinct(all: seq<OptionalCfgAsset>, assets: set<OptionalCfgAsset>)
    requires Distinct(all)
    ensures Distinct(Chosen(all, assets))
    ensures forall a :: a in Chosen(all, assets) <==> a in all && a in assets
  {
    if all != [] {
      var more := Chosen(all[1..], assets);
      ChosenIsDistinct(all[1..], assets);
      assert forall a :: a in all <==> a == all[0] || a in all[1..];
      assert all[0] !in all[1..];
      assert Chosen(all, assets) == if all[0] in assets then [all[0]] + more else more;
    }
  }

  lemma AllAssetsOnce()
    ensures Distinct(AllAssets()) && forall a: OptionalCfgAsset :: a in AllAssets()
  {
    forall a: OptionalCfgAsset ensures a in AllAssets() {
      assert a in AllAssets() by {
        match a
        case NetStable => assert AllAssets()[0] == a;
        case NetHighPing => assert AllAssets()[1] == a;
        case NetUnstable => assert AllAssets()[2] == a;
        case NetBad => assert AllAssets()[3] == a;
        case DebugHud => assert AllAssets()[4] == a;
        case DebugHudOff => assert AllAssets()[5] == a;
        case AudioStable => assert AllAssets()[6] == a;
        case AudioLowLatency025 => assert AllAssets()[7] == a;
        case AudioLowLatency001 => assert AllAssets()[8] == a;
        case FrameBaseline400 => assert AllAssets()[9] == a;
        case FrameRawUncapped => assert AllAssets()[10] == a;
        case AudioEqCrisp => assert AllAssets()[11] == a;
        case AudioEqSmooth => assert AllAssets()[12] == a;
        case AudioLegacyLrIsolation => assert AllAssets()[13] == a;
        case Competitive2026 => assert AllAssets()[14] == a;
      }
    }
  }

  lemma AssetTargetsMean(assets: seq<OptionalCfgAsset>)
    ensures forall t :: t in AssetTargets(assets) <==> t.Asset? && t.asset in assets
    ensures Distinct(assets) ==> Distinct(AssetTargets(assets))
  {
    var targets := AssetTargets(assets);
    forall t ensures t in targets <==> t.Asset? && t.asset in assets {
      if t.Asset? && t.asset in assets {
        var i :| 0 <= i < |assets| && assets[i] == t.asset;
        assert targets[i] == t;
      }
      if t in targets {
        var i :| 0 <= i < |targets| && targets[i] == t;
        assert assets[i] in assets;
      }
    }
  }

  lemma AssetsAreInOrderOnce(assets: set<OptionalCfgAsset>)
    ensures Distinct(InOrder(assets)) && forall a :: a in InOrder(assets) <==> a in assets
  {
    AllAssetsOnce();
    ChosenIsDistinct(AllAssets(), assets);
  }

  /** The write set of a selection: each selected target once, none other. */
  lemma TargetsAreExactlySelected(request: Request)
    ensures Distinct(TargetsForAssets(request.assets)) && Distinct(TargetsForRequest(request))
    ensures forall t :: t in TargetsForAssets(request.assets) <==> t.Asset? && t.asset in request.assets
    ensures forall t :: t in TargetsForRequest(request) <==>
              t == Optimization || (t == Autoexec && request.bootstrap) || (t.Asset? && t.asset in request.assets)
  {
    AssetsAreInOrderOnce(request.assets);
    AssetTargetsMean(InOrder(request.assets));
    CoreComesFirst(if request.bootstrap then [Optimization, Autoexec] else [Optimization], TargetsForAssets(request.assets));
  }

  lemma CoreComesFirst(core: seq<Cs2ConfigTarget>, assets: seq<Cs2ConfigTarget>)
    requires core == [Optimization] || core == [Optimization, Autoexec]
    requires Distinct(assets) && forall t <- assets :: t.Asset?
    ensures Distinct(core + assets)
    ensures forall t :: t in core + assets <==> t == Optimization || (t == Autoexec && |core| == 2) || t in assets
  {
    var all := core + assets;
    forall i, j | 0 <= i < j < |all| ensures all[i] != all[j] {
      if j >= |core| {
        assert all[j] == assets[j - |core|] && all[j] in assets;
        if i >= |core| {
          assert all[i] == assets[i - |core|];
        }
      }
    }
  }

  // ---------------------------------------------------------------------
  // What a whole apply leaves
  // ---------------------------------------------------------------------

  /** The assets deployed over the files, in order. */
  function Deployed(e: Embedded, assets: seq<OptionalCfgAsset>, files: Files): Files {
    if assets == [] then files
    else
      var last := assets[|assets| - 1];
      Deployed(e, assets[..|assets| - 1], files)[Target(Asset(last)) := e.asset(last)]
  }

  function WithSidecar(files: Files, path: CfgPath, original: Option<Bytes>): Files {
    if original.None? || path in files then files else files[path := original.value]
  }

  /** The bootstrap can read what is there. */
  predicate AutoexecDecodes(request: Request, files: Files) {
    request.bootstrap && Target(Autoexec) in files ==> files[Target(Autoexec)].Utf8?
  }

  function ExpectedAutoexec(files: Files): Bytes {
    var existing := Lookup(files, Target(Autoexec));
    Utf8(AutoexecText.EnsureAutoexecLine(if existing.Some? && existing.value.Utf8? then existing.value.text else []))
  }

  predicate AutoexecChanges(request: Request, files: Files) {
    request.bootstrap && Lookup(files, Target(Autoexec)) != Some(ExpectedAutoexec(files))
  }

  function CoreApplied(e: Embedded, request: Request, files: Files): Files {
    var saved := WithSidecar(files, OptimizationBackup, Lookup(files, Target(Optimization)));
    var written := saved[Target(Optimization) := e.optimization(request.generatedAt)];
    if AutoexecChanges(request, files) then
      WithSidecar(written, AutoexecBackup, Lookup(files, Target(Autoexec)))[Target(Autoexec) := ExpectedAutoexec(files)]
    else written
  }

  function Applied(e: Embedded, request: Request, files: Files): Files {
    Deployed(e, InOrder(request.assets), CoreApplied(e, request, files))
  }

  /** What a successful verification establishes. */
  predicate IsVerified(e: Embedded, request: Request, files: Files) {
    && Lookup(files, Target(Optimization)) == Some(e.optimization(request.generatedAt))
    && (request.bootstrap ==>
          && Target(Autoexec) in files && files[Target(Autoexec)].Utf8?
          && AutoexecText.EnsureAutoexecLine(files[Target(Autoexec)].text) == files[Target(Autoexec)].text)
    && forall a <- InOrder(request.assets) :: Lookup(files, Target(Asset(a))) == Some(e.asset(a))
  }

  lemma {:induction false} DeployedLookup(e: Embedded, assets: seq<OptionalCfgAsset>, files: Files, path: CfgPath)
    ensures Lookup(Deployed(e, assets, files), path) ==
              if path.Target? && path.target.Asset? && path.target.asset in assets
              then Some(e.asset(path.target.asset)) else Lookup(files, path)
  {
    if assets != [] {
      DeployedLookup(e, assets[..|assets| - 1], files, path);
      assert assets == assets[..|assets| - 1] + [assets[|assets| - 1]];
    }
  }

  /** Applying makes verifying succeed: the bootstrap is stable, and assets touch nothing else. */
  lemma AppliedIsVerified(e: Embedded, request: Request, files: Files)
    requires AutoexecDecodes(request, files)
    ensures IsVerified(e, request, Applied(e, request, files))
  {
    var core, assets := CoreApplied(e, request, files), InOrder(request.assets);
    DeployedLookup(e, assets, core, Target(Optimization));
    DeployedLookup(e, assets, core, Target(Autoexec));
    forall a | a in assets ensures Lookup(Applied(e, request, files), Target(Asset(a))) == Some(e.asset(a)) {
      DeployedLookup(e, assets, core, Target(Asset(a)));
    }
    if request.bootstrap {
      var existing := Lookup(files, Target(Autoexec));
      AutoexecText.AutoexecIsStable(if existing.Some? && existing.value.Utf8? then existing.value.text else []);
    }
  }

  /** The bootstrap over what stands there, or over nothing. */
  function Bootstrapped(existing: Option<Bytes>): Option<Bytes> {
    match existing
    case Some(Utf8(text)) => Some(Utf8(AutoexecText.EnsureAutoexecLine(text)))
    case _ => Some(Utf8(AutoexecText.EnsureAutoexecLine("")))
  }

  lemma ExpectedIsBootstrapped(files: Files)
    ensures Some(ExpectedAutoexec(files)) == Bootstrapped(Lookup(files, Target(Autoexec)))
  {
  }

  /**
   * What an apply leaves at every path: the rendered file, the bootstrap over the text
   * that was there, the selected assets, for each replaced file a sidecar with what it
   * held unless one exists, and everything else as it was.
   */
  lemma AppliedEverywhere(e: Embedded, request: Request, files: Files, path: CfgPath)
    ensures Lookup(Applied(e, request, files), path) ==
              match path
              case Target(Optimization) => Some(e.optimization(request.generatedAt))
              case Target(Autoexec) => if request.bootstrap then Bootstrapped(Lookup(files, path)) else Lookup(files, path)
              case Target(Asset(a)) => if a in request.assets then Some(e.asset(a)) else Lookup(files, path)
              case OptimizationBackup =>
                if path in files then Lookup(files, path) else Lookup(files, Target(Optimization))
              case AutoexecBackup =>
                if path in files then Lookup(files, path)
                else if request.bootstrap && Lookup(files, Target(Autoexec)) != Bootstrapped(Lookup(files, Target(Autoexec)))
                then Lookup(files, Target(Autoexec)) else None
              case OtherFile(_) => Lookup(files, path)
  {
    DeployedLookup(e, InOrder(request.assets), CoreApplied(e, request, files), path);
    AssetsAreInOrderOnce(request.assets);
    ExpectedIsBootstrapped(files);
  }

  // ---------------------------------------------------------------------
  // What an interrupted apply can leave
  // ---------------------------------------------------------------------

  /** Every path is as before or as after; `exempt` paths may be anything. */
  ghost predicate Between(before: Files, now: Files, after: Files, exempt: set<CfgPath>) {
    forall path :: path !in exempt ==> Lookup(now, path) == Lookup(before, path) || Lookup(now, path) == Lookup(after, path)
  }

  /** Nothing outside the paths differs. */
  ghost predicate DiffersOnlyAt(a: Files, b: Files, paths: set<CfgPath>) {
    forall path :: path !in paths ==> Lookup(a, path) == Lookup(b, path)
  }

  /**
   * A sidecar that exists is never touched; one that appears is a copy of its file
   * as it was, exactly unless its creation was torn to other bytes.
   */
  predicate SidecarKept(before: Disk, now: Disk, sidecar: CfgPath, main: CfgPath) {
    && (sidecar in before.files ==>
          Lookup(now.files, sidecar) == Lookup(before.files, sidecar) && (sidecar in now.torn <==> sidecar in before.torn))
    && (sidecar !in before.files && sidecar in now.files ==>
          (Lookup(now.files, sidecar) == Lookup(before.files, main) <==> sidecar !in now.torn))
  }

  function TargetPaths(targets: seq<Cs2ConfigTarget>): set<CfgPath> {
    set t <- targets :: Target(t)
  }

  const SIDECARS: set<CfgPath> := {OptimizationBackup, AutoexecBackup}

  lemma DeployedIsBetween(e: Embedded, assets: seq<OptionalCfgAsset>, k: nat, files: Files)
    requires k <= |assets|
    ensures Between(files, Deployed(e, assets[..k], files), Deployed(e, assets, files), {})
    ensures DiffersOnlyAt(files, Deployed(e, assets, files), TargetPaths(AssetTargets(assets)))
    ensures DiffersOnlyAt(files, Deployed(e, assets[..k], files), TargetPaths(AssetTargets(assets)))
  {
    forall path ensures
        Lookup(Deployed(e, assets[..k], files), path) == Lookup(files, path)
        || (Lookup(Deployed(e, assets[..k], files), path) == Lookup(Deployed(e, assets, files), path)
            && path in TargetPaths(AssetTargets(assets)))
    {
      DeployedLookup(e, assets[..k], files, path);
      DeployedLookup(e, assets, files, path);
      if path.Target? && path.target.Asset? && path.target.asset in assets {
        AssetIsTargeted(assets, path.target.asset);
      }
    }
    forall path | path !in TargetPaths(AssetTargets(assets)) ensures Lookup(Deployed(e, assets, files), path) == Lookup(files, path) {
      DeployedLookup(e, assets, files, path);
      if path.Target? && path.target.Asset? && path.target.asset in assets {
        AssetIsTargeted(assets, path.target.asset);
      }
    }
  }

  lemma AssetIsTargeted(assets: seq<OptionalCfgAsset>, a: OptionalCfgAsset)
    requires a in assets
    ensures Target(Asset(a)) in TargetPaths(AssetTargets(assets))
  {
    var i :| 0 <= i < |assets| && assets[i] == a;
    assert AssetTargets(assets)[i] == Asset(a);
    assert Asset(a) in AssetTargets(assets);
  }
}
