/** The closed set of CS2 CFG files and the two views of it: targets and optional assets. */
module CfgTargets {
  datatype OptionalCfgAsset =
    | NetStable | NetHighPing | NetUnstable | NetBad
    | DebugHud | DebugHudOff
    | AudioStable | AudioLowLatency025 | AudioLowLatency001
    | FrameBaseline400 | FrameRawUncapped
    | AudioEqCrisp | AudioEqSmooth | AudioLegacyLrIsolation
    | Competitive2026

  datatype Cs2ConfigTarget = Optimization | Autoexec | Asset(asset: OptionalCfgAsset) {
    function FileName(): string {
      match this
      case Optimization => "optimization.cfg"
      case Autoexec => "autoexec.cfg"
      case Asset(asset) => AssetFileName(asset)
    }
  }

  function AssetFileName(asset: OptionalCfgAsset): string {
    match asset
    case NetStable => "net_stable.cfg"
    case NetHighPing => "net_highping.cfg"
    case NetUnstable => "net_unstable.cfg"
    case NetBad => "net_bad.cfg"
    case DebugHud => "debug_hud.cfg"
    case DebugHudOff => "debug_hud_off.cfg"
    case AudioStable => "audio_stable.cfg"
    case AudioLowLatency025 => "audio_lowlatency_025.cfg"
    case AudioLowLatency001 => "audio_lowlatency_001.cfg"
    case FrameBaseline400 => "frame_baseline_400.cfg"
    case FrameRawUncapped => "frame_raw_uncapped.cfg"
    case AudioEqCrisp => "audio_eq_crisp.cfg"
    case AudioEqSmooth => "audio_eq_smooth.cfg"
    case AudioLegacyLrIsolation => "audio_legacy_lr_isolation.cfg"
    case Competitive2026 => "competitive_2026.cfg"
  }

  /** `BTreeSet` order of the assets: their declaration order. */
  function AllAssets(): seq<OptionalCfgAsset> {
    [ NetStable, NetHighPing, NetUnstable, NetBad, DebugHud, DebugHudOff, AudioStable,
      AudioLowLatency025, AudioLowLatency001, FrameBaseline400, FrameRawUncapped,
      AudioEqCrisp, AudioEqSmooth, AudioLegacyLrIsolation, Competitive2026 ]
  }

  predicate SeparatorFree(s: string) {
    forall i :: 0 <= i < |s| ==> s[i] != ',' && s[i] != ':'
  }

  lemma NetworkNamesAreSeparatorFree(asset: OptionalCfgAsset)
    requires asset.NetStable? || asset.NetHighPing? || asset.NetUnstable? || asset.NetBad?
    ensures SeparatorFree(AssetFileName(asset)) && AssetFileName(asset) != ""
  {
  }

  lemma DebugNamesAreSeparatorFree(asset: OptionalCfgAsset)
    requires asset.DebugHud? || asset.DebugHudOff? || asset.AudioStable?
    ensures SeparatorFree(AssetFileName(asset)) && AssetFileName(asset) != ""
  {
  }

  lemma AudioNamesAreSeparatorFree(asset: OptionalCfgAsset)
    requires asset.AudioLowLatency025? || asset.AudioLowLatency001?
    ensures SeparatorFree(AssetFileName(asset)) && AssetFileName(asset) != ""
  {
  }

  lemma FrameNamesAreSeparatorFree(asset: OptionalCfgAsset)
    requires asset.FrameBaseline400? || asset.FrameRawUncapped? || asset.AudioEqCrisp?
    ensures SeparatorFree(AssetFileName(asset)) && AssetFileName(asset) != ""
  {
  }

  lemma OtherNamesAreSeparatorFree(asset: OptionalCfgAsset)
    requires asset.AudioEqSmooth? || asset.AudioLegacyLrIsolation? || asset.Competitive2026?
    ensures SeparatorFree(AssetFileName(asset)) && AssetFileName(asset) != ""
  {
  }

  lemma AssetNamesAreSeparatorFree(asset: OptionalCfgAsset)
    ensures SeparatorFree(AssetFileName(asset)) && AssetFileName(asset) != ""
  {
    match asset
    case NetStable => NetworkNamesAreSeparatorFree(asset);
    case NetHighPing => NetworkNamesAreSeparatorFree(asset);
    case NetUnstable => NetworkNamesAreSeparatorFree(asset);
    case NetBad => NetworkNamesAreSeparatorFree(asset);
    case DebugHud => DebugNamesAreSeparatorFree(asset);
    case DebugHudOff => DebugNamesAreSeparatorFree(asset);
    case AudioStable => DebugNamesAreSeparatorFree(asset);
    case AudioLowLatency025 => AudioNamesAreSeparatorFree(asset);
    case AudioLowLatency001 => AudioNamesAreSeparatorFree(asset);
    case FrameBaseline400 => FrameNamesAreSeparatorFree(asset);
    case FrameRawUncapped => FrameNamesAreSeparatorFree(asset);
    case AudioEqCrisp => FrameNamesAreSeparatorFree(asset);
    case AudioEqSmooth => OtherNamesAreSeparatorFree(asset);
    case AudioLegacyLrIsolation => OtherNamesAreSeparatorFree(asset);
    case Competitive2026 => OtherNamesAreSeparatorFree(asset);
  }

  /** File names hold none of the separators the backup identity uses. */
  lemma FileNamesAreSeparatorFree(target: Cs2ConfigTarget)
    ensures target.FileName() != ""
    ensures ',' !in target.FileName() && ':' !in target.FileName()
  {
    if target.Asset? {
      AssetNamesAreSeparatorFree(target.asset);
    }
    assert SeparatorFree(target.FileName());
  }

  /** Length and three characters: enough to tell every file name. */
  datatype Mark = Mark(length: nat, fifth: char, seventh: char, beforeSuffix: char)

  function MarkOf(name: string): Mark
    requires |name| > 10
  {
    Mark(|name|, name[4], name[6], name[|name| - 6])
  }

  function TargetMark(t: Cs2ConfigTarget): Mark {
    match t
    case Optimization => Mark(16, 'm', 'z', 'o')
    case Autoexec => Mark(12, 'e', 'e', 'e')
    case Asset(NetStable) => Mark(14, 's', 'a', 'l')
    case Asset(NetHighPing) => Mark(16, 'h', 'g', 'n')
    case Asset(NetUnstable) => Mark(16, 'u', 's', 'l')
    case Asset(NetBad) => Mark(11, 'b', 'd', 'a')
    case Asset(DebugHud) => Mark(13, 'g', 'h', 'u')
    case Asset(DebugHudOff) => Mark(17, 'g', 'h', 'f')
    case Asset(AudioStable) => Mark(16, 'o', 's', 'l')
    case Asset(AudioLowLatency025) => Mark(24, 'o', 'l', '2')
    case Asset(AudioLowLatency001) => Mark(24, 'o', 'l', '0')
    case Asset(FrameBaseline400) => Mark(22, 'e', 'b', '0')
    case Asset(FrameRawUncapped) => Mark(22, 'e', 'r', 'e')
    case Asset(AudioEqCrisp) => Mark(18, 'o', 'e', 's')
    case Asset(AudioEqSmooth) => Mark(19, 'o', 'e', 't')
    case Asset(AudioLegacyLrIsolation) => Mark(29, 'o', 'l', 'o')
    case Asset(Competitive2026) => Mark(20, 'e', 'i', '2')
  }

  lemma CoreNamesAreMarked(t: Cs2ConfigTarget)
    requires !t.Asset? || t.asset.NetStable? || t.asset.NetHighPing? || t.asset.NetUnstable? || t.asset.NetBad?
    ensures |t.FileName()| > 10 && MarkOf(t.FileName()) == TargetMark(t)
  {
  }

  lemma DebugNamesAreMarked(t: Cs2ConfigTarget)
    requires t.Asset? && (t.asset.DebugHud? || t.asset.DebugHudOff? || t.asset.AudioStable?
                          || t.asset.AudioLowLatency025? || t.asset.AudioLowLatency001?)
    ensures |t.FileName()| > 10 && MarkOf(t.FileName()) == TargetMark(t)
  {
  }

  lemma FrameNamesAreMarked(t: Cs2ConfigTarget)
    requires t.Asset? && (t.asset.FrameBaseline400? || t.asset.FrameRawUncapped? || t.asset.AudioEqCrisp?)
    ensures |t.FileName()| > 10 && MarkOf(t.FileName()) == TargetMark(t)
  {
  }

  lemma OtherNamesAreMarked(t: Cs2ConfigTarget)
    requires t.Asset? && (t.asset.AudioEqSmooth? || t.asset.AudioLegacyLrIsolation? || t.asset.Competitive2026?)
    ensures |t.FileName()| > 10 && MarkOf(t.FileName()) == TargetMark(t)
  {
  }

  lemma NamesAreMarked(t: Cs2ConfigTarget)
    ensures |t.FileName()| > 10 && MarkOf(t.FileName()) == TargetMark(t)
  {
    match t
    case Optimization => CoreNamesAreMarked(t);
    case Autoexec => CoreNamesAreMarked(t);
    case Asset(NetStable) => CoreNamesAreMarked(t);
    case Asset(NetHighPing) => CoreNamesAreMarked(t);
    case Asset(NetUnstable) => CoreNamesAreMarked(t);
    case Asset(NetBad) => CoreNamesAreMarked(t);
    case Asset(DebugHud) => DebugNamesAreMarked(t);
    case Asset(DebugHudOff) => DebugNamesAreMarked(t);
    case Asset(AudioStable) => DebugNamesAreMarked(t);
    case Asset(AudioLowLatency025) => DebugNamesAreMarked(t);
    case Asset(AudioLowLatency001) => DebugNamesAreMarked(t);
    case Asset(FrameBaseline400) => FrameNamesAreMarked(t);
    case Asset(FrameRawUncapped) => FrameNamesAreMarked(t);
    case Asset(AudioEqCrisp) => FrameNamesAreMarked(t);
    case Asset(AudioEqSmooth) => OtherNamesAreMarked(t);
    case Asset(AudioLegacyLrIsolation) => OtherNamesAreMarked(t);
    case Asset(Competitive2026) => OtherNamesAreMarked(t);
  }

  lemma MarksTellTargets(a: Cs2ConfigTarget, b: Cs2ConfigTarget)
    requires TargetMark(a) == TargetMark(b)
    ensures a == b
  {
  }

  /** No two targets share a file name. */
  lemma FileNamesDiffer(a: Cs2ConfigTarget, b: Cs2ConfigTarget)
    requires a.FileName() == b.FileName()
    ensures a == b
  {
    NamesAreMarked(a);
    NamesAreMarked(b);
    MarksTellTargets(a, b);
  }
}
