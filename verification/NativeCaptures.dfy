/** What the native backend captures, and which texts would make the identity ambiguous. */
module NativeCaptures {
  import opened Wrappers
  import opened Text
  import opened Catalog
  import opened Backup
  import opened UndoLog

  /** A captured registry path: the hive, a colon, and a fixed key of the program. */
  predicate IsHivePath(path: string) {
    |path| >= 6 && (path[..6] == "HKLM:\\" || path[..6] == "HKCU:\\") && ':' !in path[6..]
  }

  predicate IsPolicyValue(valueName: string) {
    valueName == "MSISupported" || valueName == "MessageNumberLimit"
    || valueName == "DevicePolicy" || valueName == "AssignmentSetOverride"
  }

  /** Entries of the remaining kinds are restored from older files, never captured. */
  predicate IsNativeSubject(e: BackupEntry) {
    match e
    case Registry(_, path, _, _) => IsHivePath(path)
    case InterruptPolicy(_, _, valueName, _) => IsPolicyValue(valueName)
    case Bootconfig(_, key, _) => key == "safeboot"
    case PagefileTransaction(_, _) => true
    case NetworkStackTransaction(_, _, _) => true
    case Drs(_, _, _) => true
    case Cs2ConfigTransaction(_, _, _) => true
    case _ => false
  }

  ghost predicate IsStepKey(step: string) {
    exists id: StepId :: step == ProgressKey(id)
  }

  /** What a live capture answers: a native subject under the key of an engine step. */
  ghost predicate IsNativeCapture(e: BackupEntry) {
    IsNativeSubject(e) && IsStepKey(e.step)
  }

  lemma {:induction false} DecimalHasNoColon(n: nat)
    ensures ':' !in Decimal(n)
  {
    DecimalShape(n);
    assert forall c <- Decimal(n) :: IsDigit(c);
  }

  lemma ProgressKeyHasOneColon(id: StepId)
    ensures OneColon(ProgressKey(id))
  {
    KeyParts(id);
    DecimalHasNoColon(id.number);
    var key := ProgressKey(id);
    assert key[0] == 'P' && Find(key, ':') == 2;
    assert key[3..] == key[1..][2..];
  }

  lemma HivePathHasOneColon(path: string)
    requires IsHivePath(path)
    ensures OneColon(path)
  {
    assert path[4] == path[..6][4] == ':' && path[5] == path[..6][5] == '\\';
    assert forall j :: 0 <= j < 4 ==> path[j] == path[..6][j] != ':';
    assert Find(path, ':') == 4;
    assert forall j :: 6 <= j < |path| ==> path[j] == path[6..][j - 6];
  }

  lemma StepKeyHasOneColon(step: string)
    requires IsStepKey(step)
    ensures OneColon(step)
  {
    var id: StepId :| step == ProgressKey(id);
    ProgressKeyHasOneColon(id);
  }

  lemma PolicyValueHasNoColon(valueName: string)
    requires IsPolicyValue(valueName)
    ensures ':' !in valueName
  {
  }

  lemma NativeSubjectIsSafe(e: BackupEntry)
    requires IsNativeSubject(e)
    ensures SeparatorSafe(e)
  {
    match e
    case Registry(_, path, _, _) => HivePathHasOneColon(path);
    case InterruptPolicy(_, _, valueName, _) => PolicyValueHasNoColon(valueName);
    case _ =>
  }

  /** Every native capture satisfies the separator hypothesis, whatever its value name. */
  lemma NativeCaptureIsWellFormed(e: BackupEntry)
    requires IsNativeCapture(e)
    ensures WellFormed(e)
  {
    NativeSubjectIsSafe(e);
    StepKeyHasOneColon(e.step);
  }

  const GPU_PREFERENCES := "HKCU:\\" + ("Software\\Microsoft" + "\\DirectX" + "\\UserGpuPreferences")

  lemma GpuPreferencesIsHivePath()
    ensures IsHivePath(GPU_PREFERENCES)
  {
    var vendor, product, key := "Software\\Microsoft", "\\DirectX", "\\UserGpuPreferences";
    assert ':' !in vendor && ':' !in product && ':' !in key;
    HiveThenKey("HKCU:\\", vendor + product + key);
  }

  lemma HiveThenKey(hive: string, key: string)
    requires (hive == "HKLM:\\" || hive == "HKCU:\\") && ':' !in key
    ensures IsHivePath(hive + key)
  {
    assert |hive| == 6;
    assert (hive + key)[..6] == hive && (hive + key)[6..] == key;
  }

  /** P1:30 names its value after the executable path, drive colon included. */
  lemma GpuPreferenceIsNative(id: StepId, executable: string, original: Original)
    ensures var e := Registry(ProgressKey(id), GPU_PREFERENCES, executable, original);
            IsNativeCapture(e) && WellFormed(e)
  {
    GpuPreferencesIsHivePath();
    NativeCaptureIsWellFormed(Registry(ProgressKey(id), GPU_PREFERENCES, executable, original));
  }

  ghost function NativeVocabulary(): Vocabulary {
    e => IsNativeCapture(e)
  }

  /** Among well formed entries, so among native captures, one identity means the same places. */
  lemma NativeCapturesAreUnambiguous()
    ensures Unambiguous(e => WellFormed(e))
    ensures Unambiguous(NativeVocabulary())
  {
    forall a, b | WellFormed(a) && WellFormed(b) && SameIdentity(a, b) ensures Originals(a).Keys == Originals(b).Keys {
      IdentityDeterminesLocations(a, b);
    }
    forall a, b | IsNativeCapture(a) && IsNativeCapture(b) && SameIdentity(a, b)
      ensures Originals(a).Keys == Originals(b).Keys
    {
      NativeCaptureIsWellFormed(a);
      NativeCaptureIsWellFormed(b);
    }
  }

  // ---------------------------------------------------------------------
  // The families of ambiguous identities
  // ---------------------------------------------------------------------

  predicate Collide(a: BackupEntry, b: BackupEntry) {
    SameIdentity(a, b) && Originals(a).Keys !! Originals(b).Keys
  }

  lemma ColonBetweenFields(x: string, a: string, b: string)
    ensures Lower(x) + ":" + Lower(a + ":" + b) == Lower(x + ":" + a) + ":" + Lower(b)
    ensures Lower(x) != Lower(x + ":" + a)
  {
    assert |Lower(x)| < |Lower(x + ":" + a)|;
  }

  lemma RegistryFamily(step: string, x: string, a: string, b: string, v: Original, w: Original)
    ensures Collide(Registry(step, x, a + ":" + b, v), Registry(step, x + ":" + a, b, w))
  {
    ColonBetweenFields(x, a, b);
    Joined("registry:", Lower(x), Lower(a + ":" + b));
    Joined("registry:", Lower(x + ":" + a), Lower(b));
  }

  lemma AdapterFamily(step: string, x: string, a: string, b: string, v: Original, w: Original)
    ensures Collide(NicAdapter(step, x, a + ":" + b, v), NicAdapter(step, x + ":" + a, b, w))
  {
    ColonBetweenFields(x, a, b);
    Joined("nic_adapter:", Lower(x), Lower(a + ":" + b));
    Joined("nic_adapter:", Lower(x + ":" + a), Lower(b));
  }

  lemma InterruptFamily(step: string, x: string, a: string, b: string, v: Original, w: Original)
    ensures Collide(InterruptPolicy(step, x, a + ":" + b, v), InterruptPolicy(step, x + ":" + a, b, w))
  {
    ColonBetweenFields(x, a, b);
    Joined("interrupt:", Lower(x), Lower(a + ":" + b));
    Joined("interrupt:", Lower(x + ":" + a), Lower(b));
  }

  /** A task folder without its final backslash runs into the task name. */
  lemma TaskFamily(step: string, x: string, a: string, b: string, v: Original, w: Original)
    requires a != ""
    ensures Collide(Scheduledtask(step, x, a + b, v), Scheduledtask(step, x + a, b, w))
  {
    assert Lower(x) + Lower(a + b) == Lower(x + a) + Lower(b);
    assert "scheduledtask:" + (Lower(x) + Lower(a + b)) == "scheduledtask:" + Lower(x) + Lower(a + b);
    assert "scheduledtask:" + (Lower(x + a) + Lower(b)) == "scheduledtask:" + Lower(x + a) + Lower(b);
    assert |Lower(x)| < |Lower(x + a)|;
  }

  lemma StepSpelling(kind: string, s: string, p: string, q: string, n: string)
    ensures s + ":" + (kind + (p + (":" + kind) + q) + ":" + n) == (s + (":" + kind) + p) + ":" + (kind + q + ":" + n)
  {
    var whole := s + (":" + kind) + p + (":" + kind) + q + ":" + n;
    assert s + ":" + (kind + (p + (":" + kind) + q) + ":" + n) == whole;
    assert (s + (":" + kind) + p) + ":" + (kind + q + ":" + n) == whole;
  }

  lemma LowerAround(x: string, y: string)
    ensures Lower(x + ":registry:" + y) == Lower(x) + (":" + "registry:") + Lower(y)
  {
    assert ":registry:" == ":" + "registry:" && Lower(":registry:") == ":registry:";
    LowerJoin(x + ":registry:", y);
    LowerJoin(x, ":registry:");
  }

  /** A step that is no step key may spell the kind of another entry. */
  lemma StepFamily(step: string, p: string, q: string, name: string, v: Original, w: Original)
    ensures Collide(Registry(step, p + ":registry:" + q, name, v), Registry(step + ":registry:" + p, q, name, w))
  {
    LowerAround(p, q);
    LowerAround(step, p);
    StepSpelling("registry:", Lower(step), Lower(p), Lower(q), Lower(name));
    assert |Lower(p + ":registry:" + q)| > |Lower(q)|;
  }

  lemma Joined(kind: string, x: string, y: string)
    ensures kind + x + ":" + y == kind + (x + ":" + y)
  {
  }

  /** A vocabulary with a colliding pair is one whose log does not always undo. */
  lemma CollisionLosesAValue(v: Vocabulary, a: BackupEntry, b: BackupEntry)
    requires v(a) && v(b) && Collide(a, b) && Originals(a) != map[]
    ensures !AlwaysUndone(v)
  {
    UndoIsExactlyUnambiguity(v);
    var l :| l in Originals(a);
    assert l in Originals(a).Keys && l !in Originals(b).Keys;
    assert v(a) && v(b) && SameIdentity(a, b);
  }

  lemma SecondOfPairIsDropped(a: BackupEntry, b: BackupEntry)
    requires SameIdentity(a, b)
    ensures PushAll([], [a, b]) == [a]
  {
    assert [a, b][1..] == [b] && [b][1..] == [];
    assert PushFirst([], a) == [a];
    assert a in [a] && IsKnown([a], b);
    assert PushAll([], [a, b]) == PushAll([a], [b]) == PushAll(PushFirst([a], b), []) == [a];
  }

  /**
   * Two accurately captured entries that collide: replay restores the places of the
   * first and leaves at the places of the second whatever was written there.
   */
  lemma CollidingPairIsLost(m: Machine, a: BackupEntry, b: BackupEntry, writes: map<Location, Original>, l: Location)
    requires Collide(a, b) && Accurate(a, m) && Accurate(b, m)
    ensures var after := Replay(PushAll([], [a, b]), Write(m, writes));
            && (l in Originals(a) ==> Get(after, l) == Get(m, l))
            && (l in Originals(b) && l in writes ==> Get(after, l) == writes[l])
  {
    SecondOfPairIsDropped(a, b);
    ReplayReads([a], Write(m, writes), l);
    WriteReads(m, writes, l);
    assert a in [a];
  }

  /** One machine that replay does not restore: two adapter properties of one spelling. */
  lemma AdapterPropertyIsLost(step: string)
    ensures var kept, lost := NicProperty("nic", "a:b"), NicProperty("nic:a", "b");
            var m: Machine := map[kept := "1", lost := "2"];
            var batch := [NicAdapter(step, "nic", "a:b", Some("1")), NicAdapter(step, "nic:a", "b", Some("2"))];
            Get(Replay(PushAll([], batch), Write(m, map[lost := Some("9")])), lost) == Some("9") != Get(m, lost)
  {
    var a, b := NicAdapter(step, "nic", "a:b", Some("1")), NicAdapter(step, "nic:a", "b", Some("2"));
    var kept, lost := NicProperty("nic", "a:b"), NicProperty("nic:a", "b");
    assert "a" + ":" + "b" == "a:b" && "nic" + ":" + "a" == "nic:a";
    AdapterFamily(step, "nic", "a", "b", Some("1"), Some("2"));
    assert Lower("nic") == "nic" && Lower("a:b") == "a:b" && Lower("nic:a") == "nic:a" && Lower("b") == "b";
    assert "nic" != "nic:a" by { assert |"nic"| != |"nic:a"|; }
    CollidingPairIsLost(map[kept := "1", lost := "2"], a, b, map[lost := Some("9")], lost);
  }
}
