/** Backup entries, their textual dedupe identity, and the first-value log. */
module Backup {
  import opened Wrappers
  import opened Text
  import opened CfgTargets

  /** A restorable place on the machine. `None` as its value means absent. */
  datatype Location =
    | RegistryValue(path: string, name: string)
    | HagsMode
    | ServiceConfig(service: string)
    | ActivePowerPlan
    | BootValue(key: string)
    | TaskState(folder: string, task: string)
    | NicProperty(adapter: string, property: string)
    | QosPolicies
    | DefenderExclusions
    | PagefileSetting
    | PagefileState
    | DnsServers(adapter: string)
    | InterruptValue(device: string, valueName: string)
    | NetworkStack(adapter: string)
    | DrsValue(profile: string, setting: string)
    | CfgFile(install: string, file: string)

  type Original = Option<string>

  /** One captured value; the fields are those the identity and the restore consult. */
  datatype BackupEntry =
    | Registry(step: string, path: string, name: string, original: Original)
    | Hags(step: string, original: Original)
    | Service(step: string, name: string, original: Original)
    | Powerplan(step: string, originalGuid: string)
    | Bootconfig(step: string, key: string, original: Original)
    | Scheduledtask(step: string, taskPath: string, taskName: string, original: Original)
    | NicAdapter(step: string, adapterName: string, propertyName: string, original: Original)
    | QosUro(step: string, original: Original)
    | Defender(step: string, original: Original)
    | Pagefile(step: string, original: Original)
    | PagefileTransaction(step: string, original: Original)
    | Dns(step: string, adapterName: string, adapterGuid: Option<string>, original: Original)
    | InterruptPolicy(step: string, device: string, valueName: string, original: Original)
    | NetworkStackTransaction(step: string, adapterName: string, original: Original)
    | Drs(step: string, profile: string, settings: map<string, Original>)
    | Cs2ConfigTransaction(step: string, fingerprint: string, targets: seq<(Cs2ConfigTarget, Original)>)
    | UnknownEntry(raw: string)

  function StepOf(e: BackupEntry): Option<string> {
    if e.UnknownEntry? then None else Some(e.step)
  }

  function FileNames(targets: seq<(Cs2ConfigTarget, Original)>): seq<string> {
    if targets == [] then [] else [targets[0].0.FileName()] + FileNames(targets[1..])
  }

  function Join(parts: seq<string>): string {
    if parts == [] then ""
    else if |parts| == 1 then parts[0]
    else parts[0] + "," + Join(parts[1..])
  }

  /** The part of the identity after the step: kind and lower-cased subject. */
  function IdentityTail(e: BackupEntry): Option<string> {
    match e
    case Registry(_, path, name, _) => Some("registry:" + Lower(path) + ":" + Lower(name))
    case Hags(_, _) => Some("hags")
    case Service(_, name, _) => Some("service:" + Lower(name))
    case Powerplan(_, guid) => Some("powerplan:" + Lower(guid))
    case Bootconfig(_, key, _) => Some("bootconfig:" + Lower(key))
    case Scheduledtask(_, path, name, _) => Some("scheduledtask:" + Lower(path) + Lower(name))
    case NicAdapter(_, adapter, property, _) => Some("nic_adapter:" + Lower(adapter) + ":" + Lower(property))
    case Dns(_, name, guid, _) => Some("dns:" + Lower(if guid.Some? then guid.value else name))
    case InterruptPolicy(_, device, valueName, _) => Some("interrupt:" + Lower(device) + ":" + Lower(valueName))
    case NetworkStackTransaction(_, adapter, _) => Some("network_stack:" + Lower(adapter))
    case PagefileTransaction(_, _) => Some("pagefile_transaction")
    case Cs2ConfigTransaction(_, fingerprint, targets) =>
      Some("cs2_config_transaction:" + Lower(fingerprint) + ":" + Join(FileNames(targets)))
    case _ => None
  }

  function DedupeIdentity(e: BackupEntry): Option<string> {
    if StepOf(e).None? || IdentityTail(e).None? then None
    else Some(Lower(StepOf(e).value) + ":" + IdentityTail(e).value)
  }

  function CfgOriginals(fingerprint: string, targets: seq<(Cs2ConfigTarget, Original)>): map<Location, Original> {
    if targets == [] then map[]
    else CfgOriginals(fingerprint, targets[1..])[CfgFile(fingerprint, targets[0].0.FileName()) := targets[0].1]
  }

  function DrsOriginals(profile: string, settings: map<string, Original>): map<Location, Original> {
    map id | id in settings :: DrsValue(profile, id) := settings[id]
  }

  /** Every place the entry restores, with the value it restores there. */
  function Originals(e: BackupEntry): map<Location, Original> {
    match e
    case Registry(_, path, name, original) => map[RegistryValue(Lower(path), Lower(name)) := original]
    case Hags(_, original) => map[HagsMode := original]
    case Service(_, name, original) => map[ServiceConfig(Lower(name)) := original]
    case Powerplan(_, guid) => map[ActivePowerPlan := Some(guid)]
    case Bootconfig(_, key, original) => map[BootValue(Lower(key)) := original]
    case Scheduledtask(_, path, name, original) => map[TaskState(Lower(path), Lower(name)) := original]
    case NicAdapter(_, adapter, property, original) => map[NicProperty(Lower(adapter), Lower(property)) := original]
    case QosUro(_, original) => map[QosPolicies := original]
    case Defender(_, original) => map[DefenderExclusions := original]
    case Pagefile(_, original) => map[PagefileSetting := original]
    case PagefileTransaction(_, original) => map[PagefileState := original]
    case Dns(_, name, guid, original) => map[DnsServers(Lower(if guid.Some? then guid.value else name)) := original]
    case InterruptPolicy(_, device, valueName, original) => map[InterruptValue(Lower(device), Lower(valueName)) := original]
    case NetworkStackTransaction(_, adapter, original) => map[NetworkStack(Lower(adapter)) := original]
    case Drs(_, profile, settings) => DrsOriginals(profile, settings)
    case Cs2ConfigTransaction(_, fingerprint, targets) => CfgOriginals(Lower(fingerprint), targets)
    case UnknownEntry(_) => map[]
  }

  /** The places of one kind of setting. */
  datatype Kind =
    | RegistryKind | HagsKind | ServiceKind | PowerKind | BootKind | TaskKind | NicKind | QosKind | DefenderKind
    | PagefileKind | PagefileStateKind | DnsKind | InterruptKind | StackKind | DrsKind | CfgKind

  function KindOf(l: Location): Kind {
    match l
    case RegistryValue(_, _) => RegistryKind
    case HagsMode => HagsKind
    case ServiceConfig(_) => ServiceKind
    case ActivePowerPlan => PowerKind
    case BootValue(_) => BootKind
    case TaskState(_, _) => TaskKind
    case NicProperty(_, _) => NicKind
    case QosPolicies => QosKind
    case DefenderExclusions => DefenderKind
    case PagefileSetting => PagefileKind
    case PagefileState => PagefileStateKind
    case DnsServers(_) => DnsKind
    case InterruptValue(_, _) => InterruptKind
    case NetworkStack(_) => StackKind
    case DrsValue(_, _) => DrsKind
    case CfgFile(_, _) => CfgKind
  }

  function KindOfEntry(e: BackupEntry): Option<Kind> {
    if e.Registry? then Some(RegistryKind) else if e.Hags? then Some(HagsKind) else if e.Service? then Some(ServiceKind)
    else if e.Powerplan? then Some(PowerKind) else if e.Bootconfig? then Some(BootKind)
    else if e.Scheduledtask? then Some(TaskKind) else if e.NicAdapter? then Some(NicKind)
    else if e.QosUro? then Some(QosKind) else if e.Defender? then Some(DefenderKind)
    else if e.Pagefile? then Some(PagefileKind) else if e.PagefileTransaction? then Some(PagefileStateKind)
    else if e.Dns? then Some(DnsKind) else if e.InterruptPolicy? then Some(InterruptKind)
    else if e.NetworkStackTransaction? then Some(StackKind) else if e.Drs? then Some(DrsKind)
    else if e.Cs2ConfigTransaction? then Some(CfgKind) else None
  }

  /** The files of a CFG entry are those of its targets in its install. */
  lemma {:induction false} CfgPlaces(fingerprint: string, targets: seq<(Cs2ConfigTarget, Original)>, l: Location)
    ensures l in CfgOriginals(fingerprint, targets) <==> exists t <- targets :: l == CfgFile(fingerprint, t.0.FileName())
  {
    if targets != [] {
      CfgPlaces(fingerprint, targets[1..], l);
      assert forall t :: t in targets <==> t == targets[0] || t in targets[1..];
    }
  }

  /** One captured value: every kind but power plans, driver profiles, CFG files and unknown entries. */
  predicate HoldsOneOriginal(e: BackupEntry) {
    !e.Powerplan? && !e.Drs? && !e.Cs2ConfigTransaction? && !e.UnknownEntry?
  }

  /** A CFG entry restores exactly the files of its targets. */
  lemma CfgEntryRestoresItsFiles(e: BackupEntry, l: Location)
    requires e.Cs2ConfigTransaction?
    ensures l in Originals(e) <==> exists t <- e.targets :: l == CfgFile(Lower(e.fingerprint), t.0.FileName())
  {
    CfgPlaces(Lower(e.fingerprint), e.targets, l);
  }

  /** A driver profile entry restores exactly its settings, each to its own value. */
  lemma ProfileRestoresItsSettings(e: BackupEntry, setting: string)
    requires e.Drs?
    ensures DrsValue(e.profile, setting) in Originals(e) <==> setting in e.settings
    ensures setting in e.settings ==> Originals(e)[DrsValue(e.profile, setting)] == e.settings[setting]
    ensures forall l <- Originals(e) :: l.DrsValue? && l.profile == e.profile
  {
    assert Originals(e) == DrsOriginals(e.profile, e.settings);
    if setting in e.settings {
      assert DrsValue(e.profile, setting) in DrsOriginals(e.profile, e.settings);
    }
  }

  lemma OneOriginalIsRestored(e: BackupEntry, l: Location)
    requires HoldsOneOriginal(e) && l in Originals(e)
    ensures Originals(e) == map[l := e.original]
  {
  }

  /** An entry restores only places of its own kind. */
  lemma EntryRestoresItsKind(e: BackupEntry, l: Location)
    requires l in Originals(e)
    ensures Some(KindOf(l)) == KindOfEntry(e)
  {
    if e.Cs2ConfigTransaction? {
      CfgEntryRestoresItsFiles(e, l);
    }
  }

  // ---------------------------------------------------------------------
  // When the textual identity determines what is restored
  // ---------------------------------------------------------------------

  /** The shape of an engine step key: one colon. */
  predicate OneColon(step: string) {
    Find(step, ':') < |step| && ':' !in step[Find(step, ':') + 1..]
  }

  /**
   * The separator hypothesis: one of the two joined fields has a fixed number of
   * separators. A registry path holds one colon, the one after its hive, while a
   * value name may hold any (P1:30 names a value after an executable path). Task
   * folders end with the backslash that separates them from the task name.
   */
  predicate SeparatorSafe(e: BackupEntry) {
    match e
    case Registry(_, path, _, _) => OneColon(path)
    case NicAdapter(_, _, property, _) => ':' !in property
    case InterruptPolicy(_, _, valueName, _) => ':' !in valueName
    case Scheduledtask(_, path, name, _) => path != "" && path[|path| - 1] == '\\' && '\\' !in name
    case _ => true
  }

  predicate WellFormed(e: BackupEntry) {
    SeparatorSafe(e) && (StepOf(e).Some? ==> OneColon(StepOf(e).value))
  }

  lemma LowerOneColon(step: string)
    requires OneColon(step)
    ensures OneColon(Lower(step))
  {
    var i := Find(step, ':');
    var l := Lower(step);
    assert forall j :: 0 <= j < |step| ==> (l[j] == ':' <==> step[j] == ':');
    assert Find(l, ':') == i;
    assert forall j :: i < j < |step| ==> step[j] == step[i + 1..][j - i - 1] != ':';
    assert forall j :: i < j < |l| ==> l[j] != ':';
  }

  /** Two one-colon steps in front of two tails are cut off at the same place. */
  lemma SameStepSameTail(s: string, t: string, s': string, t': string)
    requires OneColon(s) && OneColon(s')
    requires s + ":" + t == s' + ":" + t'
    ensures s == s' && t == t'
  {
    var i, i' := Find(s, ':'), Find(s', ':');
    var a, b, a', b' := s[..i], s[i + 1..], s'[..i'], s'[i' + 1..];
    assert s == a + ":" + b && s' == a' + ":" + b';
    assert a + ":" + (b + ":" + t) == s + ":" + t;
    assert a' + ":" + (b' + ":" + t') == s' + ":" + t';
    SplitAtFirst(':', a, b + ":" + t, a', b' + ":" + t');
    SplitAtFirst(':', b, t, b', t');
  }

  lemma StripPrefix(prefix: string, a: string, b: string)
    requires prefix + a == prefix + b
    ensures a == b
  {
    assert a == (prefix + a)[|prefix|..] == (prefix + b)[|prefix|..] == b;
  }

  lemma {:induction false} JoinedNames(a: seq<(Cs2ConfigTarget, Original)>, b: seq<(Cs2ConfigTarget, Original)>)
    requires Join(FileNames(a)) == Join(FileNames(b))
    ensures FileNames(a) == FileNames(b)
  {
    if a == [] || b == [] {
      if a != [] { FirstNameIsNotEmpty(a); }
      if b != [] { FirstNameIsNotEmpty(b); }
    } else {
      FileNamesAreSeparatorFree(a[0].0);
      FileNamesAreSeparatorFree(b[0].0);
      JoinCases(a);
      JoinCases(b);
      assert |a| > 1 ==> Join(FileNames(a))[|a[0].0.FileName()|] == ',';
      assert |b| > 1 ==> Join(FileNames(b))[|b[0].0.FileName()|] == ',';
      if |a| > 1 {
        SplitAtFirst(',', a[0].0.FileName(), Join(FileNames(a[1..])), b[0].0.FileName(), Join(FileNames(b[1..])));
        JoinedNames(a[1..], b[1..]);
      }
    }
  }

  lemma JoinCases(a: seq<(Cs2ConfigTarget, Original)>)
    requires a != []
    ensures |FileNames(a)| > 0 && FileNames(a)[1..] == FileNames(a[1..])
    ensures |FileNames(a)| == 1 <==> |a| == 1
    ensures |a| == 1 ==> Join(FileNames(a)) == a[0].0.FileName()
    ensures |a| > 1 ==> Join(FileNames(a)) == a[0].0.FileName() + "," + Join(FileNames(a[1..]))
  {
    assert |a| > 1 ==> FileNames(a[1..]) == [a[1].0.FileName()] + FileNames(a[1..][1..]);
  }

  lemma FirstNameIsNotEmpty(a: seq<(Cs2ConfigTarget, Original)>)
    requires a != []
    ensures Join(FileNames(a)) != ""
  {
    FileNamesAreSeparatorFree(a[0].0);
    JoinCases(a);
  }

  lemma {:induction false} JoinHasNoColon(a: seq<(Cs2ConfigTarget, Original)>)
    ensures ':' !in Join(FileNames(a))
  {
    if a != [] {
      FileNamesAreSeparatorFree(a[0].0);
      JoinCases(a);
      JoinHasNoColon(a[1..]);
    }
  }

  lemma {:induction false} SameNamesSameCfgFiles(f: string, a: seq<(Cs2ConfigTarget, Original)>,
                                                b: seq<(Cs2ConfigTarget, Original)>)
    requires FileNames(a) == FileNames(b)
    ensures CfgOriginals(f, a).Keys == CfgOriginals(f, b).Keys
  {
    if a != [] && b != [] {
      JoinCases(a);
      JoinCases(b);
      SameNamesSameCfgFiles(f, a[1..], b[1..]);
    }
  }

  /** The first two characters of an identity tail tell the kind of entry. */
  function KindMark(e: BackupEntry): (char, char) {
    match e
    case Registry(_, _, _, _) => ('r', 'e')
    case Hags(_, _) => ('h', 'a')
    case Service(_, _, _) => ('s', 'e')
    case Powerplan(_, _) => ('p', 'o')
    case Bootconfig(_, _, _) => ('b', 'o')
    case Scheduledtask(_, _, _, _) => ('s', 'c')
    case NicAdapter(_, _, _, _) => ('n', 'i')
    case Dns(_, _, _, _) => ('d', 'n')
    case InterruptPolicy(_, _, _, _) => ('i', 'n')
    case NetworkStackTransaction(_, _, _) => ('n', 'e')
    case PagefileTransaction(_, _) => ('p', 'a')
    case Cs2ConfigTransaction(_, _, _) => ('c', 's')
    case _ => (' ', ' ')
  }

  lemma TailIsMarked(e: BackupEntry)
    requires IdentityTail(e).Some?
    ensures |IdentityTail(e).value| >= 2 && (IdentityTail(e).value[0], IdentityTail(e).value[1]) == KindMark(e)
  {
  }

  lemma SameKindTails(a: BackupEntry, b: BackupEntry)
    requires IdentityTail(a).Some? && IdentityTail(a) == IdentityTail(b)
    ensures a.Registry? == b.Registry? && a.Hags? == b.Hags? && a.Service? == b.Service?
    ensures a.Powerplan? == b.Powerplan? && a.Bootconfig? == b.Bootconfig?
    ensures a.Scheduledtask? == b.Scheduledtask? && a.NicAdapter? == b.NicAdapter?
    ensures a.Dns? == b.Dns? && a.InterruptPolicy? == b.InterruptPolicy?
    ensures a.NetworkStackTransaction? == b.NetworkStackTransaction?
    ensures a.PagefileTransaction? == b.PagefileTransaction?
    ensures a.Cs2ConfigTransaction? == b.Cs2ConfigTransaction?
  {
    TailIsMarked(a);
    TailIsMarked(b);
  }

  /** Under the separator hypothesis two entries with one identity restore the same places. */
  lemma IdentityDeterminesLocations(a: BackupEntry, b: BackupEntry)
    requires WellFormed(a) && WellFormed(b)
    requires DedupeIdentity(a).Some? && DedupeIdentity(a) == DedupeIdentity(b)
    ensures Originals(a).Keys == Originals(b).Keys
  {
    LowerOneColon(a.step);
    LowerOneColon(b.step);
    SameStepSameTail(Lower(a.step), IdentityTail(a).value, Lower(b.step), IdentityTail(b).value);
    SameKindTails(a, b);
    SameTailSameLocations(a, b);
  }

  lemma SameTailSameLocations(a: BackupEntry, b: BackupEntry)
    requires SeparatorSafe(a) && SeparatorSafe(b)
    requires IdentityTail(a).Some? && IdentityTail(a) == IdentityTail(b)
    ensures Originals(a).Keys == Originals(b).Keys
  {
    SameKindTails(a, b);
    match a
    case Registry(_, path, name, _) =>
      LowerOneColon(path);
      LowerOneColon(b.path);
      SplitPath("registry:", Lower(path), Lower(name), Lower(b.path), Lower(b.name));
    case NicAdapter(_, adapter, property, _) =>
      SplitField("nic_adapter:", Lower(adapter), Lower(property), Lower(b.adapterName), Lower(b.propertyName));
    case InterruptPolicy(_, device, valueName, _) =>
      SplitField("interrupt:", Lower(device), Lower(valueName), Lower(b.device), Lower(b.valueName));
    case Service(_, name, _) => StripPrefix("service:", Lower(name), Lower(b.name));
    case Bootconfig(_, key, _) => StripPrefix("bootconfig:", Lower(key), Lower(b.key));
    case Dns(_, name, guid, _) =>
      StripPrefix("dns:", Lower(if guid.Some? then guid.value else name),
                  Lower(if b.adapterGuid.Some? then b.adapterGuid.value else b.adapterName));
    case NetworkStackTransaction(_, adapter, _) => StripPrefix("network_stack:", Lower(adapter), Lower(b.adapterName));
    case Scheduledtask(_, path, name, _) =>
      TaskNamesSplit(Lower(path), Lower(name), Lower(b.taskPath), Lower(b.taskName));
    case Cs2ConfigTransaction(_, fingerprint, targets) =>
      JoinHasNoColon(targets);
      JoinHasNoColon(b.targets);
      SplitField("cs2_config_transaction:", Lower(fingerprint), Join(FileNames(targets)),
                 Lower(b.fingerprint), Join(FileNames(b.targets)));
      JoinedNames(targets, b.targets);
      SameNamesSameCfgFiles(Lower(fingerprint), targets, b.targets);
    case _ =>
  }

  lemma SplitPath(prefix: string, x: string, y: string, x': string, y': string)
    requires prefix + x + ":" + y == prefix + x' + ":" + y'
    requires OneColon(x) && OneColon(x')
    ensures x == x' && y == y'
  {
    assert prefix + x + ":" + y == prefix + (x + ":" + y);
    assert prefix + x' + ":" + y' == prefix + (x' + ":" + y');
    StripPrefix(prefix, x + ":" + y, x' + ":" + y');
    SameStepSameTail(x, y, x', y');
  }

  lemma SplitField(prefix: string, x: string, y: string, x': string, y': string)
    requires prefix + x + ":" + y == prefix + x' + ":" + y'
    requires ':' !in y && ':' !in y'
    ensures x == x' && y == y'
  {
    assert prefix + (x + ":" + y) == prefix + x + ":" + y;
    assert prefix + (x' + ":" + y') == prefix + x' + ":" + y';
    StripPrefix(prefix, x + ":" + y, x' + ":" + y');
    SplitAtLast(':', x, y, x', y');
  }

  lemma TaskNamesSplit(path: string, name: string, path': string, name': string)
    requires "scheduledtask:" + path + name == "scheduledtask:" + path' + name'
    requires path != "" && path[|path| - 1] == '\\' && '\\' !in name
    requires path' != "" && path'[|path'| - 1] == '\\' && '\\' !in name'
    ensures path == path' && name == name'
  {
    var front, front' := path[..|path| - 1], path'[..|path'| - 1];
    assert path == front + "\\" && path' == front' + "\\";
    assert "scheduledtask:" + (path + name) == "scheduledtask:" + path + name;
    assert "scheduledtask:" + (path' + name') == "scheduledtask:" + path' + name';
    StripPrefix("scheduledtask:", path + name, path' + name');
    SplitAtLast('\\', front, name, front', name');
  }

  lemma RegistryIdentityText(step: string, p: string, n: string, path: string, name: string, original: Original)
    requires Lower(p) == p && Lower(n) == n && Lower(path) == path && Lower(name) == name
    ensures DedupeIdentity(Registry(step, p, n, original)) == DedupeIdentity(Registry(step, path, name, original))
            <==> p + ":" + n == path + ":" + name
  {
    var left, right := "registry:" + p + ":" + n, "registry:" + path + ":" + name;
    assert DedupeIdentity(Registry(step, p, n, original)) == Some(Lower(step) + ":" + left);
    assert DedupeIdentity(Registry(step, path, name, original)) == Some(Lower(step) + ":" + right);
    assert "registry:" + (p + ":" + n) == left;
    assert "registry:" + (path + ":" + name) == right;
    if DedupeIdentity(Registry(step, p, n, original)) == DedupeIdentity(Registry(step, path, name, original)) {
      StripPrefix(Lower(step) + ":", left, right);
      StripPrefix("registry:", p + ":" + n, path + ":" + name);
    }
  }

  /** A lower-case text with a colon falls apart at it. */
  lemma LowerSplit(s: string) returns (a: string, b: string)
    requires Lower(s) == s && ':' in s
    ensures s == a + (":" + b) && Lower(a) == a && Lower(b) == b
  {
    var i := Find(s, ':');
    a, b := s[..i], s[i + 1..];
    assert s == a + (":" + b);
    LowerPart(a, ":" + b);
    LowerPart(":", b);
  }

  lemma Around(x: string, y: string, z: string)
    ensures x + ":" + (y + (":" + z)) == (x + (":" + y)) + ":" + z
  {
  }

  /** Moving a colon's neighbourhood between the fields spells the same text. */
  lemma OtherSpelling(path: string, name: string) returns (p: string, n: string)
    requires Lower(path) == path && Lower(name) == name
    requires ':' in path || ':' in name
    ensures Lower(p) == p && Lower(n) == n && (p, n) != (path, name)
    ensures p + ":" + n == path + ":" + name
  {
    var a, b := LowerSplit(if ':' in name then name else path);
    if ':' in name {
      p, n := path + (":" + a), b;
      Around(path, a, b);
      LowerJoin(path, ":" + a);
      LowerJoin(":", a);
      assert |n| < |name|;
    } else {
      p, n := a, b + (":" + name);
      Around(a, b, name);
      LowerJoin(b, ":" + name);
      LowerJoin(":", name);
      assert |p| < |path|;
    }
  }

  predicate SpellsTheSame(step: string, p: string, n: string, path: string, name: string, original: Original) {
    && Lower(p) == p && Lower(n) == n
    && DedupeIdentity(Registry(step, p, n, original)) == DedupeIdentity(Registry(step, path, name, original))
  }

  /** A registry value can lose its identity to another exactly when a field holds a colon. */
  lemma RegistryIdentityIsAmbiguous(step: string, path: string, name: string, original: Original)
    requires Lower(path) == path && Lower(name) == name
    ensures (exists p: string, n: string :: SpellsTheSame(step, p, n, path, name, original) && (p, n) != (path, name))
            <==> ':' in path || ':' in name
  {
    if ':' in path || ':' in name {
      var p, n := OtherSpelling(path, name);
      RegistryIdentityText(step, p, n, path, name, original);
      assert SpellsTheSame(step, p, n, path, name, original);
    } else {
      forall p: string, n: string | SpellsTheSame(step, p, n, path, name, original)
        ensures (p, n) == (path, name)
      {
        RegistryIdentityText(step, p, n, path, name, original);
        OneColonOnly(p, n, path, name);
      }
    }
  }

  lemma OneColonOnly(p: string, n: string, path: string, name: string)
    requires p + ":" + n == path + ":" + name
    requires ':' !in path && ':' !in name
    ensures p == path && n == name
  {
    var whole := path + ":" + name;
    assert forall j :: 0 <= j < |whole| ==> (whole[j] == ':' <==> j == |path|);
    assert whole[|p|] == ':';
    assert p == whole[..|p|] && n == whole[|p| + 1..];
  }

  lemma LowerJoin(a: string, b: string)
    ensures Lower(a + b) == Lower(a) + Lower(b)
  {
  }

  lemma LowerPart(a: string, b: string)
    requires Lower(a + b) == a + b
    ensures Lower(a) == a && Lower(b) == b
  {
    assert forall i :: 0 <= i < |a| ==> (a + b)[i] == a[i];
    assert forall i :: 0 <= i < |b| ==> (a + b)[|a| + i] == b[i];
  }
}
