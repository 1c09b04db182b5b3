/** The file port of the CFG controller: every call may fail, before or after its effect. */
module CfgFiles {
  import opened Wrappers
  import opened CfgTargets

  /** File content: a UTF-8 text, or bytes that are not one. */
  datatype Bytes = Utf8(text: string) | NotUtf8(raw: seq<nat>) {
    /** The number of bytes. */
    function Size(): nat {
      match this
      case Utf8(text) => Utf8Size(text)
      case NotUtf8(raw) => |raw|
    }
  }

  function Utf8Size(text: string): nat {
    if text == [] then 0
    else
      var n := text[0] as int;
      (if n < 0x80 then 1 else if n < 0x800 then 2 else if n < 0x10000 then 3 else 4) + Utf8Size(text[1..])
  }

  /** A file of the cfg directory: a managed target, one of the two sidecars, or any other. */
  datatype CfgPath = Target(target: Cs2ConfigTarget) | OptimizationBackup | AutoexecBackup | OtherFile(name: string) {
    function FileName(): string {
      match this
      case Target(target) => target.FileName()
      case OptimizationBackup => "optimization.cfg.bak"
      case AutoexecBackup => "autoexec.cfg.bak"
      case OtherFile(name) => name
    }
  }

  /** Targets and sidecars are different files. */
  lemma ManagedFilesAreApart(a: CfgPath, b: CfgPath)
    requires !a.OtherFile? && !b.OtherFile? && a.FileName() == b.FileName()
    ensures a == b
  {
    var s, t := a.FileName(), b.FileName();
    assert s[|s| - 1] == t[|t| - 1];
    assert s[0] == t[0];
    if a.Target? && b.Target? {
      FileNamesDiffer(a.target, b.target);
    } else if a.Target? {
      TargetsEndInCfg(a.target);
    } else if b.Target? {
      TargetsEndInCfg(b.target);
    }
  }

  lemma TargetsEndInCfg(t: Cs2ConfigTarget)
    ensures t.FileName() != [] && t.FileName()[|t.FileName()| - 1] == 'g'
  {
    if t.Asset? {
      AssetNamesAreSeparatorFree(t.asset);
    }
  }

  type Files = map<CfgPath, Bytes>

  function Lookup(files: Files, path: CfgPath): Option<Bytes> {
    if path in files then Some(files[path]) else None
  }

  function Set(files: Files, path: CfgPath, content: Option<Bytes>): Files {
    if content.Some? then files[path := content.value] else files - {path}
  }

  /** The files, and the paths whose latest creation was torn to other bytes than it was given. */
  datatype Disk = Disk(files: Files, torn: set<CfgPath>)

  datatype IoError = NotFound | AlreadyExists | OtherError

  /** How one call fails; a creation can also leave a torn file. */
  datatype IoFault = NoFault | FailsBefore | FailsAfter | Torn(content: Bytes)
  {
    predicate TearsTo(expected: Bytes) {
      Torn? && content != expected
    }
  }

  class ConfigFs {
    const fault: nat -> IoFault
    var calls: nat
    var files: Files
    ghost var torn: set<CfgPath>

    constructor (fault: nat -> IoFault, files: Files)
      ensures this.fault == fault && this.files == files && calls == 0 && torn == {}
    {
      this.fault, this.files, calls, torn := fault, files, 0, {};
    }

    ghost function OnDisk(): Disk
      reads this
    {
      Disk(files, torn)
    }

    /** No call from now on fails. */
    ghost predicate Steady()
      reads this
    {
      forall n :: n >= calls ==> fault(n).NoFault?
    }

    method CreateDirectory() returns (r: Result<(), IoError>)
      modifies this`calls
      ensures calls == old(calls) + 1
      ensures old(fault(calls)).NoFault? ==> r.Ok?
    {
      r := if fault(calls).NoFault? then Ok(()) else Err(OtherError);
      calls := calls + 1;
    }

    method ReadFile(path: CfgPath) returns (r: Result<Bytes, IoError>)
      modifies this`calls
      ensures calls == old(calls) + 1
      ensures r.Ok? ==> path in files && r.value == files[path]
      ensures r == Err(NotFound) ==> path !in files
      ensures old(fault(calls)).NoFault? ==> r == if path in files then Ok(files[path]) else Err(NotFound)
    {
      r := if !fault(calls).NoFault? then Err(OtherError)
           else if path in files then Ok(files[path])
           else Err(NotFound);
      calls := calls + 1;
    }

    method CreateFileNew(path: CfgPath, content: Bytes) returns (r: Result<(), IoError>)
      modifies this
      ensures calls == old(calls) + 1
      ensures files == old(files)
              || (path !in old(files) && path in files && files == old(files)[path := files[path]]
                  && (files[path] == content <==> !old(fault(calls)).TearsTo(content)))
      ensures torn == (if files == old(files) then old(torn)
                       else if old(fault(calls)).TearsTo(content) then old(torn) + {path} else old(torn) - {path})
      ensures r.Ok? ==> path !in old(files) && files == old(files)[path := content]
      ensures r == Err(AlreadyExists) ==> path in old(files) && files == old(files)
      ensures old(fault(calls)).Torn? && path !in old(files) ==>
                r.Err? && files == old(files)[path := old(fault(calls)).content]
      ensures old(fault(calls)).NoFault? ==> r == if path in old(files) then Err(AlreadyExists) else Ok(())
    {
      var f := fault(calls);
      calls := calls + 1;
      if f.FailsBefore? {
        return Err(OtherError);
      }
      if path in files {
        return Err(if f.NoFault? then AlreadyExists else OtherError);
      }
      files := files[path := if f.Torn? then f.content else content];
      torn := if f.TearsTo(content) then torn + {path} else torn - {path};
      r := if f.NoFault? then Ok(()) else Err(OtherError);
    }

    method AtomicReplace(path: CfgPath, content: Bytes) returns (r: Result<(), IoError>)
      modifies this`calls, this`files
      ensures calls == old(calls) + 1
      ensures files == old(files) || files == old(files)[path := content]
      ensures r.Ok? ==> files == old(files)[path := content]
      ensures old(fault(calls)).NoFault? ==> r.Ok?
    {
      var f := fault(calls);
      calls := calls + 1;
      if f.FailsBefore? || f.Torn? {
        return Err(OtherError);
      }
      files := files[path := content];
      r := if f.NoFault? then Ok(()) else Err(OtherError);
    }

    method RemoveFile(path: CfgPath) returns (r: Result<(), IoError>)
      modifies this`calls, this`files
      ensures calls == old(calls) + 1
      ensures files == old(files) || files == old(files) - {path}
      ensures r.Ok? || r == Err(NotFound) ==> files == old(files) - {path}
      ensures old(fault(calls)).NoFault? ==> r == if path in old(files) then Ok(()) else Err(NotFound)
    {
      var f := fault(calls);
      calls := calls + 1;
      if f.FailsBefore? || f.Torn? {
        return Err(OtherError);
      }
      if path !in files {
        assert files - {path} == files;
        return Err(if f.NoFault? then NotFound else OtherError);
      }
      files := files - {path};
      r := if f.NoFault? then Ok(()) else Err(OtherError);
    }
  }

  // ---------------------------------------------------------------------
  // Small transactions over the port
  // ---------------------------------------------------------------------

  datatype ConfigError =
    | EmptyOptionalSelection
    | InvalidBinding
    | PreconditionMismatch(path: CfgPath)
    | AutoexecNotUtf8
    | Io(error: IoError)
    | Mutation(error: IoError)
    | ReadbackMismatch(path: CfgPath)

  method ReadOptional(fs: ConfigFs, path: CfgPath) returns (r: Result<Option<Bytes>, ConfigError>)
    modifies fs`calls
    ensures fs.calls == old(fs.calls) + 1
    ensures r.Ok? ==> r.value == Lookup(fs.files, path)
    ensures old(fs.Steady()) ==> r.Ok?
  {
    var read := fs.ReadFile(path);
    match read {
      case Ok(content) => r := Ok(Some(content));
      case Err(NotFound) => r := Ok(None);
      case Err(error) => r := Err(Io(error));
    }
  }

  method WriteAndVerify(fs: ConfigFs, path: CfgPath, expected: Bytes) returns (r: Outcome<ConfigError>)
    modifies fs`calls, fs`files
    ensures fs.calls >= old(fs.calls)
    ensures fs.files == old(fs.files) || fs.files == old(fs.files)[path := expected]
    ensures r.Pass? ==> fs.files == old(fs.files)[path := expected]
    ensures old(fs.Steady()) ==> r.Pass?
  {
    var replaced := fs.AtomicReplace(path, expected);
    if replaced.Err? {
      return Fail(Mutation(replaced.error));
    }
    var actual := fs.ReadFile(path);
    if actual.Err? {
      return Fail(Mutation(actual.error));
    }
    r := if actual.value == expected then Pass else Fail(ReadbackMismatch(path));
  }

  method VerifyBytes(fs: ConfigFs, path: CfgPath, expected: Bytes) returns (r: Outcome<ConfigError>)
    modifies fs`calls
    ensures fs.calls == old(fs.calls) + 1
    ensures r.Pass? ==> Lookup(fs.files, path) == Some(expected)
    ensures old(fs.Steady()) ==> (r.Pass? <==> Lookup(fs.files, path) == Some(expected))
  {
    var actual := fs.ReadFile(path);
    if actual.Err? {
      return Fail(Io(actual.error));
    }
    r := if actual.value == expected then Pass else Fail(ReadbackMismatch(path));
  }

  datatype Sidecar = Created | Retained | NotNeeded

  /** The torn paths after a creation at `path` left these bytes where `expected` was given. */
  function TornAfter(torn: set<CfgPath>, path: CfgPath, content: Bytes, expected: Bytes): set<CfgPath> {
    if content == expected then torn - {path} else torn + {path}
  }

  /**
   * A one-time backup beside a file: created once from the original, never
   * overwritten. What a creation leaves is the original exactly when its one
   * creating call is not torn to other bytes.
   */
  method CreateSidecar(fs: ConfigFs, path: CfgPath, original: Option<Bytes>) returns (r: Result<Sidecar, ConfigError>)
    modifies fs
    ensures fs.calls >= old(fs.calls)
    ensures path in old(fs.files) || original.None? ==> fs.OnDisk() == old(fs.OnDisk())
    ensures fs.OnDisk() == old(fs.OnDisk())
            || (original.Some? && path !in old(fs.files) && path in fs.files
                && fs.OnDisk() == Disk(old(fs.files)[path := fs.files[path]],
                                       TornAfter(old(fs.torn), path, fs.files[path], original.value)))
    ensures path !in old(fs.files) && path in fs.files ==>
              original.Some? && (fs.files[path] == original.value <==> !old(fs.fault(fs.calls)).TearsTo(original.value))
    ensures r.Ok? ==>
              fs.files == (if original.None? || path in old(fs.files) then old(fs.files) else old(fs.files)[path := original.value])
    ensures r.Ok? ==>
              r.value == (if original.None? then NotNeeded else if path in old(fs.files) then Retained else Created)
    ensures original.Some? && path in old(fs.files) && old(fs.fault(fs.calls)).NoFault? ==> r == Ok(Retained)
    ensures old(fs.Steady()) ==> r.Ok?
  {
    if original.None? {
      return Ok(NotNeeded);
    }
    var created := fs.CreateFileNew(path, original.value);
    if created == Err(AlreadyExists) {
      return Ok(Retained);
    }
    if created.Err? {
      return Err(Mutation(created.error));
    }
    var readback := fs.ReadFile(path);
    if readback.Err? {
      return Err(Mutation(readback.error));
    }
    r := if readback.value == original.value then Ok(Created) else Err(ReadbackMismatch(path));
  }

  /**
   * Where the sidecar promise stops: a creation torn by a crash leaves its torn
   * bytes, and the next attempt, whatever its own faults, keeps them.
   */
  method TornSidecarIsRetained(fs: ConfigFs, path: CfgPath, original: Bytes) returns (r: Result<Sidecar, ConfigError>)
    requires path !in fs.files && fs.fault(fs.calls).TearsTo(original)
    modifies fs
    ensures Lookup(fs.files, path) == Some(old(fs.fault(fs.calls)).content) != Some(original)
    ensures path in fs.torn
    ensures old(fs.fault(fs.calls + 1)).NoFault? ==> r == Ok(Retained)
  {
    var torn := fs.CreateFileNew(path, original);
    r := CreateSidecar(fs, path, Some(original));
  }
}
