/** The persisted undo log: first-value deduplication and restoration in reverse. */
module UndoLog {
  import opened Wrappers
  import opened Backup
  import Text

  /** Absent locations are simply not keys. */
  type Machine = map<Location, string>

  function Get(m: Machine, l: Location): Original {
    if l in m then Some(m[l]) else None
  }

  /** Writes every given location and nothing else. */
  function Write(m: Machine, values: map<Location, Original>): Machine {
    map l | l in m.Keys + values.Keys && (if l in values then values[l].Some? else l in m)
      :: if l in values then values[l].value else m[l]
  }

  lemma WriteReads(m: Machine, values: map<Location, Original>, l: Location)
    ensures Get(Write(m, values), l) == if l in values then values[l] else Get(m, l)
  {
  }

  lemma SameReads(m: Machine, n: Machine)
    requires forall l :: Get(m, l) == Get(n, l)
    ensures m == n
  {
    forall l ensures l in m <==> l in n {
      assert Get(m, l) == Get(n, l);
    }
    forall l | l in m ensures m[l] == n[l] {
      assert Get(m, l) == Get(n, l);
    }
  }

  predicate IsKnown(log: seq<BackupEntry>, e: BackupEntry) {
    DedupeIdentity(e).Some? && exists known <- log :: DedupeIdentity(known) == DedupeIdentity(e)
  }

  function PushFirst(log: seq<BackupEntry>, e: BackupEntry): seq<BackupEntry> {
    if IsKnown(log, e) then log else log + [e]
  }

  function PushAll(log: seq<BackupEntry>, batch: seq<BackupEntry>): seq<BackupEntry>
    decreases |batch|
  {
    if batch == [] then log else PushAll(PushFirst(log, batch[0]), batch[1..])
  }

  predicate Covers(log: seq<BackupEntry>, l: Location) {
    exists e <- log :: l in Originals(e)
  }

  /** The value recorded by the earliest entry that covers the location. */
  function FirstOriginal(log: seq<BackupEntry>, l: Location): Original
    requires Covers(log, l)
  {
    if l in Originals(log[0]) then Originals(log[0])[l] else FirstOriginal(log[1..], l)
  }

  /** Restoring in `restore_order`: the newest entry first, the oldest last. */
  function Replay(log: seq<BackupEntry>, m: Machine): Machine {
    if log == [] then m else Write(Replay(log[1..], m), Originals(log[0]))
  }

  /** The entry records what the machine holds now. */
  predicate Accurate(e: BackupEntry, m: Machine) {
    forall l <- Originals(e) :: Originals(e)[l] == Get(m, l)
  }

  /** Everything recorded is an original value; everything else is untouched. */
  ghost predicate SoundLog(original: Machine, m: Machine, log: seq<BackupEntry>) {
    && (forall l :: Covers(log, l) ==> FirstOriginal(log, l) == Get(original, l))
    && (forall l :: !Covers(log, l) ==> Get(m, l) == Get(original, l))
  }

  lemma CoverageGrows(log: seq<BackupEntry>, e: BackupEntry, l: Location)
    ensures Covers(log + [e], l) <==> Covers(log, l) || l in Originals(e)
  {
    assert forall x :: x in log + [e] <==> x in log || x == e;
  }

  lemma CoverageOfTail(log: seq<BackupEntry>, l: Location)
    requires log != []
    ensures Covers(log, l) <==> l in Originals(log[0]) || Covers(log[1..], l)
  {
    assert forall x :: x in log <==> x == log[0] || x in log[1..];
  }

  lemma {:induction false} PushKeepsFirstOriginal(log: seq<BackupEntry>, e: BackupEntry, l: Location)
    ensures Covers(log, l) ==> Covers(log + [e], l) && FirstOriginal(log + [e], l) == FirstOriginal(log, l)
    ensures !Covers(log, l) && l in Originals(e) ==>
              Covers(log + [e], l) && FirstOriginal(log + [e], l) == Originals(e)[l]
    ensures Covers(log + [e], l) <==> Covers(log, l) || l in Originals(e)
  {
    CoverageGrows(log, e, l);
    if log != [] {
      CoverageOfTail(log, l);
      CoverageOfTail(log + [e], l);
      assert (log + [e])[1..] == log[1..] + [e];
      PushKeepsFirstOriginal(log[1..], e, l);
    } else {
      assert log + [e] == [e];
    }
  }

  lemma CoverageIsStable(log: seq<BackupEntry>, e: BackupEntry, l: Location)
    requires Covers(log, l)
    ensures Covers(PushFirst(log, e), l) && FirstOriginal(PushFirst(log, e), l) == FirstOriginal(log, l)
  {
    PushKeepsFirstOriginal(log, e, l);
  }

  /** A retry's capture of already mutated values never displaces the original. */
  lemma {:induction false} RetryNeverDisplacesOriginal(log: seq<BackupEntry>, batch: seq<BackupEntry>, l: Location)
    requires Covers(log, l)
    ensures Covers(PushAll(log, batch), l)
    ensures FirstOriginal(PushAll(log, batch), l) == FirstOriginal(log, l)
    decreases |batch|
  {
    if batch != [] {
      CoverageIsStable(log, batch[0], l);
      RetryNeverDisplacesOriginal(PushFirst(log, batch[0]), batch[1..], l);
    }
  }

  /** Only values of the present machine are recorded, so nothing recorded becomes wrong. */
  lemma PushFirstIsSound(original: Machine, m: Machine, log: seq<BackupEntry>, e: BackupEntry)
    requires SoundLog(original, m, log) && Accurate(e, m)
    ensures SoundLog(original, m, PushFirst(log, e))
  {
    if !IsKnown(log, e) {
      forall l
        ensures Covers(log + [e], l) ==> FirstOriginal(log + [e], l) == Get(original, l)
        ensures !Covers(log + [e], l) ==> Get(m, l) == Get(original, l)
      {
        PushKeepsFirstOriginal(log, e, l);
      }
    }
  }

  lemma {:induction false} PushAllIsSound(original: Machine, m: Machine, log: seq<BackupEntry>, batch: seq<BackupEntry>)
    requires SoundLog(original, m, log)
    requires forall e <- batch :: Accurate(e, m)
    ensures SoundLog(original, m, PushAll(log, batch))
    decreases |batch|
  {
    if batch != [] {
      PushFirstIsSound(original, m, log, batch[0]);
      PushAllIsSound(original, m, PushFirst(log, batch[0]), batch[1..]);
    }
  }

  lemma CoveredWritesAreSound(original: Machine, m: Machine, log: seq<BackupEntry>, values: map<Location, Original>)
    requires SoundLog(original, m, log)
    requires forall l <- values :: Covers(log, l)
    ensures SoundLog(original, Write(m, values), log)
  {
    forall l | !Covers(log, l) ensures Get(Write(m, values), l) == Get(original, l) {
      WriteReads(m, values, l);
    }
  }

  lemma {:induction false} ReplayReads(log: seq<BackupEntry>, m: Machine, l: Location)
    ensures Get(Replay(log, m), l) == if Covers(log, l) then FirstOriginal(log, l) else Get(m, l)
  {
    if log != [] {
      ReplayReads(log[1..], m, l);
      WriteReads(Replay(log[1..], m), Originals(log[0]), l);
      assert log == [log[0]] + log[1..];
    }
  }

  /** Replaying a sound log gives back the machine from before the first run, whole. */
  lemma ReplayRestores(original: Machine, m: Machine, log: seq<BackupEntry>)
    requires SoundLog(original, m, log)
    ensures Replay(log, m) == original
  {
    forall l ensures Get(Replay(log, m), l) == Get(original, l) {
      ReplayReads(log, m, l);
    }
    SameReads(Replay(log, m), original);
  }

  /** Two captures of one subject in one step, by kind, in any case of letters. */
  predicate SameSubject(a: BackupEntry, b: BackupEntry) {
    match (a, b)
    case (Registry(s, path, name, _), Registry(s', path', name', _)) =>
      SameText(s, s') && SameText(path, path') && SameText(name, name')
    case (Hags(s, _), Hags(s', _)) => SameText(s, s')
    case (Service(s, name, _), Service(s', name', _)) => SameText(s, s') && SameText(name, name')
    case (Powerplan(s, guid), Powerplan(s', guid')) => SameText(s, s') && SameText(guid, guid')
    case (Bootconfig(s, key, _), Bootconfig(s', key', _)) => SameText(s, s') && SameText(key, key')
    case (Scheduledtask(s, path, name, _), Scheduledtask(s', path', name', _)) =>
      SameText(s, s') && SameText(path, path') && SameText(name, name')
    case (NicAdapter(s, adapter, property, _), NicAdapter(s', adapter', property', _)) =>
      SameText(s, s') && SameText(adapter, adapter') && SameText(property, property')
    case (Dns(s, name, guid, _), Dns(s', name', guid', _)) =>
      SameText(s, s') && SameText(if guid.Some? then guid.value else name, if guid'.Some? then guid'.value else name')
    case (InterruptPolicy(s, device, valueName, _), InterruptPolicy(s', device', valueName', _)) =>
      SameText(s, s') && SameText(device, device') && SameText(valueName, valueName')
    case (NetworkStackTransaction(s, adapter, _), NetworkStackTransaction(s', adapter', _)) =>
      SameText(s, s') && SameText(adapter, adapter')
    case (PagefileTransaction(s, _), PagefileTransaction(s', _)) => SameText(s, s')
    case (Cs2ConfigTransaction(s, install, targets), Cs2ConfigTransaction(s', install', targets')) =>
      SameText(s, s') && SameText(install, install') && FileNames(targets) == FileNames(targets')
    case _ => false
  }

  predicate SameText(a: string, b: string) {
    Text.Lower(a) == Text.Lower(b)
  }

  /** A subject captured again in its step is not appended; the kinds without an identity always are. */
  lemma RepeatedSubjectIsDropped(log: seq<BackupEntry>, known: BackupEntry, e: BackupEntry)
    ensures known in log && SameSubject(known, e) ==> PushFirst(log, e) == log
    ensures e.QosUro? || e.Defender? || e.Pagefile? || e.Drs? || e.UnknownEntry? ==> PushFirst(log, e) == log + [e]
  {
    if SameSubject(known, e) {
      assert DedupeIdentity(known).Some? && DedupeIdentity(known) == DedupeIdentity(e);
    }
  }

  // ---------------------------------------------------------------------
  // When a batch is undone, exactly
  // ---------------------------------------------------------------------

  predicate SameIdentity(a: BackupEntry, b: BackupEntry) {
    DedupeIdentity(a).Some? && DedupeIdentity(a) == DedupeIdentity(b)
  }

  /** The identity of this entry of the batch is in the log, or earlier in the batch. */
  predicate Repeats(log: seq<BackupEntry>, batch: seq<BackupEntry>, i: nat)
    requires i < |batch|
  {
    exists known <- log + batch[..i] :: SameIdentity(batch[i], known)
  }

  /** Every place of a repeated entry is restored by the log or by an entry that is not repeated. */
  predicate NothingLost(log: seq<BackupEntry>, batch: seq<BackupEntry>) {
    forall i | 0 <= i < |batch| && Repeats(log, batch, i) ::
      forall l <- Originals(batch[i]) :: Covers(log, l) || KeptFor(log, batch, l)
  }

  predicate KeptFor(log: seq<BackupEntry>, batch: seq<BackupEntry>, l: Location) {
    exists j | 0 <= j < |batch| :: !Repeats(log, batch, j) && l in Originals(batch[j])
  }

  /** A log extended by a batch's head repeats the tail's entries as the whole batch does. */
  lemma RepeatsInTail(log: seq<BackupEntry>, batch: seq<BackupEntry>, i: nat)
    requires i + 1 < |batch|
    ensures Repeats(PushFirst(log, batch[0]), batch[1..], i) <==> Repeats(log, batch, i + 1)
  {
    var e, tail := batch[i + 1], batch[1..];
    assert tail[i] == e;
    assert batch[..i + 1] == [batch[0]] + tail[..i];
    forall known ensures known in log + batch[..i + 1] <==> known in log || known == batch[0] || known in tail[..i] {
    }
    forall known
      ensures known in PushFirst(log, batch[0]) + tail[..i] <==> known in PushFirst(log, batch[0]) || known in tail[..i] {
    }
  }

  lemma HeadRepeats(log: seq<BackupEntry>, batch: seq<BackupEntry>)
    requires batch != []
    ensures Repeats(log, batch, 0) <==> IsKnown(log, batch[0])
  {
    assert log + batch[..0] == log;
  }

  lemma KeptInTail(log: seq<BackupEntry>, batch: seq<BackupEntry>, l: Location)
    requires batch != []
    ensures KeptFor(log, batch, l) <==>
              (!IsKnown(log, batch[0]) && l in Originals(batch[0])) || KeptFor(PushFirst(log, batch[0]), batch[1..], l)
  {
    var next, tail := PushFirst(log, batch[0]), batch[1..];
    HeadRepeats(log, batch);
    if KeptFor(log, batch, l) {
      var j :| 0 <= j < |batch| && !Repeats(log, batch, j) && l in Originals(batch[j]);
      if j > 0 {
        RepeatsInTail(log, batch, j - 1);
        assert tail[j - 1] == batch[j];
      }
    }
    if KeptFor(next, tail, l) {
      var j :| 0 <= j < |tail| && !Repeats(next, tail, j) && l in Originals(tail[j]);
      RepeatsInTail(log, batch, j);
      assert batch[j + 1] == tail[j];
    }
  }

  /** The places restored after a batch are those of the log and of its entries that are not repeated. */
  lemma {:induction false} CoverageAfterBatch(log: seq<BackupEntry>, batch: seq<BackupEntry>, l: Location)
    ensures Covers(PushAll(log, batch), l) <==> Covers(log, l) || KeptFor(log, batch, l)
    decreases |batch|
  {
    if batch != [] {
      CoverageAfterBatch(PushFirst(log, batch[0]), batch[1..], l);
      KeptInTail(log, batch, l);
      CoverageGrows(log, batch[0], l);
    }
  }

  lemma NothingLostIsCoverage(log: seq<BackupEntry>, batch: seq<BackupEntry>)
    ensures NothingLost(log, batch) <==> forall l :: Covers(batch, l) ==> Covers(PushAll(log, batch), l)
  {
    forall l ensures Covers(PushAll(log, batch), l) <==> Covers(log, l) || KeptFor(log, batch, l) {
      CoverageAfterBatch(log, batch, l);
    }
    if NothingLost(log, batch) {
      forall l | Covers(batch, l) ensures Covers(PushAll(log, batch), l) {
        var e :| e in batch && l in Originals(e);
        var i :| 0 <= i < |batch| && batch[i] == e;
        if Repeats(log, batch, i) {
          assert Covers(log, l) || KeptFor(log, batch, l);
        }
      }
    }
    if forall l :: Covers(batch, l) ==> Covers(PushAll(log, batch), l) {
      forall i, l | 0 <= i < |batch| && Repeats(log, batch, i) && l in Originals(batch[i])
        ensures Covers(log, l) || KeptFor(log, batch, l)
      {
        assert batch[i] in batch && Covers(batch, l);
      }
    }
  }

  /** Whatever is written to the places of the batch after it is pushed, replaying the log undoes it. */
  ghost predicate UndoesWrites(original: Machine, m: Machine, log: seq<BackupEntry>, batch: seq<BackupEntry>) {
    forall writes: map<Location, Original> ::
      (forall l <- writes :: Covers(batch, l)) ==> Replay(PushAll(log, batch), Write(m, writes)) == original
  }

  /**
   * For any sound log and any accurate batch: writing to the batch's places is
   * undone, whatever is written, exactly when no repeated entry restores a place
   * that neither the log nor a kept entry restores.
   */
  lemma BatchIsUndoneExactly(original: Machine, m: Machine, log: seq<BackupEntry>, batch: seq<BackupEntry>)
    requires SoundLog(original, m, log)
    requires forall e <- batch :: Accurate(e, m)
    ensures UndoesWrites(original, m, log, batch) <==> NothingLost(log, batch)
  {
    var log' := PushAll(log, batch);
    PushAllIsSound(original, m, log, batch);
    NothingLostIsCoverage(log, batch);
    if NothingLost(log, batch) {
      forall writes: map<Location, Original> | forall l <- writes :: Covers(batch, l)
        ensures Replay(log', Write(m, writes)) == original
      {
        CoveredWritesAreSound(original, m, log', writes);
        ReplayRestores(original, Write(m, writes), log');
      }
    } else {
      var l :| Covers(batch, l) && !Covers(log', l);
      UncoveredWriteStays(original, m, log', l);
      var writes := map[l := OtherThan(Get(original, l))];
      assert forall x <- writes :: Covers(batch, x);
    }
  }

  function OtherThan(value: Original): (r: Original)
    ensures r != value
  {
    if value.None? then Some("") else None
  }

  lemma UncoveredWriteStays(original: Machine, m: Machine, log: seq<BackupEntry>, l: Location)
    requires !Covers(log, l)
    ensures Replay(log, Write(m, map[l := OtherThan(Get(original, l))])) != original
  {
    var written := Write(m, map[l := OtherThan(Get(original, l))]);
    ReplayReads(log, written, l);
    WriteReads(m, map[l := OtherThan(Get(original, l))], l);
  }

  /** The entries some program captures. */
  type Vocabulary = BackupEntry -> bool

  predicate Speaks(v: Vocabulary, log: seq<BackupEntry>) {
    forall e <- log :: v(e)
  }

  /** Within the vocabulary one identity always means the same places. */
  ghost predicate Unambiguous(v: Vocabulary) {
    forall a, b :: v(a) && v(b) && SameIdentity(a, b) ==> Originals(a).Keys == Originals(b).Keys
  }

  ghost predicate AlwaysUndone(v: Vocabulary) {
    forall original, m, log, batch | Speaks(v, log) && Speaks(v, batch) :: SoundAccurate(original, m, log, batch) ==>
      UndoesWrites(original, m, log, batch)
  }

  ghost predicate SoundAccurate(original: Machine, m: Machine, log: seq<BackupEntry>, batch: seq<BackupEntry>) {
    SoundLog(original, m, log) && forall e <- batch :: Accurate(e, m)
  }

  lemma {:induction false} PushAllSpeaks(v: Vocabulary, log: seq<BackupEntry>, batch: seq<BackupEntry>)
    requires Speaks(v, log) && Speaks(v, batch)
    ensures Speaks(v, PushAll(log, batch))
    decreases |batch|
  {
    if batch != [] {
      PushAllSpeaks(v, PushFirst(log, batch[0]), batch[1..]);
    }
  }

  lemma UnambiguousLosesNothing(v: Vocabulary, log: seq<BackupEntry>, batch: seq<BackupEntry>)
    requires Unambiguous(v) && Speaks(v, log) && Speaks(v, batch)
    ensures NothingLost(log, batch)
  {
    forall i, l | 0 <= i < |batch| && l in Originals(batch[i])
      ensures Covers(log, l) || KeptFor(log, batch, l)
    {
      FirstOfItsIdentity(v, log, batch, i, l);
    }
  }

  lemma {:induction false} FirstOfItsIdentity(v: Vocabulary, log: seq<BackupEntry>, batch: seq<BackupEntry>,
                                              i: nat, l: Location)
    requires Unambiguous(v) && Speaks(v, log) && Speaks(v, batch)
    requires i < |batch| && l in Originals(batch[i])
    ensures Covers(log, l) || KeptFor(log, batch, l)
  {
    if Repeats(log, batch, i) {
      var known :| known in log + batch[..i] && SameIdentity(batch[i], known);
      assert v(batch[i]);
      if known in log {
        assert v(known);
      } else {
        var j :| 0 <= j < i && batch[j] == known;
        assert v(batch[j]);
        FirstOfItsIdentity(v, log, batch, j, l);
      }
    }
  }

  /** The machine on which the entry records the current values, and nothing else exists. */
  lemma AccurateOnItsMachine(e: BackupEntry)
    ensures Accurate(e, Write(map[], Originals(e)))
  {
    forall l | l in Originals(e) ensures Originals(e)[l] == Get(Write(map[], Originals(e)), l) {
      WriteReads(map[], Originals(e), l);
    }
  }

  lemma OneEntryIsSound(a: BackupEntry, m: Machine)
    ensures SoundLog(Write(m, Originals(a)), m, [a])
  {
    forall l
      ensures Covers([a], l) ==> FirstOriginal([a], l) == Get(Write(m, Originals(a)), l)
      ensures !Covers([a], l) ==> Get(m, l) == Get(Write(m, Originals(a)), l)
    {
      assert a in [a];
      WriteReads(m, Originals(a), l);
    }
  }

  /** Two entries of one identity: the second is lost unless the first restores all its places. */
  lemma SecondIsLost(a: BackupEntry, b: BackupEntry)
    requires SameIdentity(b, a) && !(Originals(b).Keys <= Originals(a).Keys)
    ensures !NothingLost([a], [b])
  {
    var batch := [b];
    assert [a] + batch[..0] == [a] && a in [a] && batch[0] == b;
    assert Repeats([a], batch, 0);
    var l :| l in Originals(b) && l !in Originals(a);
    assert !Covers([a], l) && !KeptFor([a], batch, l);
  }

  lemma AmbiguousPairIsLost(v: Vocabulary, a: BackupEntry, b: BackupEntry)
    requires v(a) && v(b) && SameIdentity(b, a) && !(Originals(b).Keys <= Originals(a).Keys)
    ensures !AlwaysUndone(v)
  {
    var m := Write(map[], Originals(b));
    var original := Write(m, Originals(a));
    AccurateOnItsMachine(b);
    OneEntryIsSound(a, m);
    SecondIsLost(a, b);
    BatchIsUndoneExactly(original, m, [a], [b]);
    assert Speaks(v, [a]) && Speaks(v, [b]) && SoundAccurate(original, m, [a], [b]);
  }

  /**
   * A program's log undoes every batch on every machine exactly when, among the
   * entries the program captures, one identity always means the same places.
   */
  lemma UndoIsExactlyUnambiguity(v: Vocabulary)
    ensures AlwaysUndone(v) <==> Unambiguous(v)
  {
    if Unambiguous(v) {
      forall original, m, log, batch | Speaks(v, log) && Speaks(v, batch) && SoundAccurate(original, m, log, batch)
        ensures UndoesWrites(original, m, log, batch)
      {
        UnambiguousLosesNothing(v, log, batch);
        BatchIsUndoneExactly(original, m, log, batch);
      }
    } else {
      var a, b :| v(a) && v(b) && SameIdentity(a, b) && Originals(a).Keys != Originals(b).Keys;
      if Originals(b).Keys <= Originals(a).Keys {
        AmbiguousPairIsLost(v, b, a);
      } else {
        AmbiguousPairIsLost(v, a, b);
      }
    }
  }

  /**
   * One instance: two registry values of one step stay restorable exactly when
   * they are spelt differently (or are the same value).
   */
  lemma BothRegistryValuesCovered(step: string, p: string, n: string, path: string, name: string,
                                  a: Original, b: Original)
    requires Text.Lower(p) == p && Text.Lower(n) == n && Text.Lower(path) == path && Text.Lower(name) == name
    ensures var log := PushAll([], [Registry(step, p, n, a), Registry(step, path, name, b)]);
            (Covers(log, RegistryValue(p, n)) && Covers(log, RegistryValue(path, name)))
            <==> (p + ":" + n != path + ":" + name || (p, n) == (path, name))
  {
    var x, y := Registry(step, p, n, a), Registry(step, path, name, b);
    RegistryIdentityText(step, p, n, path, name, a);
    assert DedupeIdentity(Registry(step, path, name, a)) == DedupeIdentity(y);
    assert DedupeIdentity(x) == DedupeIdentity(Registry(step, p, n, a));
    var one := PushFirst([], x);
    assert one == [x];
    assert [x, y][1..] == [y] && [y][1..] == [];
    assert PushAll([], [x, y]) == PushAll(one, [y]) == PushAll(PushFirst(one, y), []) == PushFirst(one, y);
    var log := PushFirst(one, y);
    assert x in log && RegistryValue(p, n) in Originals(x);
    assert IsKnown(one, y) <==> DedupeIdentity(x) == DedupeIdentity(y);
    if !IsKnown(one, y) {
      assert y in log && RegistryValue(path, name) in Originals(y);
    }
  }

  /** The persisted recovery document. */
  class BackupFile {
    var entries: seq<BackupEntry>

    constructor (log: seq<BackupEntry>)
      ensures entries == log
    {
      entries := log;
    }

    /** Keeps the first value captured for an identity; unidentified entries always append. */
    method PushFirstValue(entry: BackupEntry)
      modifies this
      ensures entries == PushFirst(old(entries), entry)
    {
      var identity := DedupeIdentity(entry);
      var found := false;
      var i := 0;
      while i < |entries| && !found
        invariant 0 <= i <= |entries|
        invariant entries == old(entries)
        invariant found <==> exists known <- entries[..i] :: DedupeIdentity(known) == identity
        decreases |entries| - i, !found
      {
        assert entries[..i + 1] == entries[..i] + [entries[i]];
        found := DedupeIdentity(entries[i]) == identity;
        i := i + 1;
      }
      assert found ==> exists known <- entries :: DedupeIdentity(known) == identity;
      assert !found ==> entries[..i] == entries;
      if identity.None? || !found {
        entries := entries + [entry];
      }
    }

    /** One captured batch, pushed entry by entry. */
    method PushBatch(batch: seq<BackupEntry>)
      modifies this
      ensures entries == PushAll(old(entries), batch)
    {
      var i := 0;
      assert batch[0..] == batch;
      while i < |batch|
        invariant 0 <= i <= |batch|
        invariant PushAll(entries, batch[i..]) == PushAll(old(entries), batch)
      {
        assert batch[i..][1..] == batch[i + 1..];
        PushFirstValue(batch[i]);
        i := i + 1;
      }
    }

    /** Restores every entry, newest first. */
    method Restore(machine: Machine) returns (restored: Machine)
      ensures restored == Replay(entries, machine)
    {
      restored := machine;
      var i := |entries|;
      assert entries[i..] == [];
      while i > 0
        invariant 0 <= i <= |entries|
        invariant restored == Replay(entries[i..], machine)
      {
        i := i - 1;
        assert entries[i..][1..] == entries[i + 1..];
        restored := Write(restored, Originals(entries[i]));
      }
      assert entries[0..] == entries;
    }
  }
}
