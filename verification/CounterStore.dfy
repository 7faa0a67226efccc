/** The persisted counter of `state/storage.py`: the steps of a locked read-increment-write,
    and what each of them keeps. */
module CounterStore {
  import opened CrashableDisk
  import opened Wrappers

  datatype StoreError = CorruptedState | OsError

  /** Where a handler stands inside `increment`, between two effects on the disk.
      `value` is the value to be written. */
  datatype Phase =
    | Entered
    | Loaded(value: nat)
    | TempOpen(value: nat, inode: Inode)
    | TempWritten(value: nat, inode: Inode)
    | TempSynced(value: nat, inode: Inode)
    | Replaced(value: nat)
    | Finished(value: nat, dirSynced: bool)
    | Cleanup
    | Failed(error: StoreError)

  /** One step of `increment`, successful or failing. A failing call may leave any
      effect it can have: a failing write any content, a failing fsync or unlink both outcomes. */
  ghost predicate IncrementStep(p: Phase, d: Disk, p': Phase, d': Disk) {
    match p
    case Entered =>
      && d' == d
      && (|| (d.current.target.Some? && p' == Failed(CorruptedState))
          || (Stored(d).Some? && p' == Loaded(Stored(d).value + 1)))
    case Loaded(v) =>
      || (d' == d && p' == Failed(OsError))
      || (d' == OpenTemp(d) && d'.current.temp.Some? && p' == TempOpen(v, d'.current.temp.value))
    case TempOpen(v, i) =>
      || (p' == TempWritten(v, i) && d' == WriteFile(d, i, Record(v)))
      || (p' == Cleanup && exists c: Content :: d' == WriteFile(d, i, c))
    case TempWritten(v, i) =>
      || (p' == TempSynced(v, i) && d' == SyncFile(d, i))
      || (p' == Cleanup && d' in {d, SyncFile(d, i)})
    case TempSynced(v, i) =>
      || (p' == Replaced(v) && d' == ReplaceTarget(d))
      || (p' == Cleanup && d' == d)
    case Replaced(v) =>
      || (p' == Finished(v, true) && d' == SyncDirectory(d))
      || (p' in {Finished(v, false), Failed(OsError)} && d' in {d, SyncDirectory(d)})
    case Cleanup => p' == Failed(OsError) && d' in {d, UnlinkTemp(d)}
    case Finished(_, _) => false
    case Failed(_) => false
  }

  /** What the disk looks like in each phase. */
  predicate PhaseHolds(p: Phase, d: Disk) {
    match p
    case Loaded(v) => v == Now(d) + 1
    case TempOpen(v, i) => v == Now(d) + 1 && d.current.temp == Some(i)
    case TempWritten(v, i) =>
      v == Now(d) + 1 && d.current.temp == Some(i) && i < |d.files| && d.files[i].content == Record(v)
    case TempSynced(v, i) =>
      v == Now(d) + 1 && d.current.temp == Some(i) && i < |d.files| && d.files[i] == File(Record(v), true)
    case Replaced(v) => v == Now(d)
    case Finished(v, dirSynced) => v == Now(d) && (dirSynced ==> Floor(d) == v)
    case _ => true
  }

  /** Every step keeps the disk crash safe, raises the counter only at the
      replacement and then by one, and never lowers what a power loss can bring back. */
  lemma StepKeepsHealth(p: Phase, d: Disk, p': Phase, d': Disk)
    requires Healthy(d) && PhaseHolds(p, d) && IncrementStep(p, d, p', d')
    ensures Healthy(d') && PhaseHolds(p', d')
    ensures Now(d') == if p'.Replaced? then Now(d) + 1 else Now(d)
    ensures Floor(d) <= Floor(d')
  {
    HealthyReads(d);
    match p
    case Entered =>
    case Loaded(v) =>
      if d' != d {
        OpenKeepsHealth(d);
      }
    case TempOpen(v, i) =>
      if p'.TempWritten? {
        WriteKeepsHealth(d, i, Record(v));
      } else {
        var c :| d' == WriteFile(d, i, c);
        WriteKeepsHealth(d, i, c);
      }
    case TempWritten(v, i) => SyncKeepsHealth(d, i);
    case TempSynced(v, i) =>
      if p'.Replaced? {
        ReplaceKeepsHealth(d, v, i);
      }
    case Replaced(v) => SyncDirectoryKeepsHealth(d);
    case Cleanup => UnlinkKeepsHealth(d);
  }

  /** Files that no snapshot names as the counter can change freely. */
  lemma TempChangeKeepsHealth(d: Disk, d': Disk)
    requires Healthy(d)
    requires d'.past == d.past && d'.current == d.current && |d'.files| == |d.files|
    requires forall i | 0 <= i < |d.files| && d.current.temp != Some(i) :: d'.files[i] == d.files[i]
    ensures Healthy(d') && Now(d') == Now(d) && Floor(d') == Floor(d)
  {
    assert Snapshots(d') == Snapshots(d);
    forall dir | dir in Snapshots(d) ensures SoundDirectory(d', dir) && Level(d', dir) == Level(d, dir) {
      assert SoundDirectory(d, dir);
    }
    assert Snapshots(d)[0] in Snapshots(d) && d.current in Snapshots(d);
  }

  lemma OpenKeepsHealth(d: Disk)
    requires Healthy(d)
    ensures var d' := OpenTemp(d);
            Healthy(d') && Now(d') == Now(d) && Floor(d') == Floor(d) && d'.current.temp.Some?
  {
    assert d.current in Snapshots(d);
    assert SoundDirectory(d, d.current);
    if d.current.temp.Some? {
      TempChangeKeepsHealth(d, OpenTemp(d));
    } else {
      AppendKeepsHealth(d, [File(Torn, false)], d.current.(temp := Some(|d.files|)));
    }
  }

  /** A new snapshot, over the same files or with new ones added, whose counter is
      sound, not smaller, and not named by the temporary. */
  lemma AppendKeepsHealth(d: Disk, added: seq<File>, dir: Directory)
    requires Healthy(d)
    requires var d' := Disk(d.files + added, Snapshots(d), dir);
             SoundDirectory(d', dir) && Level(d', dir) >= Now(d)
    requires dir.temp.None? || dir.temp == d.current.temp || dir.temp.value >= |d.files|
    ensures var d' := Disk(d.files + added, Snapshots(d), dir);
            Healthy(d') && Now(d') == Level(d', dir) && Floor(d') == Floor(d)
  {
    var d' := Disk(d.files + added, Snapshots(d), dir);
    assert forall i | 0 <= i < |d.files| :: d'.files[i] == d.files[i];
    forall s | s in Snapshots(d) ensures SoundDirectory(d', s) && Level(d', s) == Level(d, s) {
      assert SoundDirectory(d, s);
    }
    assert Snapshots(d') == Snapshots(d) + [dir];
    assert Snapshots(d)[|d.past|] == d.current;
    assert Snapshots(d)[0] in Snapshots(d);
    forall j | 0 <= j < |Snapshots(d)| ensures Level(d, Snapshots(d)[j]) <= Now(d) {
      assert j <= |d.past|;
    }
  }

  lemma WriteKeepsHealth(d: Disk, i: Inode, content: Content)
    requires Healthy(d) && d.current.temp == Some(i)
    ensures var d' := WriteFile(d, i, content);
            Healthy(d') && Now(d') == Now(d) && Floor(d') == Floor(d)
    ensures i < |d.files|
  {
    assert d.current in Snapshots(d);
    TempChangeKeepsHealth(d, WriteFile(d, i, content));
  }

  lemma SyncKeepsHealth(d: Disk, i: Inode)
    requires Healthy(d) && d.current.temp == Some(i)
    ensures var d' := SyncFile(d, i);
            Healthy(d') && Now(d') == Now(d) && Floor(d') == Floor(d)
  {
    assert d.current in Snapshots(d);
    TempChangeKeepsHealth(d, SyncFile(d, i));
  }

  lemma ReplaceKeepsHealth(d: Disk, v: nat, i: Inode)
    requires Healthy(d) && PhaseHolds(TempSynced(v, i), d)
    ensures var d' := ReplaceTarget(d);
            Healthy(d') && Now(d') == v && Floor(d') == Floor(d)
  {
    assert d.files + [] == d.files;
    AppendKeepsHealth(d, [], Directory(d.current.temp, None));
  }

  lemma UnlinkKeepsHealth(d: Disk)
    requires Healthy(d)
    ensures var d' := UnlinkTemp(d);
            Healthy(d') && Now(d') == Now(d) && Floor(d') == Floor(d)
  {
    if d.current.temp.Some? {
      assert d.files + [] == d.files;
      assert d.current in Snapshots(d);
      assert SoundDirectory(d, d.current);
      AppendKeepsHealth(d, [], d.current.(temp := None));
    }
  }

  lemma SyncDirectoryKeepsHealth(d: Disk)
    requires Healthy(d)
    ensures var d' := SyncDirectory(d);
            Healthy(d') && Now(d') == Now(d) && Floor(d) <= Floor(d') == Now(d)
  {
    var d' := SyncDirectory(d);
    assert Snapshots(d') == [d.current];
    assert SoundDirectory(d, Snapshots(d)[|d.past|]);
    assert Level(d', d.current) == Level(d, d.current);
  }

  /** Opening the temporary file empties it, even if a killed write has left a complete record behind: without a new
      record written into it, the rename would corrupt the counter. */
  lemma WriteIsNecessary(d: Disk)
    requires Healthy(d)
    ensures var temp := OpenTemp(d);
            temp.current.temp.Some? && Stored(ReplaceTarget(SyncFile(temp, temp.current.temp.value))) == None
  {
    assert d.current in Snapshots(d);
    assert SoundDirectory(d, d.current);
  }

  /** The fsync of the file cannot be left out: renamed without it, the new record can be lost in a power loss,
      and the counter is corrupt. */
  lemma FileFsyncIsNecessary(d: Disk, v: nat) returns (d': Disk)
    requires Healthy(d)
    ensures var tmp := OpenTemp(d);
            && tmp.current.temp.Some?
            && PowerLost(ReplaceTarget(WriteFile(tmp, tmp.current.temp.value, Record(v))), d')
            && Stored(d').None?
  {
    OpenKeepsHealth(d);
    var temp := OpenTemp(d);
    var i := temp.current.temp.value;
    assert temp.current in Snapshots(temp) && SoundDirectory(temp, temp.current);
    var renamed := ReplaceTarget(WriteFile(temp, i, Record(v)));
    var files := seq(|renamed.files|, k requires 0 <= k < |renamed.files| =>
      if renamed.files[k].synced then renamed.files[k] else File(Torn, true));
    d' := Disk(files, [], renamed.current);
    assert renamed.current in Snapshots(renamed);
    assert !renamed.files[i].synced;
  }

  /** The fsync of the directory cannot be left out either: without it a power loss can bring the old value back. */
  lemma DirectoryFsyncIsNecessary(d: Disk, v: nat, i: Inode) returns (d': Disk)
    requires Healthy(d) && PhaseHolds(TempSynced(v, i), d)
    ensures PowerLost(ReplaceTarget(d), d') && Now(d') < v
  {
    ReplaceKeepsHealth(d, v, i);
    var renamed := ReplaceTarget(d);
    var files := seq(|renamed.files|, k requires 0 <= k < |renamed.files| => renamed.files[k].(synced := true));
    d' := Disk(files, [], d.current);
    assert d.current in Snapshots(renamed);
    SnapshotSurvives(renamed, d', d.current);
    assert SoundDirectory(d, d.current);
  }

  /** The removal of the temporary file leaves no trace of it. */
  lemma RemovalLeavesNoTemp(d: Disk)
    requires Healthy(d)
    ensures UnlinkTemp(d).current == Directory(d.current.target, None) && Stored(UnlinkTemp(d)) == Stored(d)
  {
  }
}
