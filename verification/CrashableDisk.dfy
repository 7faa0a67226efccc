/** The directory that holds the counter file, as a file system that can crash.

    A directory change becomes visible at once and durable later: a power loss
    brings back some directory snapshot taken since the last directory fsync,
    and snapshots persist whole and in order. A file that was not fsynced after
    its last change holds anything at all after a power loss. */
module CrashableDisk {
  import opened Wrappers

  type Inode = nat

  /** A complete record, or bytes that are none: empty, cut short, or foreign. */
  datatype Content = Record(value: nat) | Torn

  /** `synced`: the content has reached the platter. */
  datatype File = File(content: Content, synced: bool)

  /** What the two names, the counter file and its temporary, refer to. */
  datatype Directory = Directory(target: Option<Inode>, temp: Option<Inode>)

  /** `current` is the directory that processes see; `past` holds, oldest first,
      the earlier snapshots that a power loss could still bring back. */
  datatype Disk = Disk(files: seq<File>, past: seq<Directory>, current: Directory)

  function Snapshots(d: Disk): seq<Directory> {
    d.past + [d.current]
  }

  // ---------- System calls that succeed ----------

  /** open(temp, O_WRONLY | O_CREAT | O_TRUNC) */
  function OpenTemp(d: Disk): Disk {
    if d.current.temp.Some? && d.current.temp.value < |d.files| then
      d.(files := d.files[d.current.temp.value := File(Torn, false)])
    else
      Disk(d.files + [File(Torn, false)], Snapshots(d), d.current.(temp := Some(|d.files|)))
  }

  function WriteFile(d: Disk, i: Inode, content: Content): Disk {
    if i < |d.files| then d.(files := d.files[i := File(content, false)]) else d
  }

  function SyncFile(d: Disk, i: Inode): Disk {
    if i < |d.files| then d.(files := d.files[i := d.files[i].(synced := true)]) else d
  }

  /** replace(temp, target) */
  function ReplaceTarget(d: Disk): Disk {
    Disk(d.files, Snapshots(d), Directory(d.current.temp, None))
  }

  /** unlink(temp, missing_ok=True) */
  function UnlinkTemp(d: Disk): Disk {
    if d.current.temp.None? then d else Disk(d.files, Snapshots(d), d.current.(temp := None))
  }

  function SyncDirectory(d: Disk): Disk {
    d.(past := [])
  }

  /** A power loss: one of the snapshots is back, and files that were not
      fsynced have become anything. What is on the platter now is durable. */
  ghost predicate PowerLost(d: Disk, d': Disk) {
    && d'.past == []
    && d'.current in Snapshots(d)
    && |d'.files| == |d.files|
    && forall i | 0 <= i < |d.files| :: d'.files[i].synced && (d.files[i].synced ==> d'.files[i] == d.files[i])
  }

  // ---------- Reading ----------

  /** The value found through a directory; an absent file counts as zero, `None` is corruption. */
  function ValueIn(d: Disk, dir: Directory): Option<nat> {
    if dir.target.None? then Some(0)
    else if dir.target.value < |d.files| && d.files[dir.target.value].content.Record? then
      Some(d.files[dir.target.value].content.value)
    else None
  }

  function Stored(d: Disk): Option<nat> {
    ValueIn(d, d.current)
  }

  // ---------- Crash safety ----------

  /** The counter file as `dir` names it is absent, or complete on the platter,
      and is not the file that the temporary name refers to. */
  predicate SoundDirectory(d: Disk, dir: Directory) {
    && (dir.temp.Some? ==> dir.temp.value < |d.files|)
    && (dir.target.Some? ==>
      && dir.target.value < |d.files|
      && d.files[dir.target.value].synced
      && d.files[dir.target.value].content.Record?
      && dir.temp != dir.target)
  }

  /** Whatever a crash brings back, the counter file is sound; and the file that the
      next write will truncate is not the counter file of any snapshot. */
  predicate CrashSafe(d: Disk) {
    forall dir | dir in Snapshots(d) :: SoundDirectory(d, dir) && (dir.target.Some? ==> dir.target != d.current.temp)
  }

  function Level(d: Disk, dir: Directory): nat {
    ValueIn(d, dir).GetOr(0)
  }

  /** The counter as processes see it, and the least value a power loss can bring back. */
  function Now(d: Disk): nat {
    Level(d, d.current)
  }

  function Floor(d: Disk): nat {
    Level(d, Snapshots(d)[0])
  }

  predicate Ascending(d: Disk) {
    forall j, k | 0 <= j < k < |Snapshots(d)| :: Level(d, Snapshots(d)[j]) <= Level(d, Snapshots(d)[k])
  }

  /** A disk on which both hold: no crash can corrupt the counter, and older
      snapshots hold smaller values. */
  predicate Healthy(d: Disk) {
    CrashSafe(d) && Ascending(d)
  }

  lemma HealthyReads(d: Disk)
    requires CrashSafe(d)
    ensures Stored(d) == Some(Now(d))
  {
    assert d.current in Snapshots(d);
  }

  /** After a power loss the disk is healthy again and readable, and its value is between the
      floor and the value before. */
  lemma PowerLossKeepsHealth(d: Disk, d': Disk)
    requires Healthy(d) && PowerLost(d, d')
    ensures Healthy(d')
    ensures Stored(d') == Some(Now(d'))
    ensures Floor(d) <= Now(d') <= Now(d)
    ensures Floor(d') == Now(d')
  {
    var k :| 0 <= k < |Snapshots(d)| && Snapshots(d)[k] == d'.current;
    SnapshotSurvives(d, d', d'.current);
    assert Snapshots(d') == [d'.current];
    assert Level(d, Snapshots(d)[0]) <= Level(d, Snapshots(d)[k]) <= Level(d, Snapshots(d)[|d.past|]);
  }

  lemma SnapshotSurvives(d: Disk, d': Disk, dir: Directory)
    requires SoundDirectory(d, dir) && PowerLost(d, d')
    ensures SoundDirectory(d', dir)
    ensures ValueIn(d', dir) == ValueIn(d, dir) == Some(Level(d, dir))
  {
  }

  /** Every file that some snapshot names as the counter is a complete record on the platter. */
  predicate Durable(d: Disk) {
    forall dir | dir in Snapshots(d) :: dir.target.Some? ==>
      dir.target.value < |d.files| && d.files[dir.target.value].synced && d.files[dir.target.value].content.Record?
  }

  /** Nothing weaker will do: every power loss leaves a readable counter exactly on durable disks. */
  lemma ReadableAfterPowerLossExactly(d: Disk)
    ensures (forall d' | PowerLost(d, d') :: Stored(d').Some?) <==> Durable(d)
  {
    if Durable(d) {
      forall d' | PowerLost(d, d') ensures Stored(d').Some? {
      }
    } else {
      var dir :| dir in Snapshots(d) && dir.target.Some? &&
        !(&& dir.target.value < |d.files|
          && d.files[dir.target.value].synced
          && d.files[dir.target.value].content.Record?);
      var files := seq(|d.files|, i requires 0 <= i < |d.files| =>
        if d.files[i].synced then d.files[i] else File(Torn, true));
      var d' := Disk(files, [], dir);
      assert PowerLost(d, d') && Stored(d').None?;
    }
  }

  /** A value survives every power loss exactly when it is at most the floor. */
  lemma SurvivesExactly(d: Disk, v: nat)
    requires Healthy(d)
    ensures (forall d' | PowerLost(d, d') :: v <= Now(d')) <==> v <= Floor(d)
  {
    if v <= Floor(d) {
      forall d' | PowerLost(d, d') ensures v <= Now(d') {
        PowerLossKeepsHealth(d, d');
      }
    } else {
      var files := seq(|d.files|, i requires 0 <= i < |d.files| => d.files[i].(synced := true));
      var d' := Disk(files, [], Snapshots(d)[0]);
      assert Snapshots(d)[0] in Snapshots(d) && PowerLost(d, d');
      SnapshotSurvives(d, d', Snapshots(d)[0]);
    }
  }
}
