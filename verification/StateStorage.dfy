/** `StateStore` of `state/storage.py`: the code between acquiring and releasing the
    lock, on a volume whose system calls can fail at any point. */
module StateStorage {
  import opened CounterStore
  import opened CrashableDisk
  import opened Sequences
  import opened Wrappers

  /** A phase of `increment` together with the disk as it is then. */
  datatype Moment = Moment(phase: Phase, disk: Disk)

  ghost predicate IsRun(run: seq<Moment>) {
    && run != []
    && forall k | 0 < k < |run| :: IncrementStep(run[k - 1].phase, run[k - 1].disk, run[k].phase, run[k].disk)
  }

  ghost function Last(run: seq<Moment>): Moment
    requires run != []
  {
    run[|run| - 1]
  }

  ghost predicate Replaces(run: seq<Moment>) {
    exists m | m in run :: m.phase.Replaced?
  }

  /** A run continued by one step. */
  ghost function Then(run: seq<Moment>, phase: Phase, disk: Disk): (longer: seq<Moment>)
    requires IsRun(run) && IncrementStep(Last(run).phase, Last(run).disk, phase, disk)
    ensures IsRun(longer) && longer[0] == run[0] && Last(longer) == Moment(phase, disk)
    ensures Replaces(longer) <==> Replaces(run) || phase.Replaced?
  {
    run + [Moment(phase, disk)]
  }

  /** Along every run the disk stays healthy after each system call, and the counter
      goes up by one when and only when the replacement is reached. */
  lemma {:induction false} RunOutcome(run: seq<Moment>)
    requires IsRun(run) && run[0].phase.Entered? && Healthy(run[0].disk)
    ensures forall m | m in run :: Healthy(m.disk) && PhaseHolds(m.phase, m.disk)
    ensures Now(Last(run).disk) == Now(run[0].disk) + if Replaces(run) then 1 else 0
    ensures Replaces(run) ==> Last(run).phase.Replaced? || Last(run).phase.Finished? || Last(run).phase.Failed?
    ensures Last(run).phase.Replaced? || Last(run).phase.Finished? ==> Replaces(run)
  {
    if |run| > 1 {
      var front := run[..|run| - 1];
      RunOutcome(front);
      assert Last(front) in front;
      RunStep(run);
      ReplacesFront(run);
    }
  }

  lemma RunStep(run: seq<Moment>)
    requires IsRun(run) && |run| > 1
    requires var m := run[|run| - 2]; Healthy(m.disk) && PhaseHolds(m.phase, m.disk)
    ensures var m, m' := run[|run| - 2], Last(run);
            && Healthy(m'.disk) && PhaseHolds(m'.phase, m'.disk)
            && Now(m'.disk) == (if m'.phase.Replaced? then Now(m.disk) + 1 else Now(m.disk))
            && !m.phase.Failed? && (m'.phase.Replaced? ==> m.phase.TempSynced?)
            && (m'.phase.Finished? ==> m.phase.Replaced?)
            && (m.phase.Replaced? || m.phase.Finished? ==> m'.phase.Finished? || m'.phase.Failed?)
  {
    var m, m' := run[|run| - 2], Last(run);
    StepKeepsHealth(m.phase, m.disk, m'.phase, m'.disk);
  }

  lemma ReplacesJoined(first: seq<Moment>, more: seq<Moment>)
    ensures Replaces(first + more) <==> Replaces(first) || Replaces(more)
  {
    assert forall m :: m in first + more <==> m in first || m in more;
  }

  lemma RunsJoined(first: seq<Moment>, more: seq<Moment>)
    requires IsRun(first) && IsRun(more)
    requires IncrementStep(Last(first).phase, Last(first).disk, more[0].phase, more[0].disk)
    ensures IsRun(first + more) && (first + more)[0] == first[0] && Last(first + more) == Last(more)
  {
    var run := first + more;
    forall k | 0 < k < |run|
      ensures IncrementStep(run[k - 1].phase, run[k - 1].disk, run[k].phase, run[k].disk)
    {
      assert k > |first| ==> run[k] == more[k - |first|] && run[k - 1] == more[k - |first| - 1];
    }
  }

  lemma ReplacesFront(run: seq<Moment>)
    requires run != []
    ensures Replaces(run) <==> Replaces(run[..|run| - 1]) || Last(run).phase.Replaced?
    ensures forall m | m in run :: m in run[..|run| - 1] || m == Last(run)
  {
    assert run == run[..|run| - 1] + [Last(run)];
  }

  // ---------- System calls ----------

  datatype Syscall =
    | ReadCall
    | OpenCall
    | WriteCall
    | FsyncCall
    | CloseCall
    | RenameCall
    | UnlinkCall
    | OpenDirCall
    | FsyncDirCall
    | CloseDirCall

  /** A system call and whether it succeeded. */
  datatype Call = Call(what: Syscall, ok: bool)

  function Done(what: Syscall): Call {
    Call(what, true)
  }

  function Failing(what: Syscall): Call {
    Call(what, false)
  }

  /** How the system answers the calls of one write: those on the temporary file once it is open, ... */
  datatype FileAnswers = FileAnswers(write: bool, fsync: bool, close: bool, rename: bool) {
    predicate Renamed() {
      write && fsync && close && rename
    }
  }

  /** ... those on the directory, ... */
  datatype DirectoryAnswers = DirectoryAnswers(open: bool, fsync: bool, close: bool) {
    predicate Synced() {
      open && fsync
    }

    predicate FailsToClose() {
      open && !close
    }
  }

  /** ... and all of them. */
  datatype Answers = Answers(open: bool, file: FileAnswers, unlink: bool, directory: DirectoryAnswers)

  /** The calls on the open temporary file: it is closed whatever happened to it, and renamed if nothing did. */
  function FileCalls(a: FileAnswers): seq<Call> {
    if !a.write then [Failing(WriteCall), Call(CloseCall, a.close)]
    else if !a.fsync then [Done(WriteCall), Failing(FsyncCall), Call(CloseCall, a.close)]
    else if !a.close then [Done(WriteCall), Done(FsyncCall), Failing(CloseCall)]
    else [Done(WriteCall), Done(FsyncCall), Done(CloseCall), Call(RenameCall, a.rename)]
  }

  function DirectoryCalls(a: DirectoryAnswers): seq<Call> {
    if !a.open then [Failing(OpenDirCall)]
    else [Done(OpenDirCall), Call(FsyncDirCall, a.fsync), Call(CloseDirCall, a.close)]
  }

  /** The calls that a write makes, as far as it gets: behind the rename the directory is fsynced, and
      behind a failure the temporary file is removed. */
  function WriteCalls(a: Answers): seq<Call> {
    if !a.open then [Failing(OpenCall)]
    else
      [Done(OpenCall)] + FileCalls(a.file)
      + if a.file.Renamed() then DirectoryCalls(a.directory) else [Call(UnlinkCall, a.unlink)]
  }

  /** The counter can be read: there is no file, or one that holds a record and does not fail to be read. */
  predicate Readable(d: Disk, readFails: bool) {
    Stored(d).Some? && (d.current.target.Some? ==> !readFails)
  }

  /** Reading makes a call only if the file exists. */
  function ReadCalls(present: bool, readFails: bool): seq<Call> {
    if present then [Call(ReadCall, !readFails)] else []
  }

  /** Failures that a write reports; those of the removal, and of opening and fsyncing the directory, it does not. */
  predicate Reported(c: Call) {
    !c.ok && c.what in {OpenCall, WriteCall, FsyncCall, CloseCall, RenameCall, CloseDirCall}
  }

  ghost predicate HasReported(calls: seq<Call>) {
    exists c | c in calls :: Reported(c)
  }

  predicate RenamedIn(calls: seq<Call>) {
    Done(RenameCall) in calls
  }

  predicate SyncedIn(calls: seq<Call>) {
    Done(FsyncDirCall) in calls
  }

  lemma FileRecord(a: FileAnswers)
    ensures HasReported(FileCalls(a)) <==> !a.Renamed()
    ensures RenamedIn(FileCalls(a)) <==> a.Renamed()
    ensures (forall c | c in FileCalls(a) :: c.ok) <==> a.Renamed()
    ensures forall c | c in FileCalls(a) :: c.what in {WriteCall, FsyncCall, CloseCall, RenameCall}
  {
    if !a.Renamed() {
      var c := Failing(if !a.write then WriteCall else if !a.fsync then FsyncCall
                       else if !a.close then CloseCall else RenameCall);
      assert c in FileCalls(a) && Reported(c);
    }
  }

  lemma DirectoryRecord(a: DirectoryAnswers)
    ensures HasReported(DirectoryCalls(a)) <==> a.FailsToClose()
    ensures Failing(CloseDirCall) in DirectoryCalls(a) <==> a.FailsToClose()
    ensures SyncedIn(DirectoryCalls(a)) <==> a.Synced()
    ensures (forall c | c in DirectoryCalls(a) :: c.ok) <==> a == DirectoryAnswers(true, true, true)
    ensures forall c | c in DirectoryCalls(a) :: c.what in {OpenDirCall, FsyncDirCall, CloseDirCall}
  {
    if a.FailsToClose() {
      assert Failing(CloseDirCall) in DirectoryCalls(a) && Reported(Failing(CloseDirCall));
    }
    assert !a.open ==> Failing(OpenDirCall) in DirectoryCalls(a);
    assert a.open ==>
             Call(FsyncDirCall, a.fsync) in DirectoryCalls(a) && Call(CloseDirCall, a.close) in DirectoryCalls(a);
  }

  lemma InBoth(a: seq<Call>, b: seq<Call>)
    ensures forall c :: c in a + b <==> c in a || c in b
  {
  }

  /** What the record of a write tells. An error comes with it exactly if there was no rename or the directory failed
      to be closed behind it; the directory is fsynced only behind the rename. */
  lemma WriteRecord(a: Answers)
    ensures var t := WriteCalls(a);
            && (HasReported(t) <==> !RenamedIn(t) || Failing(CloseDirCall) in t)
            && (RenamedIn(t) <==> a.open && a.file.Renamed())
            && (SyncedIn(t) <==> RenamedIn(t) && a.directory.Synced())
            && (Failing(CloseDirCall) in t <==> RenamedIn(t) && a.directory.FailsToClose())
  {
    if a.open {
      FileRecord(a.file);
      DirectoryRecord(a.directory);
      var tail := if a.file.Renamed() then DirectoryCalls(a.directory) else [Call(UnlinkCall, a.unlink)];
      InBoth([Done(OpenCall)], FileCalls(a.file));
      InBoth([Done(OpenCall)] + FileCalls(a.file), tail);
      ReportedInEither([Done(OpenCall)] + FileCalls(a.file), tail);
      ReportedInEither([Done(OpenCall)], FileCalls(a.file));
    } else {
      assert Failing(OpenCall) in WriteCalls(a) && Reported(Failing(OpenCall));
    }
  }

  lemma ReportedInEither(a: seq<Call>, b: seq<Call>)
    ensures HasReported(a + b) <==> HasReported(a) || HasReported(b)
  {
    InBoth(a, b);
    if c :| c in a && Reported(c) {
      assert c in a + b;
    }
    if c :| c in b && Reported(c) {
      assert c in a + b;
    }
  }

  /** The temporary file is removed exactly when it was opened and not renamed, and that is the last call. */
  lemma RemovedExactly(a: Answers)
    ensures var t := WriteCalls(a);
            && (Call(UnlinkCall, a.unlink) in t <==> Done(OpenCall) in t && !RenamedIn(t))
            && (Done(OpenCall) in t && !RenamedIn(t) ==> t[|t| - 1] == Call(UnlinkCall, a.unlink))
  {
    WriteRecord(a);
    if a.open {
      FileRecord(a.file);
      DirectoryRecord(a.directory);
      var tail := if a.file.Renamed() then DirectoryCalls(a.directory) else [Call(UnlinkCall, a.unlink)];
      InBoth([Done(OpenCall)], FileCalls(a.file));
      InBoth([Done(OpenCall)] + FileCalls(a.file), tail);
    }
  }

  const WHOLE_WRITE: seq<Call> :=
    [Done(OpenCall), Done(WriteCall), Done(FsyncCall), Done(CloseCall), Done(RenameCall),
     Done(OpenDirCall), Done(FsyncDirCall), Done(CloseDirCall)]

  predicate Succeed(calls: seq<Call>) {
    forall c | c in calls :: c.ok
  }

  lemma SucceedJoined(a: seq<Call>, b: seq<Call>)
    ensures Succeed(a + b) <==> Succeed(a) && Succeed(b)
  {
    InBoth(a, b);
  }

  lemma SucceedingAnswers(a: Answers)
    requires Succeed(WriteCalls(a))
    ensures a.open && a.file.Renamed() && a.directory == DirectoryAnswers(true, true, true)
  {
    assert !a.open ==> Failing(OpenCall) in WriteCalls(a);
    FileRecord(a.file);
    DirectoryRecord(a.directory);
    var tail := if a.file.Renamed() then DirectoryCalls(a.directory) else [Call(UnlinkCall, a.unlink)];
    SucceedJoined([Done(OpenCall)], FileCalls(a.file));
    SucceedJoined([Done(OpenCall)] + FileCalls(a.file), tail);
  }

  lemma WholeWrite(a: Answers)
    requires a.open && a.file.Renamed() && a.directory == DirectoryAnswers(true, true, true)
    ensures WriteCalls(a) == WHOLE_WRITE
  {
  }

  /** There is one record without failures: that of the whole write. */
  lemma CompleteRecord(a: Answers)
    ensures Succeed(WriteCalls(a)) <==> WriteCalls(a) == WHOLE_WRITE
  {
    if Succeed(WriteCalls(a)) {
      SucceedingAnswers(a);
      WholeWrite(a);
    }
  }

  // ---------- One increment ----------

  /** The file is read, if there is one, and then written, if it could be read. */
  function IncrementCalls(d: Disk, readFails: bool, a: Answers): seq<Call> {
    ReadCalls(d.current.target.Some?, readFails) + if Readable(d, readFails) then WriteCalls(a) else []
  }

  /** The next value, unless the counter could not be read or a call failed whose failure is reported. */
  ghost function IncrementResult(d: Disk, readFails: bool, a: Answers): Result<nat, StoreError> {
    if !Readable(d, readFails) then Err(CorruptedState)
    else if HasReported(WriteCalls(a)) then Err(OsError)
    else Ok(Stored(d).value + 1)
  }

  /** A run of the step machine from disk `d` that ends with the result `r`. */
  ghost predicate IncrementRun(d: Disk, run: seq<Moment>, r: Result<nat, StoreError>, readFails: bool, a: Answers) {
    && IsRun(run) && run[0] == Moment(Entered, d)
    && Last(run).phase == (if r.Ok? then Finished(r.value, SyncedIn(WriteCalls(a))) else Failed(r.error))
    && (Replaces(run) <==> Readable(d, readFails) && RenamedIn(WriteCalls(a)))
  }

  /** What an increment does to a healthy disk. */
  ghost predicate HealthyIncrement(d: Disk, run: seq<Moment>, d': Disk, r: Result<nat, StoreError>,
                                   readFails: bool, a: Answers) {
    // No system call leaves a disk that a crash could corrupt.
    && (forall m | m in run :: Healthy(m.disk))
    // The counter goes up by one exactly when the rename succeeded.
    && Now(d') == Now(d) + (if Readable(d, readFails) && RenamedIn(WriteCalls(a)) then 1 else 0)
    // The call fails although the counter went up exactly when closing the directory failed.
    && (r.Err? && Now(d') == Now(d) + 1 <==> Readable(d, readFails) && Failing(CloseDirCall) in WriteCalls(a))
    // A returned value is the stored one, and durable if the directory was fsynced.
    && (r.Ok? ==> r.value == Now(d) + 1 == Now(d') && (SyncedIn(WriteCalls(a)) ==> Floor(d') == r.value))
    // If no call failed, all calls were made, and the next value was returned and is durable.
    && (!readFails && Succeed(WriteCalls(a)) ==>
          WriteCalls(a) == WHOLE_WRITE && r == Ok(Now(d) + 1) && Floor(d') == Now(d') == Now(d) + 1)
  }

  lemma RunEnd(run: seq<Moment>)
    requires IsRun(run) && run[0].phase.Entered? && Healthy(run[0].disk)
    ensures forall m | m in run :: Healthy(m.disk)
    ensures var d, d', p := run[0].disk, Last(run).disk, Last(run).phase;
            && Now(d') == Now(d) + (if Replaces(run) then 1 else 0)
            && (p.Finished? ==> p.value == Now(d') && (p.dirSynced ==> Floor(d') == Now(d')))
  {
    RunOutcome(run);
    assert Last(run) in run;
  }

  lemma RunOnHealthyDisk(d: Disk, run: seq<Moment>, d': Disk, r: Result<nat, StoreError>, readFails: bool, a: Answers)
    requires Healthy(d) && r == IncrementResult(d, readFails, a)
    requires IncrementRun(d, run, r, readFails, a) && Last(run).disk == d'
    ensures HealthyIncrement(d, run, d', r, readFails, a)
  {
    RunEnd(run);
    HealthyReads(d);
    WriteRecord(a);
    if Succeed(WriteCalls(a)) {
      NothingReported(a);
    }
  }

  lemma NothingReported(a: Answers)
    requires Succeed(WriteCalls(a))
    ensures !HasReported(WriteCalls(a)) && SyncedIn(WriteCalls(a)) && RenamedIn(WriteCalls(a))
    ensures WriteCalls(a) == WHOLE_WRITE
  {
    CompleteRecord(a);
    WriteRecord(a);
    assert WHOLE_WRITE[6] == Done(FsyncDirCall) && WHOLE_WRITE[4] == Done(RenameCall);
  }

  /** The mounted data directory. Each method is a system call, which `calls` records; a call that fails
      may still have had its effect where the kernel promises nothing. */
  class Volume {
    var disk: Disk
    ghost var calls: seq<Call>

    constructor (d: Disk)
      ensures disk == d && calls == []
    {
      disk := d;
      calls := [];
    }

    method OpenTemp() returns (fd: Option<Inode>)
      modifies this
      ensures calls == old(calls) + [Call(OpenCall, fd.Some?)]
      ensures fd.None? ==> disk == old(disk)
      ensures fd.Some? ==> disk == CrashableDisk.OpenTemp(old(disk)) && disk.current.temp == fd
    {
      var fails: bool := *;
      calls := calls + [Call(OpenCall, !fails)];
      if fails {
        return None;
      }
      disk := CrashableDisk.OpenTemp(disk);
      fd := disk.current.temp;
    }

    method Write(fd: Inode, content: Content) returns (ok: bool, ghost written: Content)
      modifies this
      ensures calls == old(calls) + [Call(WriteCall, ok)]
      ensures disk == WriteFile(old(disk), fd, written)
      ensures ok ==> written == content
    {
      ok := *;
      calls := calls + [Call(WriteCall, ok)];
      var reached: Content := *;
      if ok {
        reached := content;
      }
      disk := WriteFile(disk, fd, reached);
      written := reached;
    }

    method Sync(fd: Inode) returns (ok: bool)
      modifies this
      ensures calls == old(calls) + [Call(FsyncCall, ok)]
      ensures disk == SyncFile(old(disk), fd) || (!ok && disk == old(disk))
    {
      ok := *;
      calls := calls + [Call(FsyncCall, ok)];
      var reached: bool := *;
      if ok || reached {
        disk := SyncFile(disk, fd);
      }
    }

    method Close() returns (ok: bool)
      modifies this`calls
      ensures calls == old(calls) + [Call(CloseCall, ok)]
    {
      ok := *;
      calls := calls + [Call(CloseCall, ok)];
    }

    method Replace() returns (ok: bool)
      modifies this
      ensures calls == old(calls) + [Call(RenameCall, ok)]
      ensures disk == if ok then ReplaceTarget(old(disk)) else old(disk)
    {
      ok := *;
      calls := calls + [Call(RenameCall, ok)];
      if ok {
        disk := ReplaceTarget(disk);
      }
    }

    method Unlink() returns (ok: bool)
      modifies this
      ensures calls == old(calls) + [Call(UnlinkCall, ok)]
      ensures disk == UnlinkTemp(old(disk)) || (!ok && disk == old(disk))
    {
      ok := *;
      calls := calls + [Call(UnlinkCall, ok)];
      var reached: bool := *;
      if ok || reached {
        disk := UnlinkTemp(disk);
      }
    }

    method OpenDirectory() returns (ok: bool)
      modifies this`calls
      ensures calls == old(calls) + [Call(OpenDirCall, ok)]
    {
      ok := *;
      calls := calls + [Call(OpenDirCall, ok)];
    }

    method SyncDirectory() returns (ok: bool)
      modifies this
      ensures calls == old(calls) + [Call(FsyncDirCall, ok)]
      ensures disk == CrashableDisk.SyncDirectory(old(disk)) || (!ok && disk == old(disk))
    {
      ok := *;
      calls := calls + [Call(FsyncDirCall, ok)];
      var reached: bool := *;
      if ok || reached {
        disk := CrashableDisk.SyncDirectory(disk);
      }
    }

    method CloseDirectory() returns (ok: bool)
      modifies this`calls
      ensures calls == old(calls) + [Call(CloseDirCall, ok)]
    {
      ok := *;
      calls := calls + [Call(CloseDirCall, ok)];
    }

    /** `None` is an OSError; only an existing file is read. */
    method ReadTarget() returns (content: Option<Content>)
      requires disk.current.target.Some?
      modifies this`calls
      ensures calls == old(calls) + [Call(ReadCall, content.Some?)]
      ensures content.Some? ==> Stored(disk) == if content.value.Record? then Some(content.value.value) else None
    {
      var fails: bool := *;
      calls := calls + [Call(ReadCall, !fails)];
      if fails {
        return None;
      }
      if disk.current.target.value >= |disk.files| {
        return Some(Torn);
      }
      return Some(disk.files[disk.current.target.value].content);
    }
  }

  class StateStore {
    const volume: Volume

    constructor (v: Volume)
      ensures volume == v
    {
      volume := v;
    }

    method Read() returns (r: Result<nat, StoreError>, ghost readFails: bool)
      modifies volume`calls
      ensures volume.calls == old(volume.calls) + ReadCalls(volume.disk.current.target.Some?, readFails)
      ensures volume.disk.current.target.None? ==> r == Ok(0)
      ensures r.Ok? ==> Stored(volume.disk) == Some(r.value)
      ensures r.Err? <==> volume.disk.current.target.Some? && (readFails || Stored(volume.disk).None?)
      ensures r.Err? ==> r.error == CorruptedState
    {
      r, readFails := ReadLocked();
    }

    /** `run` is the run of the step machine that was performed, `answers` how the system answered the
        calls of the write, if there was one. */
    method Increment()
      returns (r: Result<nat, StoreError>, ghost run: seq<Moment>, ghost readFails: bool, ghost answers: Answers)
      modifies volume
      ensures volume.calls == old(volume.calls) + IncrementCalls(old(volume.disk), readFails, answers)
      ensures r == IncrementResult(old(volume.disk), readFails, answers)
      ensures r == Err(CorruptedState) ==> volume.disk == old(volume.disk)
      ensures IncrementRun(old(volume.disk), run, r, readFails, answers) && Last(run).disk == volume.disk
      ensures Healthy(old(volume.disk)) ==> HealthyIncrement(old(volume.disk), run, volume.disk, r, readFails, answers)
    {
      ghost var earlier, start := volume.calls, volume.disk;
      run := [Moment(Entered, volume.disk)];
      answers := *;
      var current: Result<nat, StoreError>;
      current, readFails := ReadLocked();
      if current.Err? {
        run := Then(run, Failed(CorruptedState), volume.disk);
        r := Err(CorruptedState);
        assert volume.calls == earlier + (ReadCalls(start.current.target.Some?, readFails) + []);
      } else {
        var error: Option<StoreError>;
        ghost var writing: seq<Moment>;
        error, writing, answers := WriteLocked(current.value + 1);
        Associate(earlier, ReadCalls(start.current.target.Some?, readFails), WriteCalls(answers));
        ReplacesJoined(run, writing);
        RunsJoined(run, writing);
        run := run + writing;
        r := if error.None? then Ok(current.value + 1) else Err(OsError);
      }
      if Healthy(start) {
        RunOnHealthyDisk(start, run, volume.disk, r, readFails, answers);
      }
    }

    method ReadLocked() returns (r: Result<nat, StoreError>, ghost readFails: bool)
      modifies volume`calls
      ensures volume.calls == old(volume.calls) + ReadCalls(volume.disk.current.target.Some?, readFails)
      ensures volume.disk.current.target.None? ==> r == Ok(0)
      ensures r.Ok? ==> Stored(volume.disk) == Some(r.value)
      ensures r.Err? <==> volume.disk.current.target.Some? && (readFails || Stored(volume.disk).None?)
      ensures r.Err? ==> r.error == CorruptedState
    {
      readFails := false;
      if volume.disk.current.target.None? {
        return Ok(0), false;
      }
      var raw := volume.ReadTarget();
      readFails := raw.None?;
      if raw.None? || raw.value.Torn? {
        return Err(CorruptedState), readFails;
      }
      return Ok(raw.value.value), false;
    }

    /** An error comes out exactly when a call failed whose failure is reported. */
    method WriteLocked(value: nat) returns (error: Option<StoreError>, ghost run: seq<Moment>, ghost answers: Answers)
      modifies volume
      ensures volume.calls == old(volume.calls) + WriteCalls(answers)
      ensures error == if HasReported(WriteCalls(answers)) then Some(OsError) else None
      ensures IsRun(run) && run[0] == Moment(Loaded(value), old(volume.disk)) && Last(run).disk == volume.disk
      ensures Last(run).phase == if error.None? then Finished(value, SyncedIn(WriteCalls(answers))) else Failed(OsError)
      ensures Replaces(run) <==> RenamedIn(WriteCalls(answers))
    {
      ghost var earlier := volume.calls;
      run := [Moment(Loaded(value), volume.disk)];
      ghost var file: FileAnswers, directory: DirectoryAnswers := *, *;
      var fd := volume.OpenTemp();
      answers := Answers(fd.Some?, file, false, directory);
      WriteRecord(answers);
      if fd.None? {
        run := Then(run, Failed(OsError), volume.disk);
        return Some(OsError), run, answers;
      }
      run := Then(run, TempOpen(value, fd.value), volume.disk);
      var ok: bool;
      ok, run, file := WriteTemp(fd.value, value, run);
      Associate(earlier, [Done(OpenCall)], FileCalls(file));
      ghost var made := [Done(OpenCall)] + FileCalls(file);
      if ok {
        run := Then(run, Replaced(value), volume.disk);
        error, directory := FsyncDir();
        answers := Answers(true, file, false, directory);
        run := Then(run, if error.None? then Finished(value, directory.Synced()) else Failed(OsError), volume.disk);
        Associate(earlier, made, DirectoryCalls(directory));
      } else {
        var removed := volume.Unlink();
        answers := Answers(true, file, removed, directory);
        error := Some(OsError);
        run := Then(run, Failed(OsError), volume.disk);
        Associate(earlier, made, [Call(UnlinkCall, removed)]);
      }
      WriteRecord(answers);
    }

    /** The writing itself, from the open temporary file to the rename. */
    method WriteTemp(fd: Inode, value: nat, ghost before: seq<Moment>)
      returns (ok: bool, ghost run: seq<Moment>, ghost answers: FileAnswers)
      requires IsRun(before) && Last(before) == Moment(TempOpen(value, fd), volume.disk) && !Replaces(before)
      modifies volume
      ensures volume.calls == old(volume.calls) + FileCalls(answers)
      ensures ok <==> answers.Renamed()
      ensures IsRun(run) && run[0] == before[0] && !Replaces(run)
      ensures if ok then Last(run).phase == TempSynced(value, fd) && volume.disk == ReplaceTarget(Last(run).disk)
              else Last(run) == Moment(Cleanup, volume.disk)
    {
      ghost var earlier, start := volume.calls, volume.disk;
      run := before;
      ghost var written: Content;
      ghost var fsync, rename := false, false;
      ok, written := volume.Write(fd, Record(value));
      ghost var write, made := ok, [Call(WriteCall, ok)];
      assert volume.disk == WriteFile(start, fd, written);
      if ok {
        run := Then(run, TempWritten(value, fd), volume.disk);
        ok := volume.Sync(fd);
        fsync := ok;
        Associate(earlier, made, [Call(FsyncCall, ok)]);
        made := made + [Call(FsyncCall, ok)];
        if ok {
          run := Then(run, TempSynced(value, fd), volume.disk);
        }
      }
      var closed := volume.Close();
      Associate(earlier, made, [Call(CloseCall, closed)]);
      made := made + [Call(CloseCall, closed)];
      ok := ok && closed;
      if ok {
        ok := volume.Replace();
        rename := ok;
        Associate(earlier, made, [Call(RenameCall, ok)]);
        made := made + [Call(RenameCall, ok)];
      }
      if !ok {
        run := Then(run, Cleanup, volume.disk);
      }
      answers := FileAnswers(write, fsync, closed, rename);
      assert made == FileCalls(answers);
    }

    /** Errors of open and fsync are swallowed; only a failing close is raised. */
    method FsyncDir() returns (error: Option<StoreError>, ghost answers: DirectoryAnswers)
      modifies volume
      ensures volume.calls == old(volume.calls) + DirectoryCalls(answers)
      ensures error == if answers.FailsToClose() then Some(OsError) else None
      ensures volume.disk == SyncDirectory(old(volume.disk)) || (!answers.Synced() && volume.disk == old(volume.disk))
    {
      ghost var earlier := volume.calls;
      error := None;
      var fd := volume.OpenDirectory();
      answers := DirectoryAnswers(fd, false, false);
      if !fd {
        return;
      }
      var synced := volume.SyncDirectory();
      var closed := volume.CloseDirectory();
      answers := DirectoryAnswers(fd, synced, closed);
      ThreeCalls(earlier, answers);
      if !closed {
        error := Some(OsError);
      }
    }
  }

  lemma ThreeCalls(earlier: seq<Call>, a: DirectoryAnswers)
    requires a.open
    ensures earlier + [Done(OpenDirCall)] + [Call(FsyncDirCall, a.fsync)] + [Call(CloseDirCall, a.close)] ==
            earlier + DirectoryCalls(a)
  {
  }
}
