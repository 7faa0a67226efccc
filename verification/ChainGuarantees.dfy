/** What the chain promises over whole runs. */
module ChainGuarantees {
  import opened CounterChain
  import opened CounterLog
  import opened CrashableDisk
  import opened Wrappers

  /** State `k` of a run that starts with an absent or valid counter file. */
  lemma Reached(states: seq<System>, actions: seq<Action>, k: nat)
    requires Run(states, actions) && Initial(states[0]) && k < |states|
    ensures Invariant(Now(states[0].disk), states[k])
  {
    InitialInvariant(states[0]);
    RunKeepsInvariant(Now(states[0].disk), states, actions, k);
  }

  /** The disk found after the state service is killed or the machine loses power. */
  ghost predicate Recovered(d: Disk, d': Disk) {
    d' == d || PowerLost(d, d')
  }

  /** Crash safety: at no point of any run can a crash leave a counter file that a read rejects. */
  lemma NeverCorrupted(states: seq<System>, actions: seq<Action>, k: nat, d': Disk)
    requires Run(states, actions) && Initial(states[0]) && k < |states|
    requires Recovered(states[k].disk, d')
    ensures Stored(d').Some?
    ensures CrashSafe(states[k].disk)
  {
    Reached(states, actions, k);
    HealthyReads(states[k].disk);
    if d' != states[k].disk {
      PowerLossKeepsHealth(states[k].disk, d');
    }
  }

  /** Acknowledgement durability. An increment that returned is still counted after a kill,
      unless the power failed in between; if its directory fsync succeeded it is counted
      whatever happened; and the recovered value exceeds it by no more than the commits made since. */
  lemma ReturnedIsDurable(states: seq<System>, actions: seq<Action>, k: nat, j: nat, d': Disk)
    requires Run(states, actions) && Initial(states[0]) && k < |states|
    requires j < |states[k].log| && states[k].log[j].Returned?
    requires Recovered(states[k].disk, d')
    ensures var v := states[k].log[j].value; var later := states[k].log[j + 1..];
            && (NoPowerCut(later) && d' == states[k].disk ==> v <= Now(d'))
            && (states[k].log[j].dirSynced ==> v <= Now(d'))
            && Now(d') <= v + Commits(later)
  {
    var start, s := Now(states[0].disk), states[k];
    Reached(states, actions, k);
    assert EventHolds(s, s.log[j]);
    LevelAboveReturned(start, s.log, j);
    if d' != s.disk {
      PowerLossKeepsHealth(s.disk, d');
    } else {
      FloorBelowNow(s.disk);
      if NoPowerCut(s.log[j + 1..]) {
        forall m | j < m < |s.log| ensures !s.log[m].PowerCut? {
          assert s.log[j + 1..][m - j - 1] == s.log[m];
        }
        ReturnedBelowLevel(start, s.log, j);
      }
    }
  }

  lemma FloorBelowNow(d: Disk)
    requires Ascending(d)
    ensures Floor(d) <= Now(d)
  {
    assert Snapshots(d)[|d.past|] == d.current;
    assert |d.past| > 0 ==> Level(d, Snapshots(d)[0]) <= Level(d, Snapshots(d)[|d.past|]);
  }

  // ---------- End to end ----------

  /** The client of request `id` was answered 200. */
  predicate Succeeded(s: System, id: nat) {
    id < |s.requests| && s.requests[id].gateway.Replied? && s.requests[id].gateway.reply.Value?
  }

  predicate Acknowledged(s: System, id: nat) {
    Succeeded(s, id) && s.requests[id].kind == Post
  }

  function AnswerTo(s: System, id: nat): nat
    requires Succeeded(s, id)
  {
    s.requests[id].gateway.reply.value
  }

  function Posts(s: System): set<nat> {
    set id | 0 <= id < |s.requests| && s.requests[id].kind == Post
  }

  function AcknowledgedIds(s: System): set<nat> {
    set id | 0 <= id < |s.requests| && Acknowledged(s, id)
  }

  /** At most once: each request commits at most one increment, only POSTs do, and
      a 200 carries the value of the one commit made for that request. */
  lemma AtMostOnce(states: seq<System>, actions: seq<Action>, k: nat)
    requires Run(states, actions) && Initial(states[0]) && k < |states|
    ensures var log := states[k].log;
            && (forall i, j | 0 <= i < j < |log| && log[i].Committed? && log[j].Committed? :: log[i].id != log[j].id)
            && (forall e | e in log && e.Committed? :: e.id in Posts(states[k]))
            && (forall id | Acknowledged(states[k], id) :: Committed(id, AnswerTo(states[k], id)) in log)
  {
    var start, s := Now(states[0].disk), states[k];
    Reached(states, actions, k);
    forall i, j | 0 <= i < j < |s.log| && s.log[i].Committed? && s.log[j].Committed?
      ensures s.log[i].id != s.log[j].id
    {
      CommitsOnce(start, s.log, i, j);
    }
    forall e | e in s.log && e.Committed? ensures e.id in Posts(s) {
      assert EventHolds(s, e);
    }
    forall id | Acknowledged(s, id) ensures Committed(id, AnswerTo(s, id)) in s.log {
      var j := AcknowledgedReturned(start, s, id);
      assert EventHolds(s, s.log[j]);
    }
  }

  /** A 200 on a POST means that its increment returned that value. */
  lemma AcknowledgedReturned(start: nat, s: System, id: nat) returns (j: nat)
    requires Invariant(start, s) && Acknowledged(s, id)
    ensures j < |s.log| && s.log[j].Returned? && s.log[j].id == id && s.log[j].value == AnswerTo(s, id)
  {
    assert RequestHolds(s, id);
    var v := AnswerTo(s, id);
    assert s.requests[id].handler == Answered(Value(v));
    var synced: bool :| Returned(id, v, synced) in s.log;
    j :| 0 <= j < |s.log| && s.log[j] == Returned(id, v, synced);
  }

  /** A 200 on a GET carries a value that the counter had while that request was served. */
  lemma ReadsAreObserved(states: seq<System>, actions: seq<Action>, k: nat, id: nat)
    requires Run(states, actions) && Initial(states[0]) && k < |states|
    requires Succeeded(states[k], id) && states[k].requests[id].kind == Get
    ensures exists j | 0 <= j < |states[k].log| ::
              && states[k].log[j] == Observed(id, AnswerTo(states[k], id))
              && states[k].log[j].value == LevelAfter(Now(states[0].disk), states[k].log[..j])
  {
    var start, s := Now(states[0].disk), states[k];
    Reached(states, actions, k);
    assert RequestHolds(s, id);
    var j :| 0 <= j < |s.log| && s.log[j] == Observed(id, AnswerTo(s, id));
    LegalAt(start, s.log, j);
  }

  /** Without power losses the stored value is the initial value plus the number of commits,
      which lies between the number of 200s and the number of POSTs. */
  lemma CountingIsExact(states: seq<System>, actions: seq<Action>, k: nat)
    requires Run(states, actions) && Initial(states[0]) && k < |states|
    requires NoPowerCut(states[k].log)
    ensures Stored(states[k].disk) == Some(Now(states[0].disk) + Commits(states[k].log))
    ensures |AcknowledgedIds(states[k])| <= Commits(states[k].log) <= |Posts(states[k])|
  {
    var start, s := Now(states[0].disk), states[k];
    Reached(states, actions, k);
    HealthyReads(s.disk);
    LevelCountsCommits(start, s.log);
    CommitsBetween(start, s);
  }

  /** The bounds on the commits hold with power losses, too. */
  lemma CommitsBetween(start: nat, s: System)
    requires Invariant(start, s)
    ensures |AcknowledgedIds(s)| <= Commits(s.log) <= |Posts(s)|
  {
    CommitsAreRequests(start, s.log);
    forall id | id in AcknowledgedIds(s) ensures id in CommitIds(s.log) {
      var j := AcknowledgedReturned(start, s, id);
      assert EventHolds(s, s.log[j]);
      assert Committed(id, s.log[j].value) in s.log;
    }
    forall id | id in CommitIds(s.log) ensures id in Posts(s) {
      var e :| e in s.log && e.Committed? && e.id == id;
      assert EventHolds(s, e);
    }
    SubsetSize(AcknowledgedIds(s), CommitIds(s.log));
    SubsetSize(CommitIds(s.log), Posts(s));
  }

  lemma {:induction false} SubsetSize(a: set<nat>, b: set<nat>)
    requires a <= b
    ensures |a| <= |b|
  {
    if a != {} {
      var x :| x in a;
      SubsetSize(a - {x}, b - {x});
    }
  }

  /** Linearizability: without power losses every commit, return and read in the lock
      order carries the initial value plus the number of commits up to there. */
  lemma Linearizable(states: seq<System>, actions: seq<Action>, k: nat, j: nat)
    requires Run(states, actions) && Initial(states[0]) && k < |states|
    requires NoPowerCut(states[k].log) && j < |states[k].log|
    ensures states[k].log[j].value == Now(states[0].disk) + Commits(states[k].log[..j + 1])
  {
    Reached(states, actions, k);
    ValuesAreRanks(Now(states[0].disk), states[k].log, j);
  }

  /** No two POSTs are answered with the same value, as long as no power loss undoes an
      increment that had returned - in particular when every directory fsync succeeded. */
  lemma AnswersAreDistinct(states: seq<System>, actions: seq<Action>, k: nat, id: nat, id': nat)
    requires Run(states, actions) && Initial(states[0]) && k < |states|
    requires Acknowledged(states[k], id) && Acknowledged(states[k], id') && id != id'
    requires || KeepsReturned(states[k].log)
             || NoPowerCut(states[k].log)
             || forall e | e in states[k].log && e.Returned? :: e.dirSynced
    ensures AnswerTo(states[k], id) != AnswerTo(states[k], id')
  {
    var start, s := Now(states[0].disk), states[k];
    Reached(states, actions, k);
    if forall e | e in s.log && e.Returned? :: e.dirSynced {
      SyncedReturnsAreKept(start, s.log);
    }
    var j := AcknowledgedReturned(start, s, id);
    var j' := AcknowledgedReturned(start, s, id');
    if j < j' {
      ReturnedValuesIncrease(start, s.log, j, j');
    } else {
      ReturnedValuesIncrease(start, s.log, j', j);
    }
  }
}
