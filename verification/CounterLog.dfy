/** The history of one counter file: what happened under the lock, in lock order. */
module CounterLog {

  /** `Committed`: the rename took effect. `Returned`: `increment` returned to its handler;
      `dirSynced` tells whether the directory fsync had succeeded. `Observed`: a read
      returned. `PowerCut`: the machine came back with this value. */
  datatype Event =
    | Committed(id: nat, value: nat)
    | Returned(id: nat, value: nat, dirSynced: bool)
    | Observed(id: nat, value: nat)
    | PowerCut(value: nat)

  type Log = seq<Event>

  /** The counter after `log`, when it was `start` before. */
  function LevelAfter(start: nat, log: Log): nat {
    if log == [] then start
    else
      var e := log[|log| - 1];
      if e.Committed? || e.PowerCut? then e.value else LevelAfter(start, log[..|log| - 1])
  }

  predicate NoCommit(log: Log, id: nat) {
    forall e | e in log :: e.Committed? ==> e.id != id
  }

  /** What may come after `log`: a commit of a new request, one above the level; the return of the
      increment that has just committed; a read of the level; a power loss that brings back a
      value not above the level and not below any that was returned after a directory fsync. */
  predicate LegalEvent(start: nat, log: Log, e: Event) {
    match e
    case Committed(id, v) => v == LevelAfter(start, log) + 1 && NoCommit(log, id)
    case Returned(id, v, _) => log != [] && log[|log| - 1] == Committed(id, v)
    case Observed(_, v) => v == LevelAfter(start, log)
    case PowerCut(v) =>
      v <= LevelAfter(start, log) && forall f | f in log :: f.Returned? && f.dirSynced ==> f.value <= v
  }

  function Front(log: Log): Log
    requires log != []
  {
    log[..|log| - 1]
  }

  function Last(log: Log): Event
    requires log != []
  {
    log[|log| - 1]
  }

  predicate Legal(start: nat, log: Log) {
    log != [] ==> Legal(start, Front(log)) && LegalEvent(start, Front(log), Last(log))
  }

  lemma LegalAppend(start: nat, log: Log, e: Event)
    requires Legal(start, log) && LegalEvent(start, log, e)
    ensures Legal(start, log + [e])
    ensures LevelAfter(start, log + [e]) == if e.Committed? || e.PowerCut? then e.value else LevelAfter(start, log)
  {
    assert (log + [e])[..|log|] == log;
  }

  /** In a legal log every event is legal after the ones before it. */
  lemma {:induction false} LegalAt(start: nat, log: Log, k: nat)
    requires Legal(start, log) && k < |log|
    ensures Legal(start, log[..k]) && LegalEvent(start, log[..k], log[k])
  {
    if k < |log| - 1 {
      LegalAt(start, Front(log), k);
      assert Front(log)[..k] == log[..k];
    }
  }

  function Commits(log: Log): nat {
    if log == [] then 0 else Commits(Front(log)) + if Last(log).Committed? then 1 else 0
  }

  predicate NoPowerCut(log: Log) {
    forall e | e in log :: !e.PowerCut?
  }

  /** Without power losses the counter is the start plus the number of commits. */
  lemma {:induction false} LevelCountsCommits(start: nat, log: Log)
    requires Legal(start, log) && NoPowerCut(log)
    ensures LevelAfter(start, log) == start + Commits(log)
  {
    if log != [] {
      LevelCountsCommits(start, Front(log));
    }
  }

  /** Linearizability: without power losses every commit, return and read carries the start
      plus the number of commits up to its own place in the lock order. */
  lemma ValuesAreRanks(start: nat, log: Log, k: nat)
    requires Legal(start, log) && NoPowerCut(log) && k < |log|
    ensures log[k].value == start + Commits(log[..k + 1])
  {
    LegalAt(start, log, k);
    assert log[..k + 1] == log[..k] + [log[k]];
    LegalAppend(start, log[..k], log[k]);
    LevelCountsCommits(start, log[..k]);
    if log[k].Returned? {
      assert Last(log[..k]) == Committed(log[k].id, log[k].value);
    }
  }

  /** No power loss undid an increment that had been returned. */
  predicate KeepsReturned(log: Log) {
    forall j, k | 0 <= j < k < |log| :: log[j].Returned? && log[k].PowerCut? ==> log[j].value <= log[k].value
  }

  /** If every increment returned after a successful directory fsync, no power loss undoes one. */
  lemma SyncedReturnsAreKept(start: nat, log: Log)
    requires Legal(start, log)
    requires forall e | e in log :: e.Returned? ==> e.dirSynced
    ensures KeepsReturned(log)
  {
    forall j, k | 0 <= j < k < |log| && log[j].Returned? && log[k].PowerCut?
      ensures log[j].value <= log[k].value
    {
      LegalAt(start, log, k);
      assert log[j] in log[..k];
    }
  }

  /** Then the counter never falls below a returned value. */
  lemma {:induction false} ReturnedBelowLevel(start: nat, log: Log, j: nat)
    requires Legal(start, log) && j < |log| && log[j].Returned?
    requires forall k | j < k < |log| :: log[k].PowerCut? ==> log[j].value <= log[k].value
    ensures log[j].value <= LevelAfter(start, log)
  {
    if j < |log| - 1 {
      ReturnedBelowLevel(start, Front(log), j);
    } else {
      assert Last(Front(log)) == Committed(log[j].id, log[j].value);
    }
  }

  /** Returned values increase strictly, as long as no returned increment was undone. */
  lemma ReturnedValuesIncrease(start: nat, log: Log, j: nat, k: nat)
    requires Legal(start, log) && KeepsReturned(log)
    requires j < k < |log| && log[j].Returned? && log[k].Returned?
    ensures log[j].value < log[k].value
  {
    LegalAt(start, log, k);
    var c := k - 1;
    LegalAt(start, log, c);
    assert log[c] == Committed(log[k].id, log[k].value);
    ReturnedBelowLevel(start, log[..c], j);
  }

  /** A value returned after a successful directory fsync survives everything that follows. */
  lemma SyncedReturnSurvives(start: nat, log: Log, j: nat)
    requires Legal(start, log) && j < |log| && log[j].Returned? && log[j].dirSynced
    ensures log[j].value <= LevelAfter(start, log)
  {
    forall k | j < k < |log| && log[k].PowerCut? ensures log[j].value <= log[k].value {
      LegalAt(start, log, k);
      assert log[j] in log[..k];
    }
    ReturnedBelowLevel(start, log, j);
  }

  /** Between power losses the counter only grows. */
  lemma {:induction false} LevelGrows(start: nat, log: Log, n: nat)
    requires Legal(start, log) && n <= |log| && NoPowerCut(log[n..])
    ensures LevelAfter(start, log[..n]) <= LevelAfter(start, log)
  {
    if n == |log| {
      assert log[..n] == log;
    } else {
      assert Front(log)[..n] == log[..n] && Front(log[n..]) == Front(log)[n..];
      assert Last(log) == log[n..][|log| - 1 - n];
      LevelGrows(start, Front(log), n);
      if Last(log).Returned? {
        assert Last(Front(log)).Committed?;
      }
    }
  }

  /** An increment that commits and returns after the first `n` events, with no power loss in
      between, returns more than any value the counter has reached by then. */
  lemma LaterReturnIsLarger(start: nat, log: Log, n: nat, m: nat)
    requires Legal(start, log) && n < m < |log| && log[m].Returned? && NoPowerCut(log[n..])
    ensures LevelAfter(start, log[..n]) < log[m].value
  {
    LegalAt(start, log, m);
    LegalAt(start, log, m - 1);
    assert log[m - 1] == Last(log[..m]);
    var before := log[..m - 1];
    assert before[..n] == log[..n] && log[n..][..m - 1 - n] == before[n..];
    LevelGrows(start, before, n);
  }

  function Returns(log: Log): nat {
    if log == [] then 0 else Returns(Front(log)) + if Last(log).Returned? then 1 else 0
  }

  /** Every commit was followed by its return: no handler failed after the rename. */
  predicate CommitsReturn(log: Log) {
    forall k | 0 <= k < |log| && log[k].Committed? :: k + 1 < |log| ==> log[k + 1].Returned?
  }

  lemma {:induction false} ReturnsKeepPace(start: nat, log: Log)
    requires Legal(start, log) && CommitsReturn(log)
    ensures Commits(log) == Returns(log) + if log != [] && Last(log).Committed? then 1 else 0
  {
    if log != [] {
      var n := |log| - 1;
      assert CommitsReturn(Front(log)) by {
        assert forall k | 0 <= k < n :: Front(log)[k] == log[k];
      }
      ReturnsKeepPace(start, Front(log));
      if Last(log).Returned? {
        assert Last(Front(log)).Committed?;
      } else if n > 0 {
        assert Last(Front(log)) == log[n - 1];
      }
    }
  }

  /** Then n successful increments return start + 1, ..., start + n, in lock order. */
  lemma SuccessesCountUp(start: nat, log: Log, k: nat)
    requires Legal(start, log) && NoPowerCut(log) && CommitsReturn(log)
    requires k < |log| && log[k].Returned?
    ensures log[k].value == start + Returns(log[..k + 1])
  {
    ValuesAreRanks(start, log, k);
    LegalAt(start, log, k);
    LegalAppend(start, log[..k], log[k]);
    var prefix := log[..k + 1];
    assert prefix == log[..k] + [log[k]];
    assert CommitsReturn(prefix) by {
      assert forall m | 0 <= m < |prefix| :: prefix[m] == log[m];
    }
    ReturnsKeepPace(start, prefix);
  }

  /** The counter exceeds a returned value by at most the number of commits made since. */
  lemma {:induction false} LevelAboveReturned(start: nat, log: Log, j: nat)
    requires Legal(start, log) && j < |log| && log[j].Returned?
    ensures LevelAfter(start, log) <= log[j].value + Commits(log[j + 1..])
  {
    if j < |log| - 1 {
      LevelAboveReturned(start, Front(log), j);
      assert Front(log[j + 1..]) == Front(log)[j + 1..];
    } else {
      assert Last(Front(log)) == Committed(log[j].id, log[j].value);
    }
  }

  // ---------- Each request commits at most once ----------

  lemma CommitsOnce(start: nat, log: Log, j: nat, k: nat)
    requires Legal(start, log)
    requires j < k < |log| && log[j].Committed? && log[k].Committed?
    ensures log[j].id != log[k].id
  {
    LegalAt(start, log, k);
    assert log[j] in log[..k];
  }

  function CommitIds(log: Log): set<nat> {
    set e | e in log && e.Committed? :: e.id
  }

  /** So there are as many commits as requests that committed. */
  lemma {:induction false} CommitsAreRequests(start: nat, log: Log)
    requires Legal(start, log)
    ensures |CommitIds(log)| == Commits(log)
  {
    if log != [] {
      CommitsAreRequests(start, Front(log));
      IdsAfter(Front(log), Last(log));
      assert log == Front(log) + [Last(log)];
    }
  }

  lemma IdsAfter(log: Log, e: Event)
    ensures CommitIds(log + [e]) == CommitIds(log) + if e.Committed? then {e.id} else {}
    ensures e.Committed? && NoCommit(log, e.id) ==> e.id !in CommitIds(log)
  {
    assert forall f :: f in log + [e] <==> f in log || f == e;
  }
}
