/** When two clients can be answered with the same value: `_fsync_dir` swallows a failing
    directory fsync, so a power loss can undo an increment that was acknowledged. */
module LostAcknowledgements {
  import opened ChainGuarantees
  import opened CounterChain
  import opened CounterLog
  import opened CrashableDisk
  import opened PossibleRuns
  import opened Wrappers

  /** Handlers that have committed and not returned committed after the first `n` events. */
  ghost predicate CommittedSince(n: nat, s: System) {
    || |s.log| > n
    || forall r | r in s.requests && r.handler.Running? :: !r.handler.phase.Replaced? && !r.handler.phase.Finished?
  }

  lemma IdleHasNotCommitted(start: nat, s: System)
    requires Invariant(start, s) && s.lock == None
    ensures CommittedSince(|s.log|, s)
  {
    forall r | r in s.requests ensures !r.handler.Running? {
      var id :| 0 <= id < |s.requests| && s.requests[id] == r;
      assert RequestHolds(s, id);
    }
  }

  /** A step other than a power loss appends to the log; the event with number `n` is not the
      return of an increment that had committed before. */
  lemma NextExtendsLog(n: nat, s: System, a: Action, s': System) returns (added: Log)
    requires Next(s, a, s') && a != LosePower
    requires |s.log| >= n && CommittedSince(n, s)
    ensures s'.log == s.log + added && NoPowerCut(added) && |added| <= 1
    ensures CommittedSince(n, s')
    ensures |s.log| == n && added != [] ==> !added[0].Returned?
  {
    added := [];
    if a.Arrive? || a.Kill? {
    } else {
      var r, r' := s.requests[a.id], s'.requests[a.id];
      assert r in s.requests;
      assert forall q | q in s'.requests :: q in s.requests || q == r';
      if a.Store? {
        added := CommitEvent(a.id, a.next);
        PhaseProgress(r.handler.phase, s.disk, a.next, s'.disk);
      } else if a.Look? && r'.handler.reply.Value? {
        added := [Observed(a.id, r'.handler.reply.value)];
      } else if a.Return? && r.handler.phase.Finished? {
        added := [Returned(a.id, r.handler.phase.value, r.handler.phase.dirSynced)];
      }
    }
    assert s.log + [] == s.log;
  }

  /** What can be said after any run without a power loss. */
  lemma {:induction false} RunExtendsLog(start: nat, states: seq<System>, actions: seq<Action>, k: nat)
    requires Run(states, actions) && LosePower !in actions && k < |states|
    requires Invariant(start, states[0]) && states[0].lock == None
    ensures var n := |states[0].log|; var log := states[k].log;
            && states[0].log <= log && NoPowerCut(log[n..])
            && CommittedSince(n, states[k])
            && (|log| > n ==> !log[n].Returned?)
  {
    var n := |states[0].log|;
    if k == 0 {
      IdleHasNotCommitted(start, states[0]);
    } else {
      RunExtendsLog(start, states, actions, k - 1);
      assert actions[k - 1] in actions;
      var added := NextExtendsLog(n, states[k - 1], actions[k - 1], states[k]);
      assert states[k].log[n..] == states[k - 1].log[n..] + added;
    }
  }

  // ---------- Duplicate answers ----------

  /** From every idle state there is a run, with one failing directory fsync and one power
      loss, in which two POSTs are answered 200 with the same value. */
  lemma TwoAnswersCanBeEqual(start: nat, s: System) returns (t: System, u: System, w: System)
    requires Invariant(start, s) && s.lock == None
    ensures Leads(s, t) && Next(t, LosePower, u) && Leads(u, w)
    ensures var id, id' := |s.requests|, |s.requests| + 1;
            Acknowledged(w, id) && Acknowledged(w, id') && AnswerTo(w, id) == AnswerTo(w, id') == Now(s.disk) + 1
  {
    t := PostSucceeds(start, s, false);
    var dir :| dir in t.disk.past && Level(t.disk, dir) == Now(s.disk);
    u := PowerFails(start, t, dir);
    w := PostSucceeds(start, u, true);
    assert w.requests[|s.requests|] == u.requests[|s.requests|] == t.requests[|s.requests|];
  }

  /** A power loss that brings the snapshot `dir` back. */
  lemma PowerFails(start: nat, t: System, dir: Directory) returns (u: System)
    requires Invariant(start, t) && dir in Snapshots(t.disk)
    ensures Next(t, LosePower, u) && Invariant(start, u) && t.log <= u.log
    ensures u.lock == None && u.requests == AllGone(t.requests) && Now(u.disk) == Level(t.disk, dir)
  {
    var files := seq(|t.disk.files|, i requires 0 <= i < |t.disk.files| => t.disk.files[i].(synced := true));
    var d := Disk(files, [], dir);
    assert PowerLost(t.disk, d);
    u := System(d, None, AllGone(t.requests), t.log + [PowerCut(Now(d))]);
    NextKeepsInvariant(start, t, LosePower, u);
    assert SoundDirectory(t.disk, dir);
    SnapshotSurvives(t.disk, d, dir);
  }

  /** No value that `increment` ever returned is above the counter. */
  predicate NothingLost(s: System) {
    forall e | e in s.log && e.Returned? :: e.value <= Now(s.disk)
  }

  /** An increment that returns in the run from `s` to `t` returns a value returned before `s`. */
  predicate Repeats(s: System, t: System) {
    exists j, m | 0 <= j < |s.log| <= m < |t.log| ::
      s.log[j].Returned? && t.log[m].Returned? && s.log[j].value == t.log[m].value
  }

  /** From an idle state, values are returned twice in some run without further power losses
      exactly when some value returned so far is above the counter. */
  lemma RepetitionExactly(start: nat, s: System)
    requires Invariant(start, s) && s.lock == None
    ensures (forall t | Leads(s, t) :: !Repeats(s, t)) <==> NothingLost(s)
  {
    if NothingLost(s) {
      forall t | Leads(s, t) ensures !Repeats(s, t) {
        NeverRepeats(start, s, t);
      }
    } else {
      var e :| e in s.log && e.Returned? && e.value > Now(s.disk);
      LeadsNowhere(s);
      var t := CountsUpTo(start, s, s, e.value);
      assert t.log[|t.log| - 1] == Last(t.log);
      assert Repeats(s, t);
    }
  }

  /** Before the power loss: no power loss can lead to a repetition exactly when every value returned
      so far is at most the floor, the least value that a power loss can bring back. */
  lemma PowerLossRepetitionExactly(start: nat, s: System)
    requires Invariant(start, s)
    ensures (forall u, t | Next(s, LosePower, u) && Leads(u, t) :: !Repeats(u, t)) <==>
            forall e | e in s.log && e.Returned? :: e.value <= Floor(s.disk)
  {
    if forall e | e in s.log && e.Returned? :: e.value <= Floor(s.disk) {
      forall u, t | Next(s, LosePower, u) && Leads(u, t) ensures !Repeats(u, t) {
        PowerLossKeepsHealth(s.disk, u.disk);
        NextKeepsInvariant(start, s, LosePower, u);
        NeverRepeats(start, u, t);
      }
    } else {
      var e :| e in s.log && e.Returned? && e.value > Floor(s.disk);
      var u := PowerFails(start, s, Snapshots(s.disk)[0]);
      assert e in u.log && !NothingLost(u);
      RepetitionExactly(start, u);
      var t :| Leads(u, t) && Repeats(u, t);
    }
  }

  lemma NeverRepeats(start: nat, s: System, t: System)
    requires Invariant(start, s) && s.lock == None && NothingLost(s) && Leads(s, t)
    ensures !Repeats(s, t)
  {
    var states: seq<System>, actions: seq<Action> :|
      Run(states, actions) && states[0] == s && states[|actions|] == t && LosePower !in actions;
    RunExtendsLog(start, states, actions, |actions|);
    LeadsKeepsInvariant(start, s, t);
    var n := |s.log|;
    assert t.log[..n] == s.log;
    forall j, m | 0 <= j < n <= m < |t.log| && s.log[j].Returned? && t.log[m].Returned?
      ensures s.log[j].value != t.log[m].value
    {
      assert s.log[j] in s.log && n != m;
      LaterReturnIsLarger(start, t.log, n, m);
    }
  }

  /** Successful increments raise the counter to any value above it. */
  lemma {:induction false} CountsUpTo(start: nat, s: System, t: System, v: nat) returns (u: System)
    requires Invariant(start, t) && t.lock == None && Leads(s, t) && s.log <= t.log
    requires Now(t.disk) < v
    ensures Leads(s, u) && s.log < u.log && Last(u.log).Returned? && Last(u.log).value == v
    decreases v - Now(t.disk)
  {
    var next := PostSucceeds(start, t, true);
    LeadsTransitive(s, t, next);
    if Now(next.disk) == v {
      u := next;
    } else {
      u := CountsUpTo(start, s, next, v);
    }
  }
}
