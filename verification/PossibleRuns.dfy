/** What runs of the chain there are: from every idle state a request can go through, and it can fail, be
    answered late, be forgotten or be killed at the places where the program lets it. */
module PossibleRuns {
  import opened CounterChain
  import opened CounterLog
  import opened CounterStore
  import opened CrashableDisk
  import opened Wrappers

  /** There is a run from `s` to `t` without a power loss. */
  ghost predicate Leads(s: System, t: System) {
    exists states: seq<System>, actions: seq<Action> ::
      Run(states, actions) && states[0] == s && states[|actions|] == t && LosePower !in actions
  }

  lemma LeadsOn(s: System, t: System, a: Action, u: System)
    requires Leads(s, t) && Next(t, a, u) && a != LosePower
    ensures Leads(s, u)
  {
    var states: seq<System>, actions: seq<Action> :|
      Run(states, actions) && states[0] == s && states[|actions|] == t && LosePower !in actions;
    var states', actions' := states + [u], actions + [a];
    forall k | 0 <= k < |actions'| ensures Next(states'[k], actions'[k], states'[k + 1]) {
      if k < |actions| {
        assert Next(states[k], actions[k], states[k + 1]);
      }
    }
    assert Run(states', actions');
  }

  lemma LeadsNowhere(s: System)
    ensures Leads(s, s)
  {
    assert Run([s], []);
  }

  lemma LeadsKeepsInvariant(start: nat, s: System, t: System)
    requires Invariant(start, s) && Leads(s, t)
    ensures Invariant(start, t)
  {
    var states: seq<System>, actions: seq<Action> :|
      Run(states, actions) && states[0] == s && states[|actions|] == t && LosePower !in actions;
    RunKeepsInvariant(start, states, actions, |actions|);
  }

  lemma LeadsTransitive(s: System, t: System, u: System)
    requires Leads(s, t) && Leads(t, u)
    ensures Leads(s, u)
  {
    var states: seq<System>, actions: seq<Action> :|
      Run(states, actions) && states[0] == t && states[|actions|] == u && LosePower !in actions;
    for k := 0 to |actions|
      invariant Leads(s, states[k])
    {
      LeadsOn(s, states[k], actions[k], states[k + 1]);
    }
  }

  // ---------- A successful POST ----------

  /** The gateway and the app, as one request sees them. */
  datatype Hops = Hops(gateway: Hop, app: Hop)

  const BOTH_CALLING := Hops(Calling, Calling)

  /** `s` with one more POST, whose handler holds the lock and is at `p`. */
  function Posting(s: System, hops: Hops, d: Disk, p: Phase, log: Log): System {
    Asking(s, Post, hops.gateway, hops.app, d, Running(p), Some(|s.requests|), log)
  }

  /** `s` with one more request, as both hops and the state service see it. */
  function Asking(s: System, kind: Kind, gateway: Hop, app: Hop,
                  d: Disk, h: Handler, lock: Option<nat>, log: Log): System {
    System(d, lock, s.requests + [Request(kind, gateway, app, h)], log)
  }

  lemma RequestArrives(s: System, kind: Kind)
    requires s.lock == None
    ensures Leads(s, Asking(s, kind, Calling, Calling, s.disk, Running(Entered), Some(|s.requests|), s.log))
  {
    var id := |s.requests|;
    var s1 := Asking(s, kind, Calling, Idle, s.disk, NotArrived, None, s.log);
    var s2 := Asking(s, kind, Calling, Calling, s.disk, NotArrived, None, s.log);
    var s3 := Asking(s, kind, Calling, Calling, s.disk, Waiting, None, s.log);
    var s4 := Asking(s, kind, Calling, Calling, s.disk, Running(Entered), Some(id), s.log);
    LeadsNowhere(s);
    LeadsOn(s, s, Arrive(kind), s1);
    assert s2.requests == s1.requests[id := s1.requests[id].(app := Calling)];
    LeadsOn(s, s1, ReachApp(id), s2);
    assert s3.requests == s2.requests[id := s2.requests[id].(handler := Waiting)];
    LeadsOn(s, s2, ReachState(id), s3);
    assert s4.requests == s3.requests[id := s3.requests[id].(handler := Running(Entered))];
    LeadsOn(s, s3, Acquire(id), s4);
  }

  /** Both hops hear of the answer. */
  lemma BothHear(s: System, kind: Kind, d: Disk, reply: Reply, log: Log) returns (t: System)
    requires Leads(s, Asking(s, kind, Calling, Calling, d, Answered(reply), None, log))
    ensures Leads(s, t)
    ensures var heard := Replied(Forward(reply)); t == Asking(s, kind, heard, heard, d, Answered(reply), None, log)
  {
    var id, heard := |s.requests|, Replied(Forward(reply));
    var s1 := Asking(s, kind, Calling, Calling, d, Answered(reply), None, log);
    var s2 := Asking(s, kind, Calling, heard, d, Answered(reply), None, log);
    assert s2.requests == s1.requests[id := s1.requests[id].(app := heard)];
    LeadsOn(s, s1, AppHears(id), s2);
    t := Asking(s, kind, heard, heard, d, Answered(reply), None, log);
    assert t.requests == s2.requests[id := s2.requests[id].(gateway := heard)];
    LeadsOn(s, s2, GatewayHears(id), t);
  }

  lemma PostStores(from: System, s: System, hops: Hops, d: Disk, p: Phase, log: Log, d': Disk, p': Phase)
    requires Leads(from, Posting(s, hops, d, p, log))
    requires IncrementStep(p, d, p', d')
    ensures Leads(from, Posting(s, hops, d', p', log + CommitEvent(|s.requests|, p')))
  {
    var id := |s.requests|;
    var t := Posting(s, hops, d, p, log);
    var u := Posting(s, hops, d', p', log + CommitEvent(id, p'));
    assert u.requests == t.requests[id := t.requests[id].(handler := Running(p'))];
    LeadsOn(from, t, Store(id, p'), u);
  }

  /** The handler returns `reply` and leaves `log` behind. */
  lemma PostReturns(from: System, s: System, hops: Hops, d: Disk, p: Phase, log: Log, reply: Reply, log': Log)
    requires Leads(from, Posting(s, hops, d, p, log))
    requires if p.Finished? then reply == Value(p.value) && log' == log + [Returned(|s.requests|, p.value, p.dirSynced)]
             else p.Failed? && reply == Error(500) && log' == log
    ensures Leads(from, Asking(s, Post, hops.gateway, hops.app, d, Answered(reply), None, log'))
  {
    var id := |s.requests|;
    var s0 := Posting(s, hops, d, p, log);
    var s1 := Asking(s, Post, hops.gateway, hops.app, d, Answered(reply), None, log');
    assert s1.requests == s0.requests[id := s0.requests[id].(handler := Answered(reply))];
    LeadsOn(from, s0, Return(id), s1);
  }

  lemma PostAnswers(s: System, d: Disk, p: Phase, log: Log, reply: Reply, log': Log) returns (t: System)
    requires Leads(s, Posting(s, BOTH_CALLING, d, p, log))
    requires if p.Finished? then reply == Value(p.value) && log' == log + [Returned(|s.requests|, p.value, p.dirSynced)]
             else p.Failed? && reply == Error(500) && log' == log
    ensures Leads(s, t)
    ensures var heard := Replied(Forward(reply)); t == Asking(s, Post, heard, heard, d, Answered(reply), None, log')
  {
    PostReturns(s, s, BOTH_CALLING, d, p, log, reply, log');
    t := BothHear(s, Post, d, reply, log');
  }

  /** The handler writes up to the commit: every call succeeds, and the value before can still come back. */
  lemma PostCommits(from: System, s: System, hops: Hops) returns (d: Disk)
    requires Healthy(s.disk)
    requires Leads(from, Posting(s, hops, s.disk, Entered, s.log))
    ensures var v := Now(s.disk) + 1;
            && Healthy(d) && PhaseHolds(Replaced(v), d)
            && Leads(from, Posting(s, hops, d, Replaced(v), s.log + [Committed(|s.requests|, v)]))
    ensures exists dir :: dir in d.past && Level(d, dir) == Now(s.disk)
  {
    var v := Now(s.disk) + 1;
    HealthyReads(s.disk);
    var d0 := s.disk;
    Continues(from, s, hops, d0, Entered, s.log, d0, Loaded(v));
    var d1 := OpenTemp(d0);
    OpenKeepsHealth(d0);
    var i := d1.current.temp.value;
    Continues(from, s, hops, d0, Loaded(v), s.log, d1, TempOpen(v, i));
    var d2 := WriteFile(d1, i, Record(v));
    Continues(from, s, hops, d1, TempOpen(v, i), s.log, d2, TempWritten(v, i));
    var d3 := SyncFile(d2, i);
    Continues(from, s, hops, d2, TempWritten(v, i), s.log, d3, TempSynced(v, i));
    d := ReplaceTarget(d3);
    Continues(from, s, hops, d3, TempSynced(v, i), s.log, d, Replaced(v));
    OldValueRemains(d3, v, i);
  }

  /** The whole write, in which every call succeeds, except the directory fsync when `synced` is false. */
  lemma PostWrites(from: System, s: System, hops: Hops, synced: bool) returns (d: Disk)
    requires Healthy(s.disk)
    requires Leads(from, Posting(s, hops, s.disk, Entered, s.log))
    ensures var v := Now(s.disk) + 1;
            && Now(d) == v
            && Leads(from, Posting(s, hops, d, Finished(v, synced), s.log + [Committed(|s.requests|, v)]))
    ensures !synced ==> exists dir :: dir in d.past && Level(d, dir) == Now(s.disk)
  {
    var v := Now(s.disk) + 1;
    var replaced := PostCommits(from, s, hops);
    d := if synced then SyncDirectory(replaced) else replaced;
    Continues(from, s, hops, replaced, Replaced(v), s.log + [Committed(|s.requests|, v)], d, Finished(v, synced));
  }

  /** From every idle state some POST succeeds and is answered, whether its directory fsync
      succeeds (`synced`) or fails; in the latter case the value before can still come back. */
  lemma PostSucceeds(start: nat, s: System, synced: bool) returns (t: System)
    requires Invariant(start, s) && s.lock == None
    ensures Leads(s, t) && Invariant(start, t) && t.lock == None
    ensures var id, v := |s.requests|, Now(s.disk) + 1;
            && Now(t.disk) == v
            && t.requests == s.requests + [Request(Post, Replied(Value(v)), Replied(Value(v)), Answered(Value(v)))]
            && t.log == s.log + [Committed(id, v), Returned(id, v, synced)]
    ensures !synced ==> exists dir :: dir in t.disk.past && Level(t.disk, dir) == Now(s.disk)
  {
    var id, v := |s.requests|, Now(s.disk) + 1;
    RequestArrives(s, Post);
    var d := PostWrites(s, s, BOTH_CALLING, synced);
    var log := s.log + [Committed(id, v)];
    t := PostAnswers(s, d, Finished(v, synced), log, Value(v), log + [Returned(id, v, synced)]);
    assert t.log == s.log + [Committed(id, v), Returned(id, v, synced)];
    LeadsKeepsInvariant(start, s, t);
  }

  /** From every idle state some POST is answered with an error although its increment has been committed:
      closing the directory fails after the rename. */
  lemma CommitCanFail(start: nat, s: System) returns (t: System)
    requires Invariant(start, s) && s.lock == None
    ensures Leads(s, t) && Invariant(start, t) && t.lock == None
    ensures var id, v := |s.requests|, Now(s.disk) + 1;
            && Now(t.disk) == v
            && t.requests ==
               s.requests + [Request(Post, Replied(Error(503)), Replied(Error(503)), Answered(Error(500)))]
            && t.log == s.log + [Committed(id, v)]
  {
    var id, v := |s.requests|, Now(s.disk) + 1;
    var log := s.log + [Committed(id, v)];
    RequestArrives(s, Post);
    var d := PostCommits(s, s, BOTH_CALLING);
    Continues(s, s, BOTH_CALLING, d, Replaced(v), log, d, Failed(OsError));
    t := PostAnswers(s, d, Failed(OsError), log, Error(500), log);
    LeadsKeepsInvariant(start, s, t);
  }

  /** From every idle state some GET is answered with the stored value, and leaves the counter as it is. */
  lemma GetSucceeds(start: nat, s: System) returns (t: System)
    requires Invariant(start, s) && s.lock == None
    ensures Leads(s, t) && Invariant(start, t)
    ensures var v := Now(s.disk);
            && Stored(s.disk) == Some(v)
            && t == Asking(s, Get, Replied(Value(v)), Replied(Value(v)), s.disk, Answered(Value(v)), None,
                           s.log + [Observed(|s.requests|, v)])
  {
    var id, v := |s.requests|, Now(s.disk);
    HealthyReads(s.disk);
    RequestArrives(s, Get);
    var s0 := Asking(s, Get, Calling, Calling, s.disk, Running(Entered), Some(id), s.log);
    var s1 := Asking(s, Get, Calling, Calling, s.disk, Answered(Value(v)), None, s.log + [Observed(id, v)]);
    assert s1.requests == s0.requests[id := s0.requests[id].(handler := Answered(Value(v)))];
    LeadsOn(s, s0, Look(id), s1);
    t := BothHear(s, Get, s.disk, Value(v), s.log + [Observed(id, v)]);
    LeadsKeepsInvariant(start, s, t);
  }

  /** If there is a file, a GET can also be answered with an error: reading it fails. */
  lemma GetCanFail(start: nat, s: System) returns (t: System)
    requires Invariant(start, s) && s.lock == None && s.disk.current.target.Some?
    ensures Leads(s, t)
    ensures t == Asking(s, Get, Replied(Error(503)), Replied(Error(503)), s.disk, Answered(Error(500)), None, s.log)
  {
    var id := |s.requests|;
    RequestArrives(s, Get);
    var s0 := Asking(s, Get, Calling, Calling, s.disk, Running(Entered), Some(id), s.log);
    var s1 := Asking(s, Get, Calling, Calling, s.disk, Answered(Error(500)), None, s.log);
    assert s1.requests == s0.requests[id := s0.requests[id].(handler := Answered(Error(500)))];
    LeadsOn(s, s0, Look(id), s1);
    t := BothHear(s, Get, s.disk, Error(500), s.log);
  }

  lemma AppGivesUpFirst(s: System, kind: Kind, d: Disk, reply: Reply, log: Log) returns (t: System)
    requires Leads(s, Asking(s, kind, Calling, Calling, d, Answered(reply), None, log))
    ensures Leads(s, t)
    ensures t == Asking(s, kind, Replied(Error(503)), Replied(Error(503)), d, Answered(reply), None, log)
  {
    var id := |s.requests|;
    var s1 := Asking(s, kind, Calling, Calling, d, Answered(reply), None, log);
    var s2 := Asking(s, kind, Calling, Replied(Error(503)), d, Answered(reply), None, log);
    assert s2.requests == s1.requests[id := s1.requests[id].(app := Replied(Error(503)))];
    LeadsOn(s, s1, AppGivesUp(id), s2);
    t := Asking(s, kind, Replied(Error(503)), Replied(Error(503)), d, Answered(reply), None, log);
    assert t.requests == s2.requests[id := s2.requests[id].(gateway := Replied(Error(503)))];
    LeadsOn(s, s2, GatewayHears(id), t);
  }

  lemma GatewayGivesUpFirst(s: System, kind: Kind, d: Disk, reply: Reply, log: Log) returns (t: System)
    requires Leads(s, Asking(s, kind, Calling, Calling, d, Answered(reply), None, log))
    ensures Leads(s, t)
    ensures t == Asking(s, kind, Replied(Error(503)), Replied(Forward(reply)), d, Answered(reply), None, log)
  {
    var id := |s.requests|;
    var s1 := Asking(s, kind, Calling, Calling, d, Answered(reply), None, log);
    var s2 := Asking(s, kind, Replied(Error(503)), Calling, d, Answered(reply), None, log);
    assert s2.requests == s1.requests[id := s1.requests[id].(gateway := Replied(Error(503)))];
    LeadsOn(s, s1, GatewayGivesUp(id), s2);
    t := Asking(s, kind, Replied(Error(503)), Replied(Forward(reply)), d, Answered(reply), None, log);
    assert t.requests == s2.requests[id := s2.requests[id].(app := Replied(Forward(reply)))];
    LeadsOn(s, s2, AppHears(id), t);
  }

  /** From every idle state some POST returns its value, and its client is told 503, because one of the two hops
      gave up waiting; the increment stays. */
  lemma AnswerCanBeLost(start: nat, s: System, appGivesUp: bool) returns (t: System)
    requires Invariant(start, s) && s.lock == None
    ensures Leads(s, t) && Invariant(start, t)
    ensures var id, v := |s.requests|, Now(s.disk) + 1;
            && Now(t.disk) == v
            && t == Asking(s, Post, Replied(Error(503)), Replied(if appGivesUp then Error(503) else Value(v)), t.disk,
                           Answered(Value(v)), None, s.log + [Committed(id, v), Returned(id, v, true)])
  {
    var id, v := |s.requests|, Now(s.disk) + 1;
    var log := s.log + [Committed(id, v)];
    var log' := s.log + [Committed(id, v), Returned(id, v, true)];
    RequestArrives(s, Post);
    var d := PostWrites(s, s, BOTH_CALLING, true);
    assert log + [Returned(id, v, true)] == log';
    PostReturns(s, s, BOTH_CALLING, d, Finished(v, true), log, Value(v), log');
    if appGivesUp {
      t := AppGivesUpFirst(s, Post, d, Value(v), log');
    } else {
      t := GatewayGivesUpFirst(s, Post, d, Value(v), log');
    }
    LeadsKeepsInvariant(start, s, t);
  }

  /** From every idle state some POST is counted although nobody waits for it any more: its client was told 503
      before the request reached the app, and the app gave up before it reached the state service. */
  lemma LateRequestCounts(start: nat, s: System) returns (u: System, w: System, t: System)
    requires Invariant(start, s) && s.lock == None
    ensures u == Asking(s, Post, Replied(Error(503)), Idle, s.disk, NotArrived, None, s.log)
    ensures w == Asking(s, Post, Replied(Error(503)), Replied(Error(503)), s.disk, NotArrived, None, s.log)
    ensures Leads(s, u) && Leads(u, w) && Leads(w, t) && Invariant(start, t)
    ensures var id, v := |s.requests|, Now(s.disk) + 1;
            && Now(t.disk) == v
            && t == Asking(s, Post, Replied(Error(503)), Replied(Error(503)), t.disk, Answered(Value(v)), None,
                           s.log + [Committed(id, v), Returned(id, v, true)])
  {
    var id, v := |s.requests|, Now(s.disk) + 1;
    var gone := Hops(Replied(Error(503)), Replied(Error(503)));
    u := ClientIsTold(s);
    w := AppIsLate(s, u);
    LateRequestArrives(s, w);
    var d := PostWrites(w, s, gone, true);
    var log := s.log + [Committed(id, v), Returned(id, v, true)];
    assert s.log + [Committed(id, v)] + [Returned(id, v, true)] == log;
    PostReturns(w, s, gone, d, Finished(v, true), s.log + [Committed(id, v)], Value(v), log);
    t := Asking(s, Post, gone.gateway, gone.app, d, Answered(Value(v)), None, log);
    LeadsTransitive(s, u, w);
    LeadsTransitive(s, w, t);
    LeadsKeepsInvariant(start, s, t);
  }

  /** A POST arrives, and the gateway gives up. */
  lemma ClientIsTold(s: System) returns (u: System)
    ensures u == Asking(s, Post, Replied(Error(503)), Idle, s.disk, NotArrived, s.lock, s.log) && Leads(s, u)
  {
    var id := |s.requests|;
    var s1 := Asking(s, Post, Calling, Idle, s.disk, NotArrived, s.lock, s.log);
    u := Asking(s, Post, Replied(Error(503)), Idle, s.disk, NotArrived, s.lock, s.log);
    LeadsNowhere(s);
    LeadsOn(s, s, Arrive(Post), s1);
    assert u.requests == s1.requests[id := s1.requests[id].(gateway := Replied(Error(503)))];
    LeadsOn(s, s1, GatewayGivesUp(id), u);
  }

  /** The request whose client has been told 503 reaches the app, which gives up too. */
  lemma AppIsLate(s: System, u: System) returns (w: System)
    requires u == Asking(s, Post, Replied(Error(503)), Idle, s.disk, NotArrived, None, s.log)
    ensures w == Asking(s, Post, Replied(Error(503)), Replied(Error(503)), s.disk, NotArrived, None, s.log)
    ensures Leads(u, w)
  {
    var id, told := |s.requests|, Replied(Error(503));
    var u' := Asking(s, Post, told, Calling, s.disk, NotArrived, None, s.log);
    w := Asking(s, Post, told, told, s.disk, NotArrived, None, s.log);
    LeadsNowhere(u);
    assert u'.requests == u.requests[id := u.requests[id].(app := Calling)];
    LeadsOn(u, u, ReachApp(id), u');
    assert w.requests == u'.requests[id := u'.requests[id].(app := told)];
    LeadsOn(u, u', AppGivesUp(id), w);
  }

  /** The request that nobody waits for goes on to the lock. */
  lemma LateRequestArrives(s: System, w: System)
    requires w == Asking(s, Post, Replied(Error(503)), Replied(Error(503)), s.disk, NotArrived, None, s.log)
    ensures Leads(w, Posting(s, Hops(Replied(Error(503)), Replied(Error(503))), s.disk, Entered, s.log))
  {
    var id, told := |s.requests|, Replied(Error(503));
    var s3 := Asking(s, Post, told, told, s.disk, Waiting, None, s.log);
    var s4 := Asking(s, Post, told, told, s.disk, Running(Entered), Some(id), s.log);
    LeadsNowhere(w);
    assert s3.requests == w.requests[id := w.requests[id].(handler := Waiting)];
    LeadsOn(w, w, ReachState(id), s3);
    assert s4.requests == s3.requests[id := s3.requests[id].(handler := Running(Entered))];
    LeadsOn(w, s3, Acquire(id), s4);
  }

  /** From every idle state some POST is counted although its handler is killed before it can answer; all handlers
      that waited for the lock are gone with it, and the lock is free. */
  lemma KillAfterCommit(start: nat, s: System) returns (t: System)
    requires Invariant(start, s) && s.lock == None
    ensures Leads(s, t) && Invariant(start, t)
    ensures var id, v := |s.requests|, Now(s.disk) + 1;
            && Now(t.disk) == v && t.lock == None && t.log == s.log + [Committed(id, v)]
            && |t.requests| == id + 1 && t.requests[id] == Request(Post, Calling, Calling, Killed)
            && (forall k | 0 <= k < id ::
                  t.requests[k] == if s.requests[k].handler.Waiting? then s.requests[k].(handler := Killed)
                                   else s.requests[k])
  {
    var id, v := |s.requests|, Now(s.disk) + 1;
    RequestArrives(s, Post);
    var d := PostCommits(s, s, BOTH_CALLING);
    var running := Posting(s, BOTH_CALLING, d, Replaced(v), s.log + [Committed(id, v)]);
    t := running.(lock := None, requests := AllGone(running.requests));
    LeadsOn(s, running, Kill, t);
    LeadsKeepsInvariant(start, s, t);
    forall k | 0 <= k < id ensures !s.requests[k].handler.Running? {
      assert RequestHolds(s, k);
    }
  }

  /** One step of the writing handler, with the disk staying healthy. */
  lemma Continues(from: System, s: System, hops: Hops, d: Disk, p: Phase, log: Log, d': Disk, p': Phase)
    requires Leads(from, Posting(s, hops, d, p, log))
    requires Healthy(d) && PhaseHolds(p, d) && IncrementStep(p, d, p', d')
    ensures Leads(from, Posting(s, hops, d', p', log + CommitEvent(|s.requests|, p')))
    ensures !p'.Replaced? ==> Leads(from, Posting(s, hops, d', p', log))
    ensures Healthy(d') && PhaseHolds(p', d')
    ensures Now(d') == if p'.Replaced? then Now(d) + 1 else Now(d)
  {
    PostStores(from, s, hops, d, p, log, d', p');
    StepKeepsHealth(p, d, p', d');
    assert log + [] == log;
  }

  lemma OldValueRemains(d: Disk, v: nat, i: Inode)
    requires Healthy(d) && PhaseHolds(TempSynced(v, i), d)
    ensures var d' := ReplaceTarget(d); d.current in d'.past && Level(d', d.current) == Now(d)
  {
    assert SoundDirectory(d, d.current);
  }
}
