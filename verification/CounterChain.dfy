/** The chain client - gateway - app - state around one counter, as a state machine.

    Every message may be lost or arrive late, either hop may give up at any time, handler
    threads of the state service interleave at every effect on the disk, and the
    state service may be killed or lose power at any point. */
module CounterChain {
  import opened CounterLog
  import opened CounterStore
  import opened CrashableDisk
  import opened Wrappers

  datatype Kind = Post | Get

  /** A response as the next hop sees it: status 200 with a value, or an error status. */
  datatype Reply = Value(value: nat) | Error(status: nat)

  /** A forwarding handler: the request has not arrived; it is waiting for the service
      behind it; it has answered. */
  datatype Hop = Idle | Calling | Replied(reply: Reply)

  /** The handler in the state service: not there, waiting for the lock, holding it, done, or gone with its process. */
  datatype Handler =
    | NotArrived
    | Waiting
    | Running(phase: Phase)
    | Answered(reply: Reply)
    | Killed

  datatype Request = Request(kind: Kind, gateway: Hop, app: Hop, handler: Handler)

  /** Requests are numbered by their place in `requests`; `log` records what happened under the lock. */
  datatype System = System(disk: Disk, lock: Option<nat>, requests: seq<Request>, log: Log)

  /** What a hop answers with: the payload of a 200, and 503 for everything else. */
  function Forward(r: Reply): Reply {
    if r.Value? then r else Error(503)
  }

  // ---------- Steps ----------

  datatype Action =
    | Arrive(kind: Kind)
    | ReachApp(id: nat)
    | ReachState(id: nat)
    | Acquire(id: nat)
    | Look(id: nat)
    | Store(id: nat, next: Phase)
    | Return(id: nat)
    | AppHears(id: nat)
    | AppGivesUp(id: nat)
    | GatewayHears(id: nat)
    | GatewayGivesUp(id: nat)
    | Kill
    | LosePower

  function Update(s: System, id: nat, r: Request): System
    requires id < |s.requests|
  {
    s.(requests := s.requests[id := r])
  }

  /** The end of the process: its handlers are gone, whatever they were doing. */
  function Gone(r: Request): Request {
    if r.handler.Waiting? || r.handler.Running? then r.(handler := Killed) else r
  }

  function AllGone(rs: seq<Request>): seq<Request> {
    seq(|rs|, i requires 0 <= i < |rs| => Gone(rs[i]))
  }

  /** The replacement is the commit. */
  function CommitEvent(id: nat, next: Phase): Log {
    if next.Replaced? then [Committed(id, next.value)] else []
  }

  /** A step of request `id`, `r` being its record before the step. */
  ghost predicate RequestStep(s: System, a: Action, id: nat, s': System)
    requires id < |s.requests|
  {
    var r := s.requests[id];
    match a
    case ReachApp(_) => r.gateway != Idle && r.app == Idle && s' == Update(s, id, r.(app := Calling))
    case ReachState(_) =>
      r.app != Idle && r.handler == NotArrived && s' == Update(s, id, r.(handler := Waiting))
    case Acquire(_) =>
      && s.lock == None && r.handler == Waiting
      && s' == Update(s, id, r.(handler := Running(Entered))).(lock := Some(id))
    case Look(_) =>
      && r.kind == Get && r.handler == Running(Entered)
      && (|| (&& Stored(s.disk).Some?
              && s' == Update(s, id, r.(handler := Answered(Value(Stored(s.disk).value))))
                       .(lock := None, log := s.log + [Observed(id, Stored(s.disk).value)]))
          || (s.disk.current.target.Some? && s' == Update(s, id, r.(handler := Answered(Error(500)))).(lock := None)))
    case Store(_, next) =>
      && r.kind == Post && r.handler.Running?
      && IncrementStep(r.handler.phase, s.disk, next, s'.disk)
      && s' == Update(s, id, r.(handler := Running(next))).(disk := s'.disk, log := s.log + CommitEvent(id, next))
    case Return(_) =>
      && r.kind == Post && r.handler.Running?
      && (match r.handler.phase
          case Finished(v, dirSynced) =>
            s' == Update(s, id, r.(handler := Answered(Value(v))))
                    .(lock := None, log := s.log + [Returned(id, v, dirSynced)])
          case Failed(_) => s' == Update(s, id, r.(handler := Answered(Error(500)))).(lock := None)
          case _ => false)
    case AppHears(_) =>
      r.app == Calling && r.handler.Answered? && s' == Update(s, id, r.(app := Replied(Forward(r.handler.reply))))
    case AppGivesUp(_) => r.app == Calling && s' == Update(s, id, r.(app := Replied(Error(503))))
    case GatewayHears(_) =>
      r.gateway == Calling && r.app.Replied? && s' == Update(s, id, r.(gateway := Replied(Forward(r.app.reply))))
    case GatewayGivesUp(_) => r.gateway == Calling && s' == Update(s, id, r.(gateway := Replied(Error(503))))
    case _ => false
  }

  ghost predicate Next(s: System, a: Action, s': System) {
    match a
    case Arrive(kind) => s' == s.(requests := s.requests + [Request(kind, Calling, Idle, NotArrived)])
    case Kill => s' == s.(lock := None, requests := AllGone(s.requests))
    case LosePower =>
      && PowerLost(s.disk, s'.disk)
      && s' == System(s'.disk, None, AllGone(s.requests), s.log + [PowerCut(Now(s'.disk))])
    case _ => a.id < |s.requests| && RequestStep(s, a, a.id, s')
  }

  /** The counter file is absent or valid, and nothing has happened yet. */
  ghost predicate Initial(s: System) {
    CrashSafe(s.disk) && s.disk.past == [] && s.lock == None && s.requests == [] && s.log == []
  }

  /** A run: states with the actions between them. */
  ghost predicate Run(states: seq<System>, actions: seq<Action>) {
    && |states| == |actions| + 1
    && forall k | 0 <= k < |actions| :: Next(states[k], actions[k], states[k + 1])
  }

  // ---------- The invariant ----------

  ghost predicate ReturnLogged(log: Log, id: nat, v: nat) {
    exists synced: bool :: Returned(id, v, synced) in log
  }

  /** What the record of request `id` says about the disk, the lock and the log. */
  ghost predicate RequestHolds(s: System, id: nat)
    requires id < |s.requests|
  {
    var r := s.requests[id];
    && r.gateway != Idle
    && (r.handler != NotArrived ==> r.app != Idle)
    && (match r.handler
        case NotArrived => NoCommit(s.log, id)
        case Waiting => NoCommit(s.log, id)
        case Killed => true
        case Running(p) =>
          && s.lock == Some(id)
          && PhaseHolds(p, s.disk)
          && (r.kind == Get ==> p == Entered)
          && (p.Replaced? || p.Finished? ==> s.log != [] && Last(s.log) == Committed(id, p.value))
          && (p.Replaced? || p.Finished? || p.Failed? || NoCommit(s.log, id))
        case Answered(reply) =>
          reply.Value? ==>
            if r.kind == Post then ReturnLogged(s.log, id, reply.value) else Observed(id, reply.value) in s.log)
    && (r.app.Replied? && r.app.reply.Value? ==> r.handler == Answered(r.app.reply))
    && (r.gateway.Replied? && r.gateway.reply.Value? ==> r.app == Replied(r.gateway.reply))
  }

  ghost predicate EventHolds(s: System, e: Event) {
    match e
    case Committed(id, _) => id < |s.requests| && s.requests[id].kind == Post
    case Returned(id, v, synced) =>
      && id < |s.requests| && Committed(id, v) in s.log && s.requests[id].handler == Answered(Value(v))
      && (synced ==> v <= Floor(s.disk))
    case Observed(id, _) => id < |s.requests|
    case PowerCut(_) => true
  }

  ghost predicate Invariant(start: nat, s: System) {
    && Healthy(s.disk)
    && Legal(start, s.log)
    && LevelAfter(start, s.log) == Now(s.disk)
    && (s.lock.Some? ==> s.lock.value < |s.requests| && s.requests[s.lock.value].handler.Running?)
    && (forall id | 0 <= id < |s.requests| :: RequestHolds(s, id))
    && (forall e | e in s.log :: EventHolds(s, e))
  }

  lemma InitialInvariant(s: System)
    requires Initial(s)
    ensures Invariant(Now(s.disk), s)
  {
    assert Snapshots(s.disk) == [s.disk.current];
  }

  /** Steps that change one record, and neither the disk nor the log. */
  lemma RecordChange(start: nat, s: System, id: nat, s': System)
    requires Invariant(start, s) && id < |s.requests|
    requires |s'.requests| == |s.requests| && s'.requests == s.requests[id := s'.requests[id]]
    requires s'.disk == s.disk && s'.log == s.log
    requires s'.requests[id].kind == s.requests[id].kind
    requires s.requests[id].handler.Answered? ==> s'.requests[id].handler == s.requests[id].handler
    requires RequestHolds(s', id)
    requires s'.lock == s.lock || (s.lock in {None, Some(id)} && s'.lock in {None, Some(id)})
    requires s'.lock == Some(id) <==> s'.requests[id].handler.Running?
    ensures Invariant(start, s')
  {
    forall j | 0 <= j < |s'.requests| ensures RequestHolds(s', j) {
      assert RequestHolds(s, j);
    }
    forall e | e in s'.log ensures EventHolds(s', e) {
      assert EventHolds(s, e);
    }
  }

  lemma HopKeepsInvariant(start: nat, s: System, a: Action, s': System)
    requires Invariant(start, s) && Next(s, a, s')
    requires || a.ReachApp? || a.ReachState? || a.Acquire?
             || a.AppHears? || a.AppGivesUp? || a.GatewayHears? || a.GatewayGivesUp?
    ensures Invariant(start, s')
  {
    assert RequestHolds(s, a.id);
    RecordChange(start, s, a.id, s');
  }

  lemma ArriveKeepsInvariant(start: nat, s: System, kind: Kind, s': System)
    requires Invariant(start, s) && Next(s, Arrive(kind), s')
    ensures Invariant(start, s')
  {
    forall j | 0 <= j < |s'.requests| ensures RequestHolds(s', j) {
      if j < |s.requests| {
        assert RequestHolds(s, j);
      } else {
        forall e | e in s.log && e.Committed? ensures e.id != j {
          assert EventHolds(s, e);
        }
      }
    }
    forall e | e in s'.log ensures EventHolds(s', e) {
      assert EventHolds(s, e);
    }
  }

  /** A step of the lock holder that appends to the log. */
  lemma HolderAppends(start: nat, s: System, id: nat, s': System, added: Log)
    requires Invariant(start, s) && id < |s.requests| && s.lock == Some(id)
    requires |s'.requests| == |s.requests| && s'.requests == s.requests[id := s'.requests[id]]
    requires s'.log == s.log + added && |added| <= 1
    requires added != [] ==>
               !added[0].PowerCut? && added[0].id == id && (added[0].Committed? ==> s.requests[id].kind == Post)
    requires added != [] && added[0].Returned? ==>
               && Committed(id, added[0].value) in s.log
               && s'.requests[id].handler == Answered(Value(added[0].value))
               && (added[0].dirSynced ==> added[0].value <= Floor(s'.disk))
    requires added != [] ==> LegalEvent(start, s.log, added[0])
    requires Healthy(s'.disk) && Floor(s.disk) <= Floor(s'.disk)
    requires Now(s'.disk) == if added != [] && added[0].Committed? then added[0].value else Now(s.disk)
    requires s'.requests[id].kind == s.requests[id].kind
    requires RequestHolds(s', id)
    requires s'.lock == if s'.requests[id].handler.Running? then Some(id) else None
    ensures Invariant(start, s')
  {
    assert RequestHolds(s, id);
    LogHolds(start, s, added);
    OthersHold(s, id, s', added);
    EventsHold(s, id, s', added);
  }

  lemma OthersHold(s: System, id: nat, s': System, added: Log)
    requires forall j | 0 <= j < |s.requests| :: RequestHolds(s, j)
    requires id < |s.requests| && s.lock == Some(id)
    requires |s'.requests| == |s.requests| && s'.requests == s.requests[id := s'.requests[id]]
    requires s'.log == s.log + added
    requires forall e | e in added :: e.Committed? ==> e.id == id
    ensures forall j | 0 <= j < |s'.requests| && j != id :: RequestHolds(s', j)
  {
    forall j | 0 <= j < |s'.requests| && j != id ensures RequestHolds(s', j) {
      assert RequestHolds(s, j);
      OtherRequestHolds(s, id, s', added, j);
    }
  }

  lemma EventsHold(s: System, id: nat, s': System, added: Log)
    requires forall e | e in s.log :: EventHolds(s, e)
    requires id < |s.requests| && s.requests[id].handler.Running?
    requires |s'.requests| == |s.requests| && s'.requests == s.requests[id := s'.requests[id]]
    requires s'.requests[id].kind == s.requests[id].kind
    requires s'.log == s.log + added && Floor(s.disk) <= Floor(s'.disk)
    requires forall e | e in added :: EventHolds(s', e)
    ensures forall e | e in s'.log :: EventHolds(s', e)
  {
    forall e | e in s'.log ensures EventHolds(s', e) {
      assert e in s.log || e in added;
      if e in s.log {
        EventStays(s, id, s', added, e);
      }
    }
  }

  lemma LogHolds(start: nat, s: System, added: Log)
    requires Legal(start, s.log) && |added| <= 1
    requires added != [] ==> LegalEvent(start, s.log, added[0]) && !added[0].PowerCut?
    ensures Legal(start, s.log + added)
    ensures LevelAfter(start, s.log + added) ==
            if added != [] && added[0].Committed? then added[0].value else LevelAfter(start, s.log)
  {
    if added == [] {
      assert s.log + added == s.log;
    } else {
      assert added == [added[0]];
      LegalAppend(start, s.log, added[0]);
    }
  }

  lemma EventStays(s: System, id: nat, s': System, added: Log, e: Event)
    requires EventHolds(s, e) && id < |s.requests| && s.requests[id].handler.Running?
    requires |s'.requests| == |s.requests| && s'.requests == s.requests[id := s'.requests[id]]
    requires s'.requests[id].kind == s.requests[id].kind
    requires s'.log == s.log + added && Floor(s.disk) <= Floor(s'.disk)
    ensures EventHolds(s', e)
  {
  }

  lemma OtherRequestHolds(s: System, id: nat, s': System, added: Log, j: nat)
    requires j < |s.requests| && id < |s.requests| && j != id
    requires RequestHolds(s, j)
    requires s.lock == Some(id)
    requires |s'.requests| == |s.requests| && s'.requests[j] == s.requests[j]
    requires s'.log == s.log + added
    requires forall e | e in added :: e.Committed? ==> e.id == id
    ensures RequestHolds(s', j)
  {
    assert forall e :: e in s'.log <==> e in s.log || e in added;
    var r := s.requests[j];
    if r.handler.Answered? && r.handler.reply.Value? && r.kind == Post {
      var v := r.handler.reply.value;
      var synced: bool :| Returned(j, v, synced) in s.log;
      assert Returned(j, v, synced) in s'.log;
    }
  }

  lemma StoreKeepsInvariant(start: nat, s: System, id: nat, next: Phase, s': System)
    requires Invariant(start, s) && Next(s, Store(id, next), s')
    ensures Invariant(start, s')
  {
    assert RequestHolds(s, id);
    var p := s.requests[id].handler.phase;
    StepKeepsHealth(p, s.disk, next, s'.disk);
    PhaseProgress(p, s.disk, next, s'.disk);
    if !next.Replaced? {
      assert s'.log == s.log;
    }
    HolderAppends(start, s, id, s', CommitEvent(id, next));
  }

  /** The order of the phases around the commit. */
  lemma PhaseProgress(p: Phase, d: Disk, p': Phase, d': Disk)
    requires IncrementStep(p, d, p', d')
    ensures p.Replaced? ==> p'.Finished? || p'.Failed?
    ensures p'.Finished? ==> p.Replaced? && p'.value == p.value
    ensures p'.Replaced? ==> p.TempSynced?
    ensures !p.Finished? && !p.Failed?
  {
  }

  lemma ReturnKeepsInvariant(start: nat, s: System, id: nat, s': System)
    requires Invariant(start, s) && Next(s, Return(id), s')
    ensures Invariant(start, s')
  {
    assert RequestHolds(s, id);
    var p := s.requests[id].handler.phase;
    if p.Finished? {
      var e := Returned(id, p.value, p.dirSynced);
      assert e in s'.log;
      HolderAppends(start, s, id, s', [e]);
    } else {
      assert s.log + [] == s.log;
      HolderAppends(start, s, id, s', []);
    }
  }

  lemma LookKeepsInvariant(start: nat, s: System, id: nat, s': System)
    requires Invariant(start, s) && Next(s, Look(id), s')
    ensures Invariant(start, s')
  {
    assert RequestHolds(s, id);
    HealthyReads(s.disk);
    if s'.requests[id].handler.reply.Value? {
      var e := Observed(id, Now(s.disk));
      assert e in s'.log;
      HolderAppends(start, s, id, s', [e]);
    } else {
      assert s.log + [] == s.log;
      HolderAppends(start, s, id, s', []);
    }
  }

  /** What a crash leaves of the records and of the log. */
  lemma RecordsSurvive(s: System, s': System, added: Log)
    requires forall id | 0 <= id < |s.requests| :: RequestHolds(s, id)
    requires forall e | e in s.log :: EventHolds(s, e)
    requires s'.requests == AllGone(s.requests) && s'.log == s.log + added
    requires forall e | e in added :: e.PowerCut?
    requires forall e | e in s.log && e.Returned? && e.dirSynced :: e.value <= Floor(s'.disk)
    ensures forall id | 0 <= id < |s'.requests| :: RequestHolds(s', id)
    ensures forall e | e in s'.log :: EventHolds(s', e)
  {
    assert forall e :: e in s'.log <==> e in s.log || e in added;
    forall e | e in s'.log ensures EventHolds(s', e) {
      assert e in s.log ==> EventHolds(s, e);
    }
    forall id | 0 <= id < |s'.requests| ensures RequestHolds(s', id) {
      assert RequestHolds(s, id);
      var r := s.requests[id];
      if r.handler.Answered? && r.handler.reply.Value? && r.kind == Post {
        var synced: bool :| Returned(id, r.handler.reply.value, synced) in s.log;
        assert Returned(id, r.handler.reply.value, synced) in s'.log;
      }
    }
  }

  lemma KillKeepsInvariant(start: nat, s: System, s': System)
    requires Invariant(start, s) && Next(s, Kill, s')
    ensures Invariant(start, s')
  {
    forall e | e in s.log && e.Returned? && e.dirSynced ensures e.value <= Floor(s.disk) {
      assert EventHolds(s, e);
    }
    assert s'.log == s.log + [];
    RecordsSurvive(s, s', []);
  }

  lemma PowerLossKeepsInvariant(start: nat, s: System, s': System)
    requires Invariant(start, s) && Next(s, LosePower, s')
    ensures Invariant(start, s')
  {
    PowerLossKeepsHealth(s.disk, s'.disk);
    forall e | e in s.log && e.Returned? && e.dirSynced ensures e.value <= Now(s'.disk) {
      assert EventHolds(s, e);
    }
    LegalAppend(start, s.log, PowerCut(Now(s'.disk)));
    RecordsSurvive(s, s', [PowerCut(Now(s'.disk))]);
  }

  /** Every step keeps the invariant. */
  lemma NextKeepsInvariant(start: nat, s: System, a: Action, s': System)
    requires Invariant(start, s) && Next(s, a, s')
    ensures Invariant(start, s')
  {
    if a.Arrive? {
      ArriveKeepsInvariant(start, s, a.kind, s');
    } else if a.Kill? {
      KillKeepsInvariant(start, s, s');
    } else if a.LosePower? {
      PowerLossKeepsInvariant(start, s, s');
    } else if a.Store? {
      StoreKeepsInvariant(start, s, a.id, a.next, s');
    } else if a.Look? {
      LookKeepsInvariant(start, s, a.id, s');
    } else if a.Return? {
      ReturnKeepsInvariant(start, s, a.id, s');
    } else {
      HopKeepsInvariant(start, s, a, s');
    }
  }

  /** So it holds in every state of every run that starts with it. */
  lemma {:induction false} RunKeepsInvariant(start: nat, states: seq<System>, actions: seq<Action>, k: nat)
    requires Run(states, actions) && Invariant(start, states[0]) && k < |states|
    ensures Invariant(start, states[k])
  {
    if k > 0 {
      RunKeepsInvariant(start, states, actions, k - 1);
      NextKeepsInvariant(start, states[k - 1], actions[k - 1], states[k]);
    }
  }
}
