/** How the order under the lock appears to clients: in real time, and as a count of successes. */
module CounterOrder {
  import opened ChainGuarantees
  import opened CounterChain
  import opened CounterLog
  import opened CounterStore
  import opened CrashableDisk
  import opened Wrappers

  // ---------- Logs along a run ----------

  predicate Extends(s: System, s': System) {
    && s.log <= s'.log
    && |s.requests| <= |s'.requests|
  }

  lemma StepExtends(s: System, a: Action, s': System)
    requires Next(s, a, s')
    ensures Extends(s, s')
  {
  }

  lemma {:induction false} RunExtends(states: seq<System>, actions: seq<Action>, k: nat, m: nat)
    requires Run(states, actions) && k <= m < |states|
    ensures Extends(states[k], states[m])
  {
    if k < m {
      RunExtends(states, actions, k, m - 1);
      StepExtends(states[m - 1], actions[m - 1], states[m]);
      ExtendsTransitive(states[k], states[m - 1], states[m]);
    }
  }

  lemma ExtendsTransitive(s: System, s': System, s'': System)
    requires Extends(s, s') && Extends(s', s'')
    ensures Extends(s, s'')
  {
  }

  lemma {:induction false} CommitsGrow(log: Log, i: nat, j: nat)
    requires i <= j <= |log|
    ensures Commits(log[..i]) <= Commits(log[..j])
  {
    if i < j {
      CommitsGrow(log, i, j - 1);
      assert Front(log[..j]) == log[..j - 1];
    }
  }

  // ---------- Real time ----------

  /** A 200 carries the value of an event of that request in the log: for a POST its return, right behind its commit. */
  lemma AnswerEvent(start: nat, s: System, id: nat) returns (j: nat)
    requires Invariant(start, s) && Succeeded(s, id)
    ensures j < |s.log| && s.log[j].value == AnswerTo(s, id)
    ensures if s.requests[id].kind == Post
            then s.log[j].Returned? && s.log[j].id == id && j > 0 && s.log[j - 1] == Committed(id, AnswerTo(s, id))
            else s.log[j] == Observed(id, AnswerTo(s, id))
  {
    assert RequestHolds(s, id);
    var v := AnswerTo(s, id);
    assert s.requests[id].handler == Answered(Value(v));
    if s.requests[id].kind == Post {
      var synced: bool :| Returned(id, v, synced) in s.log;
      j :| 0 <= j < |s.log| && s.log[j] == Returned(id, v, synced);
      LegalAt(start, s.log, j);
      assert Last(s.log[..j]) == s.log[j - 1];
    } else {
      j :| 0 <= j < |s.log| && s.log[j] == Observed(id, v);
    }
  }

  lemma EventsAreOfRequests(start: nat, s: System)
    requires Invariant(start, s)
    ensures forall e | e in s.log && !e.PowerCut? :: e.id < |s.requests|
  {
    forall e | e in s.log && !e.PowerCut? ensures e.id < |s.requests| {
      assert EventHolds(s, e);
    }
  }

  /** An event of a request that had not arrived by state `s` comes after the log of `s`. */
  lemma LaterEvent(start: nat, s: System, s': System, j: nat, id: nat)
    requires Invariant(start, s) && Extends(s, s') && |s.requests| <= id
    requires j < |s'.log| && !s'.log[j].PowerCut? && s'.log[j].id == id
    ensures j >= |s.log|
  {
    EventsAreOfRequests(start, s);
    assert forall i | 0 <= i < |s.log| :: s'.log[i] == s.log[i] && s.log[i] in s.log;
  }

  /** Later events carry larger values, if a commit lies between. */
  lemma LaterIsLarger(start: nat, log: Log, j: nat, j': nat)
    requires Legal(start, log) && NoPowerCut(log) && j < j' < |log|
    ensures log[j].value <= log[j'].value
    ensures log[j'].Returned? && j < j' - 1 ==> log[j].value < log[j'].value
  {
    ValuesAreRanks(start, log, j);
    ValuesAreRanks(start, log, j');
    CommitsGrow(log, j + 1, j' + 1);
    if log[j'].Returned? && j < j' - 1 {
      LegalAt(start, log, j');
      CommitsGrow(log, j + 1, j' - 1);
      CommitsGrow(log, j', j' + 1);
      assert Front(log[..j']) == log[..j' - 1] && Last(log[..j']) == log[j' - 1];
    }
  }

  /** Linearizability in real time. Without power losses, if a request arrives after another one was answered 200
      and is answered 200 itself, then a POST gets a larger value than the earlier request did,
      and a GET gets no smaller one. */
  lemma RealTimeOrder(states: seq<System>, actions: seq<Action>, k: nat, m: nat, id: nat, id': nat)
    requires Run(states, actions) && Initial(states[0]) && k <= m < |states|
    requires NoPowerCut(states[m].log)
    requires Succeeded(states[k], id)
    requires id' >= |states[k].requests| && Succeeded(states[m], id')
    ensures AnswerTo(states[k], id) <= AnswerTo(states[m], id')
    ensures states[m].requests[id'].kind == Post ==> AnswerTo(states[k], id) < AnswerTo(states[m], id')
  {
    Reached(states, actions, k);
    Reached(states, actions, m);
    RunExtends(states, actions, k, m);
    StatesInOrder(Now(states[0].disk), states[k], states[m], id, id');
  }

  lemma StatesInOrder(start: nat, s: System, s': System, id: nat, id': nat)
    requires Invariant(start, s) && Invariant(start, s') && Extends(s, s') && NoPowerCut(s'.log)
    requires Succeeded(s, id)
    requires id' >= |s.requests| && Succeeded(s', id')
    ensures AnswerTo(s, id) <= AnswerTo(s', id')
    ensures s'.requests[id'].kind == Post ==> AnswerTo(s, id) < AnswerTo(s', id')
  {
    var j := AnswerEvent(start, s, id);
    var j' := AnswerEvent(start, s', id');
    assert s'.log[j] == s.log[j];
    LaterEvent(start, s, s', j', id');
    if s'.requests[id'].kind == Post {
      LaterEvent(start, s, s', j' - 1, id');
    }
    LaterIsLarger(start, s'.log, j, j');
  }

  // ---------- Counting successes ----------

  /** The handler of a committed increment fails: closing the directory raised. */
  predicate FailsAfterCommit(s: System, a: Action) {
    && a.Store? && a.next.Failed?
    && a.id < |s.requests| && s.requests[a.id].handler.Running? && s.requests[a.id].handler.phase.Replaced?
  }

  predicate SmoothStep(s: System, a: Action) {
    a != Kill && a != LosePower && !FailsAfterCommit(s, a)
  }

  /** A run without crashes in which no increment fails after its commit. */
  predicate Smooth(states: seq<System>, actions: seq<Action>)
    requires |states| == |actions| + 1
  {
    forall k | 0 <= k < |actions| :: SmoothStep(states[k], actions[k])
  }

  /** The increment of the last commit is still under way, and will return. */
  predicate UnderWay(s: System) {
    s.log != [] && Last(s.log).Committed? ==>
      && s.lock == Some(Last(s.log).id) && Last(s.log).id < |s.requests|
      && s.requests[Last(s.log).id].handler.Running?
      && var p := s.requests[Last(s.log).id].handler.phase; p.Replaced? || p.Finished?
  }

  predicate AllReturn(s: System) {
    NoPowerCut(s.log) && CommitsReturn(s.log) && UnderWay(s)
  }

  lemma CommitsReturnSnoc(log: Log, e: Event)
    requires CommitsReturn(log) && (log != [] && Last(log).Committed? ==> e.Returned?)
    ensures CommitsReturn(log + [e])
  {
    assert forall k | 0 <= k < |log| :: (log + [e])[k] == log[k];
  }

  lemma NoPowerCutSnoc(log: Log, e: Event)
    requires NoPowerCut(log) && !e.PowerCut?
    ensures NoPowerCut(log + [e])
  {
    assert forall f :: f in log + [e] <==> f in log || f == e;
  }

  lemma StoreReturns(start: nat, s: System, id: nat, next: Phase, s': System)
    requires Invariant(start, s) && AllReturn(s) && SmoothStep(s, Store(id, next)) && Next(s, Store(id, next), s')
    ensures AllReturn(s')
  {
    assert RequestHolds(s, id);
    PhaseProgress(s.requests[id].handler.phase, s.disk, next, s'.disk);
    if next.Replaced? {
      var e := Committed(id, next.value);
      CommitsReturnSnoc(s.log, e);
      NoPowerCutSnoc(s.log, e);
      assert Last(s'.log) == e;
    } else {
      assert s'.log == s.log;
    }
  }

  lemma ReturnReturns(start: nat, s: System, id: nat, s': System)
    requires Invariant(start, s) && AllReturn(s) && Next(s, Return(id), s')
    ensures AllReturn(s')
  {
    assert RequestHolds(s, id);
    if s.requests[id].handler.phase.Finished? {
      var p := s.requests[id].handler.phase;
      var e := Returned(id, p.value, p.dirSynced);
      CommitsReturnSnoc(s.log, e);
      NoPowerCutSnoc(s.log, e);
      assert Last(s'.log) == e;
    }
  }

  lemma LookReturns(start: nat, s: System, id: nat, s': System)
    requires Invariant(start, s) && AllReturn(s) && Next(s, Look(id), s')
    ensures AllReturn(s')
  {
    assert RequestHolds(s, id);
    if s'.log != s.log {
      var e := Observed(id, Stored(s.disk).value);
      CommitsReturnSnoc(s.log, e);
      NoPowerCutSnoc(s.log, e);
      assert Last(s'.log) == e;
    }
  }

  lemma StepReturns(start: nat, s: System, a: Action, s': System)
    requires Invariant(start, s) && AllReturn(s) && SmoothStep(s, a) && Next(s, a, s')
    ensures AllReturn(s')
  {
    if a.Store? {
      StoreReturns(start, s, a.id, a.next, s');
    } else if a.Return? {
      ReturnReturns(start, s, a.id, s');
    } else if a.Look? {
      LookReturns(start, s, a.id, s');
    }
  }

  lemma {:induction false} SmoothRunReturns(start: nat, states: seq<System>, actions: seq<Action>, k: nat)
    requires Run(states, actions) && Smooth(states, actions) && k < |states|
    requires Invariant(start, states[0]) && AllReturn(states[0])
    ensures Invariant(start, states[k]) && AllReturn(states[k])
  {
    if k > 0 {
      SmoothRunReturns(start, states, actions, k - 1);
      SmoothRunStep(start, states, actions, k - 1);
    }
  }

  lemma SmoothRunStep(start: nat, states: seq<System>, actions: seq<Action>, k: nat)
    requires Run(states, actions) && Smooth(states, actions) && k < |actions|
    requires Invariant(start, states[k]) && AllReturn(states[k])
    ensures Invariant(start, states[k + 1]) && AllReturn(states[k + 1])
  {
    assert SmoothStep(states[k], actions[k]);
    assert Next(states[k], actions[k], states[k + 1]);
    StepReturns(start, states[k], actions[k], states[k + 1]);
    NextKeepsInvariant(start, states[k], actions[k], states[k + 1]);
  }

  /** In every run without crashes and without failures after the commit, the n-th successful increment in lock
      order returns the initial value plus n, however handlers interleave and whatever else fails. */
  lemma SuccessesAreNumbered(states: seq<System>, actions: seq<Action>, k: nat, j: nat)
    requires Run(states, actions) && Initial(states[0]) && Smooth(states, actions) && k < |states|
    requires j < |states[k].log| && states[k].log[j].Returned?
    ensures states[k].log[j].value == Now(states[0].disk) + Returns(states[k].log[..j + 1])
  {
    InitialInvariant(states[0]);
    SmoothRunReturns(Now(states[0].disk), states, actions, k);
    SuccessesCountUp(Now(states[0].disk), states[k].log, j);
  }
}
