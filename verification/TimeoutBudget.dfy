/** What the timeout hierarchy is for: the time a client waits while state stays silent. */
module TimeoutBudget {
  import opened PlatformConfig

  /** Where a forwarded request is. `Forwarding`: on its way to the app's socket operation that
      state leaves unanswered; `AppWaiting`: in that operation, since a point in time; `Answering`: the app's
      503 is on its way back; `Answered` and `GatewayTimedOut`: the gateway is done, at a point in time. */
  datatype Stage =
    | Forwarding
    | AppWaiting(since: real)
    | Answering
    | Answered(at: real)
    | GatewayTimedOut(at: real)

  /** The gateway has been waiting since time zero; `delays` is the time that was not spent in the app's wait. */
  datatype Timed = Timed(now: real, delays: real, stage: Stage)

  /** Time passes, or the request moves on. The app's own timeout ends its wait; the delays outside that
      wait add up to at most the margin; and the gateway may give up once it has waited for its whole timeout. */
  ghost predicate Step(t: Timeouts, s: Timed, s': Timed) {
    || (s.stage.Forwarding? && s' == s.(stage := AppWaiting(s.now)))
    || (s.stage.AppWaiting? && s.now == s.stage.since + t.inner && s' == s.(stage := Answering))
    || (s.stage.Answering? && s' == s.(stage := Answered(s.now)))
    || (!s.stage.Answered? && s.now >= t.outer && s' == s.(stage := GatewayTimedOut(s.now)))
    || (exists d: real :: d > 0.0 && s' == Later(s, d) &&
         (if s.stage.AppWaiting? then s'.now <= s.stage.since + t.inner
          else s.stage.Forwarding? || s.stage.Answering? ==> s'.delays <= t.margin))
  }

  function Later(s: Timed, d: real): Timed {
    Timed(s.now + d, if s.stage.Forwarding? || s.stage.Answering? then s.delays + d else s.delays, s.stage)
  }

  ghost predicate TimedRun(t: Timeouts, states: seq<Timed>) {
    && states != []
    && states[0] == Timed(0.0, 0.0, Forwarding)
    && forall k | 0 < k < |states| :: Step(t, states[k - 1], states[k])
  }

  ghost predicate InBudget(t: Timeouts, s: Timed) {
    && 0.0 <= s.delays <= t.margin
    && match s.stage
       case Forwarding => s.now == s.delays
       case AppWaiting(since) => since == s.delays && since <= s.now <= since + t.inner
       case Answering => s.now == s.delays + t.inner
       case Answered(at) => at <= s.now && at <= t.inner + t.margin
       case GatewayTimedOut(_) => false
  }

  lemma {:induction false} RunStaysInBudget(t: Timeouts, states: seq<Timed>, k: nat)
    requires 0.0 < t.inner && 0.0 <= t.margin && t.inner + t.margin < t.outer
    requires TimedRun(t, states) && k < |states|
    ensures InBudget(t, states[k])
  {
    if k > 0 {
      RunStaysInBudget(t, states, k - 1);
      assert Step(t, states[k - 1], states[k]);
    }
  }

  /** With a configuration that the gateway accepts and a state service that stays silent, the gateway never
      gives up by itself: it has received the app's 503 before its timeout, and strictly
      within the outer budget - not after the sum of both timeouts. */
  lemma AnsweredWithinBudget(file: ConfigFile, states: seq<Timed>, k: nat)
    requires LoadGateway(file).Ok?
    requires TimedRun(LoadGateway(file).value, states) && k < |states|
    ensures var t := LoadGateway(file).value; var s := states[k];
            && !s.stage.GatewayTimedOut?
            && (s.now >= t.outer ==> s.stage.Answered?)
            && (s.stage.Answered? ==> s.stage.at <= t.inner + t.margin < t.outer)
  {
    GatewayConfigSuitsApp(file);
    RunStaysInBudget(LoadGateway(file).value, states, k);
  }

  /** The hierarchy is exactly what this takes: for any positive timeouts, no run lets the
      gateway time out if and only if the outer timeout exceeds the inner one plus the margin. */
  lemma HierarchyIsNecessary(t: Timeouts)
    requires 0.0 < t.outer && 0.0 < t.inner && 0.0 < t.margin
    ensures (forall states: seq<Timed> | TimedRun(t, states) :: !states[|states| - 1].stage.GatewayTimedOut?) <==>
            t.inner + t.margin < t.outer
  {
    if t.inner + t.margin < t.outer {
      forall states: seq<Timed> | TimedRun(t, states) ensures !states[|states| - 1].stage.GatewayTimedOut? {
        RunStaysInBudget(t, states, |states| - 1);
      }
    } else {
      var first := if t.outer <= t.inner then 0.0 else t.outer - t.inner;
      var s0 := Timed(0.0, 0.0, Forwarding);
      var s1 := Later(s0, first);
      var s2 := s1.(stage := AppWaiting(first));
      var s3 := Later(s2, t.outer - first);
      var s4 := s3.(stage := GatewayTimedOut(t.outer));
      assert Step(t, s1, s2) && Step(t, s2, s3) && Step(t, s3, s4);
      if first == 0.0 {
        assert TimedRun(t, [s0, s2, s3, s4]);
      } else {
        assert Step(t, s0, s1);
        assert TimedRun(t, [s0, s1, s2, s3, s4]);
      }
    }
  }

  /** The bound is attained: with any delays up to the margin, before the app's wait and behind it, there is a run in
      which the gateway receives the app's 503 after exactly the inner timeout and the delays. */
  lemma EveryDelayIsPossible(t: Timeouts, before: real, behind: real) returns (states: seq<Timed>)
    requires 0.0 < t.inner && 0.0 < before && 0.0 < behind && before + behind <= t.margin
    ensures TimedRun(t, states)
    ensures states[|states| - 1].stage == Answered(before + t.inner + behind)
  {
    var s0 := Timed(0.0, 0.0, Forwarding);
    var s1 := Later(s0, before);
    var s2 := s1.(stage := AppWaiting(before));
    var s3 := Later(s2, t.inner);
    var s4 := s3.(stage := Answering);
    var s5 := Later(s4, behind);
    var s6 := s5.(stage := Answered(s5.now));
    assert Step(t, s0, s1) && Step(t, s1, s2) && Step(t, s2, s3);
    assert Step(t, s3, s4) && Step(t, s4, s5) && Step(t, s5, s6);
    states := [s0, s1, s2, s3, s4, s5, s6];
  }
}
