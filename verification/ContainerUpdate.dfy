/** Verified changes of a container's memory limits, and the temporary shrink that is always
    followed by a restore: `update_container_resources_verified` and
    `with_memory_shrink_restored` of `scripts/reliability/reliability_check.py`. */
module ContainerUpdate {
  import opened MemoryStrings
  import opened Sequences
  import opened Text
  import opened Wrappers

  const RETRY_DEADLINE_SECONDS := 10.0
  const RETRY_INTERVAL_SECONDS := 0.5

  // ---------- The host ----------

  /** HostConfig.Memory and HostConfig.MemorySwap; a missing entry is `None`. */
  datatype Limits = Limits(memory: Option<int>, swap: Option<int>)

  /** How a `docker update` ends: with an exit code, and the classifier's verdict on its
      error output; or with an exception out of the call itself. */
  datatype UpdateResult = Completed(code: int, transientRace: bool) | UpdateRaises

  /** How a `docker inspect` ends; `Unreadable` covers a failing exit code and malformed output. */
  datatype InspectResult = Shown(limits: Limits) | Unreadable | InspectRaises

  /** The limits that a `docker update` asks for. */
  datatype Command = Command(memory: string, swap: string)

  datatype Call =
    | Update(command: Command, updated: UpdateResult)
    | Inspect(inspected: InspectResult)
    | Sleep(seconds: real)
    | Action(succeeds: bool)

  /** The machine the check runs on: Docker answers anything, and the monotonic clock passes on as it likes. */
  class Host {
    var clock: real
    ghost var trace: seq<Call>

    constructor (t: real)
      ensures clock == t && trace == []
    {
      clock := t;
      trace := [];
    }

    method PassTime(least: real)
      requires least >= 0.0
      modifies this`clock
      ensures clock >= old(clock) + least
    {
      var extra: real := *;
      clock := clock + least + if extra >= 0.0 then extra else 0.0;
    }

    method Now() returns (t: real)
      modifies this`clock
      ensures t == clock >= old(clock)
    {
      PassTime(0.0);
      t := clock;
    }

    method SleepFor(seconds: real)
      requires seconds >= 0.0
      modifies this
      ensures clock >= old(clock) + seconds && trace == old(trace) + [Sleep(seconds)]
    {
      PassTime(seconds);
      trace := trace + [Sleep(seconds)];
    }

    method DockerUpdate(command: Command) returns (r: UpdateResult)
      modifies this
      ensures clock >= old(clock) && trace == old(trace) + [Update(command, r)]
    {
      r := *;
      PassTime(0.0);
      trace := trace + [Update(command, r)];
    }

    method DockerInspect() returns (r: InspectResult)
      modifies this
      ensures clock >= old(clock) && trace == old(trace) + [Inspect(r)]
    {
      r := *;
      PassTime(0.0);
      trace := trace + [Inspect(r)];
    }

    method RunAction() returns (succeeds: bool)
      modifies this
      ensures clock >= old(clock) && trace == old(trace) + [Action(succeeds)]
    {
      succeeds := *;
      PassTime(0.0);
      trace := trace + [Action(succeeds)];
    }
  }

  // ---------- The verified update ----------

  /** `Failed` is a ReliabilityError; `Raised` any other exception. */
  datatype Outcome = Verified(attempts: nat) | Failed | Raised

  predicate IsTransient(r: UpdateResult) {
    r.Completed? && r.code != 0 && r.transientRace
  }

  /** What is asked for, the limits to be verified, and the longest pause between attempts. */
  datatype Goal = Goal(command: Command, want: Limits, interval: real)

  /** The calls of the last attempt, and what they lead to. */
  predicate LastAttempt(t: seq<Call>, g: Goal, outcome: Outcome) {
    && t != [] && t[0].Update? && t[0].command == g.command
    && match t[0].updated
       case UpdateRaises => |t| == 1 && outcome == Raised
       case Completed(code, transientRace) =>
         if code != 0 && !transientRace then |t| == 1 && outcome == Failed
         else
           && |t| == 2 && t[1].Inspect?
           && match t[1].inspected
              case InspectRaises => outcome == Raised
              case Unreadable => outcome == Failed
              case Shown(limits) => if limits == g.want then outcome.Verified? else outcome == Failed
  }

  /** An attempt that is retried: a transient failure, an inspection that shows other limits, a pause
      of at most the interval. */
  predicate RetriedAttempt(t: seq<Call>, g: Goal) {
    && |t| >= 3
    && t[0].Update? && t[0].command == g.command && IsTransient(t[0].updated)
    && t[1].Inspect? && t[1].inspected.Shown? && t[1].inspected.limits != g.want
    && t[2].Sleep? && 0.0 < t[2].seconds <= g.interval
  }

  /** The calls of a whole verified update: retried attempts, then a last one. */
  predicate UpdateTrace(t: seq<Call>, g: Goal, outcome: Outcome) {
    || LastAttempt(t, g, outcome)
    || (RetriedAttempt(t, g) && UpdateTrace(t[3..], g, outcome))
  }

  /** The limits to be verified: given ones, or the command's own, read as numbers. */
  function Wanted(command: Command, expected: Limits): Limits {
    Limits(if expected.memory.Some? then expected.memory else MemoryBytes(command.memory),
           if expected.swap.Some? then expected.swap else MemoryBytes(command.swap))
  }

  predicate Known(l: Limits) {
    l.memory.Some? && l.swap.Some?
  }

  /** A verified update as its caller sees it; malformed limits raise before any call. */
  predicate UpdateCalls(t: seq<Call>, g: Goal, outcome: Outcome) {
    if Known(g.want) then UpdateTrace(t, g, outcome) else t == [] && outcome == Raised
  }

  /** The calls end with a transient failure that was not retried although the limits were still others. */
  predicate GivesUp(t: seq<Call>, want: Limits) {
    && |t| >= 2
    && t[|t| - 2].Update? && IsTransient(t[|t| - 2].updated)
    && t[|t| - 1].Inspect? && t[|t| - 1].inspected.Shown? && t[|t| - 1].inspected.limits != want
  }

  /** Every pause but the last one lasts a whole interval. */
  predicate OnlyLastPauseIsShort(t: seq<Call>, interval: real) {
    forall j, k | 0 <= j < k < |t| && t[j].Sleep? && t[k].Sleep? :: t[j].seconds == interval
  }

  /** Before the deadline no pause was short. */
  predicate PausesSoFar(t: seq<Call>, interval: real, late: bool) {
    && OnlyLastPauseIsShort(t, interval)
    && (late || forall k | 0 <= k < |t| && t[k].Sleep? :: t[k].seconds == interval)
  }

  function Updates(t: seq<Call>): nat {
    if t == [] then 0 else (if t[0].Update? then 1 else 0) + Updates(t[1..])
  }

  /** The number of whole intervals needed to reach the deadline. */
  function Ceiling(x: real): int {
    -((-x).Floor)
  }

  method UpdateVerified(host: Host, command: Command, expected: Limits, deadlineSeconds: real, retryInterval: real)
    returns (outcome: Outcome, ghost calls: seq<Call>)
    requires retryInterval > 0.0
    modifies host
    ensures host.trace == old(host.trace) + calls
    ensures UpdateCalls(calls, Goal(command, Wanted(command, expected), retryInterval), outcome)
    ensures GivesUp(calls, Wanted(command, expected)) ==> host.clock >= old(host.clock) + deadlineSeconds
    ensures OnlyLastPauseIsShort(calls, retryInterval)
    ensures host.clock >= old(host.clock)
    ensures outcome.Verified? ==> outcome.attempts == Updates(calls)
    ensures Updates(calls) <= 1 + (if deadlineSeconds > 0.0 then Ceiling(deadlineSeconds / retryInterval) else 0)
  {
    calls := [];
    CeilingPositive(deadlineSeconds, retryInterval);
    ghost var most := if deadlineSeconds > 0.0 then Ceiling(deadlineSeconds / retryInterval) else 0;
    var want := Wanted(command, expected);
    ghost var g := Goal(command, want, retryInterval);
    if !Known(want) {
      return Raised, [];
    }
    var begin := host.Now();
    var deadline := begin + deadlineSeconds;
    var attempt := 0;
    while true
      invariant host.trace == old(host.trace) + calls
      invariant Rounds(calls, g) && Updates(calls) == attempt
      invariant 0 <= attempt <= most
      invariant Elapsed(host.clock - begin, attempt, retryInterval, deadlineSeconds)
      invariant PausesSoFar(calls, retryInterval, host.clock >= deadline)
      decreases most - attempt
    {
      ghost var tried, spent := attempt, host.clock - begin;
      attempt := attempt + 1;
      ghost var rounds := calls;
      var updated := host.DockerUpdate(command);
      ghost var u := Update(command, updated);
      calls := rounds + [u];
      Associate(old(host.trace), rounds, [u]);
      EndsWithUpdate(rounds, g, u);
      NoPauseAdded(rounds, [u], retryInterval);
      if updated.UpdateRaises? {
        return Raised, calls;
      }
      if updated.code != 0 && !updated.transientRace {
        return Failed, calls;
      }
      var inspected := host.DockerInspect();
      ghost var i := Inspect(inspected);
      calls := rounds + [u, i];
      AppendTwo(old(host.trace), rounds, u, i);
      EndsWithInspection(rounds, g, u, i, attempt);
      NoPauseAdded(rounds, [u, i], retryInterval);
      match inspected
      case InspectRaises => return Raised, calls;
      case Unreadable => return Failed, calls;
      case Shown(limits) =>
        if limits == want {
          return Verified(attempt), calls;
        }
        if updated.code == 0 {
          return Failed, calls;
        }
        var now := host.Now();
        var remaining := deadline - now;
        if remaining <= 0.0 {
          return Failed, calls;
        }
        var pause := if retryInterval <= remaining then retryInterval else remaining;
        ElapsedGrows(tried, retryInterval, deadlineSeconds, spent, now - begin);
        EarlierThanDeadline(tried, retryInterval, deadlineSeconds, now - begin);
        host.SleepFor(pause);
        PauseAdvances(tried, retryInterval, deadlineSeconds, now - begin, host.clock - begin);
        calls := rounds + [u, i, Sleep(pause)];
        AppendThree(old(host.trace), rounds, u, i, Sleep(pause));
        RoundsAgain(rounds, g, [u, i, Sleep(pause)]);
        PauseAdded(rounds, u, i, pause, retryInterval, host.clock >= deadline);
    }
  }

  lemma AppendTwo(before: seq<Call>, t: seq<Call>, u: Call, i: Call)
    ensures before + (t + [u]) + [i] == before + (t + [u, i])
  {
  }

  lemma AppendThree(before: seq<Call>, t: seq<Call>, u: Call, i: Call, p: Call)
    ensures before + (t + [u, i]) + [p] == before + (t + [u, i, p])
  {
  }

  lemma NoPauseAdded(t: seq<Call>, more: seq<Call>, interval: real)
    requires OnlyLastPauseIsShort(t, interval)
    requires forall k | 0 <= k < |more| :: !more[k].Sleep?
    ensures OnlyLastPauseIsShort(t + more, interval)
  {
  }

  lemma PauseAdded(t: seq<Call>, u: Call, i: Call, pause: real, interval: real, late: bool)
    requires PausesSoFar(t, interval, false) && !u.Sleep? && !i.Sleep?
    requires late || pause == interval
    ensures PausesSoFar(t + [u, i, Sleep(pause)], interval, late)
  {
    var all := t + [u, i, Sleep(pause)];
    assert all[|t|] == u && all[|t| + 1] == i && all[|t| + 2] == Sleep(pause);
    assert forall k | 0 <= k < |t| :: all[k] == t[k];
  }

  lemma EndsWithUpdate(rounds: seq<Call>, g: Goal, u: Call)
    requires Rounds(rounds, g) && u.Update? && u.command == g.command
    ensures u.updated.UpdateRaises? ==> UpdateTrace(rounds + [u], g, Raised)
    ensures u.updated.Completed? && u.updated.code != 0 && !u.updated.transientRace ==>
              UpdateTrace(rounds + [u], g, Failed)
    ensures Updates(rounds + [u]) == Updates(rounds) + 1
  {
    RoundsThen(rounds, g, [u], Raised);
    RoundsThen(rounds, g, [u], Failed);
  }

  lemma EndsWithInspection(rounds: seq<Call>, g: Goal, u: Call, i: Call, attempts: nat)
    requires Rounds(rounds, g) && u.Update? && u.command == g.command && i.Inspect?
    requires u.updated.Completed? && (u.updated.code == 0 || u.updated.transientRace)
    ensures UpdateTrace(rounds + [u, i], g,
                        match i.inspected
                        case InspectRaises => Raised
                        case Unreadable => Failed
                        case Shown(limits) => if limits == g.want then Verified(attempts) else Failed)
    ensures Updates(rounds + [u, i]) == Updates(rounds) + 1
  {
    RoundsThen(rounds, g, [u, i], Raised);
    RoundsThen(rounds, g, [u, i], Failed);
    RoundsThen(rounds, g, [u, i], Verified(attempts));
    assert [u, i][1..] == [i] && [i][1..] == [];
    assert Updates([i]) == 0;
    assert Updates([u, i]) == 1;
  }

  /** Nothing but retried attempts so far. */
  ghost predicate Rounds(t: seq<Call>, g: Goal) {
    t == [] || (RetriedAttempt(t, g) && Rounds(t[3..], g))
  }

  lemma {:induction false} RoundsThen(t: seq<Call>, g: Goal, last: seq<Call>, outcome: Outcome)
    requires Rounds(t, g)
    ensures LastAttempt(last, g, outcome) ==> UpdateTrace(t + last, g, outcome)
    ensures Updates(t + last) == Updates(t) + Updates(last)
  {
    if t == [] {
      assert t + last == last;
    } else {
      assert (t + last)[3..] == t[3..] + last;
      RoundsThen(t[3..], g, last, outcome);
      UpdatesSkip(t);
      UpdatesSkip(t + last);
    }
  }

  lemma UpdatesSkip(t: seq<Call>)
    requires |t| >= 3 && t[0].Update? && t[1].Inspect? && t[2].Sleep?
    ensures Updates(t) == 1 + Updates(t[3..])
  {
    assert Updates(t[2..]) == Updates(t[3..]) by {
      assert t[2..][1..] == t[3..];
    }
    assert Updates(t[1..]) == Updates(t[2..]) by {
      assert t[1..][1..] == t[2..];
    }
  }

  lemma {:induction false} RoundsAgain(t: seq<Call>, g: Goal, more: seq<Call>)
    requires Rounds(t, g) && |more| == 3 && RetriedAttempt(more, g)
    ensures Rounds(t + more, g) && Updates(t + more) == Updates(t) + 1
  {
    if t == [] {
      assert t + more == more && more[3..] == [];
      UpdatesSkip(more);
    } else {
      assert (t + more)[3..] == t[3..] + more;
      RoundsAgain(t[3..], g, more);
      UpdatesSkip(t);
      UpdatesSkip(t + more);
    }
  }

  /** `Ceiling` is the least integer that is not below its argument. */
  lemma CeilingMeaning(x: real, n: int)
    ensures x <= Ceiling(x) as real
    ensures Ceiling(x) <= n <==> x <= n as real
  {
  }

  lemma CeilingPositive(d: real, i: real)
    requires i > 0.0
    ensures d > 0.0 ==> Ceiling(d / i) >= 1
  {
    if d > 0.0 {
      assert d / i > 0.0;
    }
  }

  /** Before an attempt: the deadline has passed, or every attempt so far took an interval. */
  predicate Elapsed(elapsed: real, attempts: nat, interval: real, deadline: real) {
    elapsed >= 0.0 && (elapsed >= deadline || elapsed >= attempts as real * interval)
  }

  lemma ElapsedGrows(attempts: nat, interval: real, deadline: real, elapsed: real, elapsed': real)
    requires Elapsed(elapsed, attempts, interval, deadline) && elapsed <= elapsed'
    ensures Elapsed(elapsed', attempts, interval, deadline)
  {
  }

  /** While the deadline lies ahead, fewer attempts were made than intervals fit before it. */
  lemma EarlierThanDeadline(attempts: nat, interval: real, deadline: real, elapsed: real)
    requires interval > 0.0 && elapsed < deadline
    requires Elapsed(elapsed, attempts, interval, deadline)
    ensures deadline > 0.0 && attempts + 1 <= Ceiling(deadline / interval)
  {
    var q := deadline / interval;
    assert q * interval == deadline;
    assert (q - attempts as real) * interval == q * interval - attempts as real * interval;
    ProductSign(q - attempts as real, interval);
  }

  lemma PauseAdvances(attempts: nat, interval: real, deadline: real, elapsed: real, elapsed': real)
    requires interval > 0.0 && elapsed < deadline
    requires Elapsed(elapsed, attempts, interval, deadline)
    requires elapsed' >= elapsed + if interval <= deadline - elapsed then interval else deadline - elapsed
    ensures Elapsed(elapsed', attempts + 1, interval, deadline)
  {
    assert (attempts + 1) as real * interval == attempts as real * interval + interval;
  }

  lemma ProductSign(x: real, y: real)
    requires y > 0.0
    ensures x <= 0.0 ==> x * y <= 0.0
  {
  }

  // ---------- What the calls of a verified update show ----------

  /** Success is never inferred: a verified update ends with an inspection that shows the wanted limits. */
  lemma {:induction false} VerifiedMeansInspected(t: seq<Call>, g: Goal, outcome: Outcome)
    requires UpdateTrace(t, g, outcome)
    ensures t != [] && t[0].Update? && t[0].command == g.command
    ensures outcome.Verified? <==> t[|t| - 1] == Inspect(Shown(g.want))
  {
    if !LastAttempt(t, g, outcome) {
      VerifiedMeansInspected(t[3..], g, outcome);
      assert t[3..][|t| - 4] == t[|t| - 1];
    }
  }

  lemma {:induction false} EveryUpdateAsks(t: seq<Call>, g: Goal, outcome: Outcome, k: nat)
    requires UpdateTrace(t, g, outcome) && k < |t| && t[k].Update?
    ensures t[k].command == g.command
  {
    if k > 0 {
      EveryUpdateAsks(t[3..], g, outcome, k - 3);
    }
  }

  /** An update is followed by another only after it failed with the transient race and an
      inspection showed other limits; so never after any other failure, nor after a mismatch
      that follows a successful update. */
  lemma {:induction false} RetriesOnlyTransientRaces(t: seq<Call>, g: Goal, outcome: Outcome, j: nat, k: nat)
    requires UpdateTrace(t, g, outcome)
    requires j < k < |t| && t[j].Update? && t[k].Update?
    ensures IsTransient(t[j].updated)
    ensures t[j + 1].Inspect? && t[j + 1].inspected.Shown? && t[j + 1].inspected.limits != g.want
    ensures t[j + 2].Sleep? && j + 2 < k && t[k].command == g.command
  {
    if j == 0 {
      EveryUpdateAsks(t, g, outcome, k);
    } else {
      RetriesOnlyTransientRaces(t[3..], g, outcome, j - 3, k - 3);
    }
  }

  // ---------- The temporary shrink ----------

  /** Whose result or exception the caller gets. `FromRestore`'s `chained` says that the
      action's exception is attached as its cause. */
  datatype Result =
    | ActionResult
    | FromInspect
    | FromShrink(shrink: Outcome)
    | FromAction
    | FromRestore(restore: Outcome, chained: bool)

  /** The calls of the whole wrapper: up to the action, the action, and after it; `original`
      is what the container had at first. */
  datatype History = History(shrinking: seq<Call>, acting: seq<Call>, restoring: seq<Call>, original: Limits)

  /** The result that ends the wrapper before the action, if it does. */
  function Stop(result: Result): Option<Result> {
    if result.FromInspect? || result.FromShrink? then Some(result) else None
  }

  method WithMemoryShrinkRestored(host: Host, command: Command) returns (result: Result, ghost h: History)
    modifies host
    ensures host.trace == old(host.trace) + h.shrinking + (h.acting + h.restoring)
    ensures ShrinkTrace(h.shrinking, h.original, command, Stop(result))
    ensures RestoreTrace(h.acting, h.restoring, h.original, result)
    ensures GivesUp(h.shrinking, ShrinkGoal(command).want) || GivesUp(h.restoring, h.original) ==>
              host.clock >= old(host.clock) + RETRY_DEADLINE_SECONDS
  {
    var stop: Option<Result>;
    var original: Limits;
    ghost var shrinking: seq<Call>;
    stop, original, shrinking := InspectAndShrink(host, command);
    if stop.Some? {
      assert host.trace == old(host.trace) + shrinking + ([] + []);
      return stop.value, History(shrinking, [], [], original);
    }
    ghost var acting: seq<Call>;
    ghost var restoring: seq<Call>;
    result, acting, restoring := ActAndRestore(host, original);
    h := History(shrinking, acting, restoring, original);
  }

  /** The wrapper up to the action. */
  method InspectAndShrink(host: Host, command: Command)
    returns (stop: Option<Result>, original: Limits, ghost shrinking: seq<Call>)
    modifies host
    ensures host.trace == old(host.trace) + shrinking
    ensures stop.Some? ==> Stop(stop.value) == stop
    ensures ShrinkTrace(shrinking, original, command, stop)
    ensures host.clock >=
            old(host.clock) + if GivesUp(shrinking, ShrinkGoal(command).want) then RETRY_DEADLINE_SECONDS else 0.0
    ensures Updates(shrinking) <= 21
  {
    original := Limits(None, None);
    var inspected := host.DockerInspect();
    if !inspected.Shown? {
      return Some(FromInspect), original, [Inspect(inspected)];
    }
    original := inspected.limits;
    var shrink: Outcome;
    ghost var calls: seq<Call>;
    shrink, calls := UpdateVerified(host, command, Limits(None, None), RETRY_DEADLINE_SECONDS, RETRY_INTERVAL_SECONDS);
    shrinking := [Inspect(inspected)] + calls;
    stop := if shrink.Verified? then None else Some(FromShrink(shrink));
    Associate(old(host.trace), [Inspect(inspected)], calls);
    CeilingMeaning(RETRY_DEADLINE_SECONDS / RETRY_INTERVAL_SECONDS, 20);
    GivesUpBehind(Inspect(inspected), calls, ShrinkGoal(command).want);
    ShrinkCalls(original, calls, command, shrink);
  }

  lemma ShrinkCalls(original: Limits, calls: seq<Call>, command: Command, shrink: Outcome)
    requires UpdateCalls(calls, ShrinkGoal(command), shrink)
    requires shrink.Verified? ==> shrink.attempts == Updates(calls)
    ensures var t := [Inspect(Shown(original))] + calls;
            ShrinkTrace(t, original, command, if shrink.Verified? then None else Some(FromShrink(shrink)))
  {
    var t := [Inspect(Shown(original))] + calls;
    assert t[1..] == calls;
    assert shrink.Verified? ==> shrink == Verified(Updates(calls));
  }

  lemma GivesUpBehind(first: Call, calls: seq<Call>, want: Limits)
    requires !first.Update?
    ensures GivesUp([first] + calls, want) ==> GivesUp(calls, want)
    ensures Updates([first] + calls) == Updates(calls)
  {
    assert ([first] + calls)[1..] == calls;
  }

  /** The wrapper from the action on: whatever the action does, the restore follows. */
  method ActAndRestore(host: Host, original: Limits)
    returns (result: Result, ghost acting: seq<Call>, ghost restoring: seq<Call>)
    modifies host
    ensures host.trace == old(host.trace) + (acting + restoring)
    ensures !result.FromInspect? && !result.FromShrink?
    ensures RestoreTrace(acting, restoring, original, result)
    ensures host.clock >= old(host.clock) + if GivesUp(restoring, original) then RETRY_DEADLINE_SECONDS else 0.0
    ensures Updates(restoring) <= 21
  {
    var succeeds := host.RunAction();
    acting := [Action(succeeds)];
    var restore: Outcome;
    restore, restoring := UpdateVerified(
      host, RestoreCommand(original), original, RETRY_DEADLINE_SECONDS, RETRY_INTERVAL_SECONDS);
    Associate(old(host.trace), acting, restoring);
    CeilingMeaning(RETRY_DEADLINE_SECONDS / RETRY_INTERVAL_SECONDS, 20);
    RestoreCalls(succeeds, restoring, restore, original);
    if !restore.Verified? {
      result := FromRestore(restore, restore.Failed? && !succeeds);
    } else if !succeeds {
      result := FromAction;
    } else {
      result := ActionResult;
    }
  }

  lemma RestoreCalls(succeeds: bool, calls: seq<Call>, restore: Outcome, original: Limits)
    requires UpdateCalls(calls, RestoreGoal(original), restore)
    requires restore.Verified? ==> restore.attempts == Updates(calls)
    ensures RestoreTrace([Action(succeeds)], calls, original,
                         if !restore.Verified? then FromRestore(restore, restore.Failed? && !succeeds)
                         else if !succeeds then FromAction
                         else ActionResult)
    ensures GivesUp(calls, original) ==> RestoreGoal(original).want == original
  {
    assert restore.Verified? ==> restore == Verified(Updates(calls));
    WantedToRestore(original);
  }

  /** `str(value)` of what HostConfig holds. */
  function LimitString(value: Option<int>): string {
    if value.None? then "None" else IntString(value.value)
  }

  function RestoreCommand(original: Limits): Command {
    Command(LimitString(original.memory), LimitString(original.swap))
  }

  function ShrinkGoal(command: Command): Goal {
    Goal(command, Wanted(command, Limits(None, None)), RETRY_INTERVAL_SECONDS)
  }

  function RestoreGoal(original: Limits): Goal {
    Goal(RestoreCommand(original), Wanted(RestoreCommand(original), original), RETRY_INTERVAL_SECONDS)
  }

  /** What happens up to the action, and when the action is not reached. */
  predicate ShrinkTrace(t: seq<Call>, original: Limits, command: Command, stop: Option<Result>) {
    && t != [] && t[0].Inspect?
    && (stop == Some(FromInspect) <==> !t[0].inspected.Shown?)
    && if stop == Some(FromInspect) then |t| == 1 else
         && original == t[0].inspected.limits
         && (stop.Some? ==> stop.value.FromShrink? && !stop.value.shrink.Verified?)
         && UpdateCalls(t[1..], ShrinkGoal(command),
                        if stop.Some? then stop.value.shrink else Verified(Updates(t[1..])))
  }

  /** What happens from the action on. */
  predicate RestoreTrace(acting: seq<Call>, restoring: seq<Call>, original: Limits, result: Result) {
    if result.FromInspect? || result.FromShrink? then acting == [] && restoring == []
    else
      && |acting| == 1 && acting[0].Action?
      && (result.ActionResult? ==> acting[0].succeeds)
      && (result.FromAction? ==> !acting[0].succeeds)
      && (result.FromRestore? ==>
            !result.restore.Verified? && (result.chained <==> result.restore.Failed? && !acting[0].succeeds))
      && UpdateCalls(restoring, RestoreGoal(original),
                     if result.FromRestore? then result.restore else Verified(Updates(restoring)))
  }

  /** A limit missing from HostConfig has no representation that could be restored. */
  lemma WantedToRestore(original: Limits)
    ensures var want := Wanted(RestoreCommand(original), original);
            if Known(original) then want == original else !Known(want)
  {
    TrimmedIsStripped("None");
    TrimmedIsStripped("Non");
  }

  /** The action is reached exactly when an inspection showed the smaller limits. */
  lemma ShrinkIsVerified(t: seq<Call>, original: Limits, command: Command, stop: Option<Result>)
    requires ShrinkTrace(t, original, command, stop)
    ensures stop.None? <==> |t| > 1 && t[|t| - 1] == Inspect(Shown(Wanted(command, Limits(None, None))))
  {
    if |t| > 1 {
      var outcome := if stop.Some? then stop.value.shrink else Verified(Updates(t[1..]));
      VerifiedMeansInspected(t[1..], ShrinkGoal(command), outcome);
      assert t[1..][|t| - 2] == t[|t| - 1];
    }
  }

  /** The limits that the script asks for in its persistent-failure scenario: the action is reached exactly
      when an inspection showed 6291456 bytes for both. */
  lemma SixMegabytes(t: seq<Call>, original: Limits, stop: Option<Result>)
    ensures Wanted(Command("6m", "6m"), Limits(None, None)) == Limits(Some(6291456), Some(6291456))
    ensures ShrinkTrace(t, original, Command("6m", "6m"), stop) ==>
              (stop.None? <==> |t| > 1 && t[|t| - 1] == Inspect(Shown(Limits(Some(6291456), Some(6291456)))))
  {
    SixMegabytesInBytes();
    if ShrinkTrace(t, original, Command("6m", "6m"), stop) {
      ShrinkIsVerified(t, original, Command("6m", "6m"), stop);
    }
  }

  lemma SixMegabytesInBytes()
    ensures MemoryBytes("6m") == Some(6291456)
  {
    assert IntString(6) == "6";
    MemoryBytesOfIntString(6);
    assert "6" + "m" == "6m";
  }

  /** Limits that the caller gives are the ones verified; the command's own count where it gives none. */
  lemma ExpectedLimitsCount(command: Command, memory: int, swap: int)
    ensures Wanted(command, Limits(Some(memory), Some(swap))) == Limits(Some(memory), Some(swap))
    ensures Wanted(Command(IntString(memory), IntString(swap)), Limits(None, None)) == Limits(Some(memory), Some(swap))
  {
    MemoryBytesOfIntString(memory);
    MemoryBytesOfIntString(swap);
  }

  /** The restore guarantee, once the action has run. A restore is attempted if and only if the original
      limits were known, and asks for exactly those. The caller gets the action's result or the action's own
      exception exactly when the last call was an inspection that showed the original limits; otherwise
      the caller gets the restore's failure, with the action's exception, if any, as its cause. */
  lemma RestoreGuarantee(acting: seq<Call>, restoring: seq<Call>, original: Limits, result: Result)
    requires RestoreTrace(acting, restoring, original, result) && acting != []
    ensures restoring != [] <==> Known(original)
    ensures restoring != [] ==>
              && restoring[0].Update?
              && MemoryBytes(restoring[0].command.memory) == original.memory
              && MemoryBytes(restoring[0].command.swap) == original.swap
    ensures result == (if acting[0].succeeds then ActionResult else FromAction) <==>
              restoring != [] && restoring[|restoring| - 1] == Inspect(Shown(original))
    ensures result != (if acting[0].succeeds then ActionResult else FromAction) ==>
              result.FromRestore? && (result.chained <==> result.restore.Failed? && !acting[0].succeeds)
  {
    WantedToRestore(original);
    if Known(original) {
      var outcome := if result.FromRestore? then result.restore else Verified(Updates(restoring));
      VerifiedMeansInspected(restoring, RestoreGoal(original), outcome);
      MemoryBytesOfIntString(original.memory.value);
      MemoryBytesOfIntString(original.swap.value);
    }
  }
}
