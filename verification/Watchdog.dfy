/** The watchdog over a running agent: it polls the authorization grant and the
    run's state, and waits for the process half a second at a time. */
module Watchdog {
  import opened Text

  // ------------------------------------------------------------- reasons to stop

  datatype Expiry = Never | Invalid | At(time: real)
  datatype Grant = Unreadable | Readable(revoked: bool, expires: Expiry)
  datatype RunState = RunUnreadable | Status(status: string)

  datatype Reason = GrantUnreadable | GrantRevoked | ExpiryInvalid | GrantExpired | NoRun | RunIs(status: string)

  function KillSwitchReason(grant: Grant, now: real): Option<Reason> {
    match grant
    case Unreadable => Some(GrantUnreadable)
    case Readable(revoked, expires) =>
      if revoked then Some(GrantRevoked)
      else
        match expires
        case Never => None
        case Invalid => Some(ExpiryInvalid)
        case At(time) => if now >= time then Some(GrantExpired) else None
  }

  function RunStateReason(run: RunState): Option<Reason> {
    match run
    case RunUnreadable => Some(NoRun)
    case Status(status) => if status == "active" then None else Some(RunIs(if status == "" then "not active" else status))
  }

  /** What the files hold at each moment, and when the process ends by itself. */
  datatype World = World(grant: real -> Grant, run: Option<real -> RunState>, exit: Option<real>)

  /** The reason a poll at this moment finds, if any. */
  function Found(w: World, now: real): Option<Reason> {
    var reason := KillSwitchReason(w.grant(now), now);
    if reason.None? && w.run.Some? then RunStateReason(w.run.value(now)) else reason
  }

  /** The grant is readable, not revoked, and not yet past a valid expiry. */
  predicate Granted(g: Grant, now: real) {
    g.Readable? && !g.revoked && !g.expires.Invalid? && (g.expires.At? ==> now < g.expires.time)
  }

  /** Grant and run allow the agent to go on. */
  predicate InOrder(w: World, now: real) {
    Granted(w.grant(now), now) && (w.run.Some? ==> w.run.value(now) == Status("active"))
  }

  /** The reason is one the files give, the grant's before the run's. */
  predicate Given(w: World, now: real, reason: Reason) {
    var g := w.grant(now);
    match reason
    case GrantUnreadable => g.Unreadable?
    case GrantRevoked => g.Readable? && g.revoked
    case ExpiryInvalid => g.Readable? && !g.revoked && g.expires.Invalid?
    case GrantExpired => g.Readable? && !g.revoked && g.expires.At? && g.expires.time <= now
    case NoRun => Granted(g, now) && w.run.Some? && w.run.value(now).RunUnreadable?
    case RunIs(text) =>
      Granted(g, now) && w.run.Some? && w.run.value(now).Status? && w.run.value(now).status != "active"
      && text == if w.run.value(now).status == "" then "not active" else w.run.value(now).status
  }

  /** A poll finds no reason exactly when all is in order, else the one that is given. */
  lemma FoundIff(w: World, now: real)
    ensures Found(w, now).None? <==> InOrder(w, now)
    ensures Found(w, now).Some? ==> Given(w, now, Found(w, now).value)
  {
  }

  // ---------------------------------------------------------------- the loop

  datatype Outcome = Completed(at: real) | Stopped(reason: Reason, at: real) | TimedOut(at: real)

  function Step(remaining: real): real { if remaining < 0.5 then remaining else 0.5 }

  /** The process ends within a wait from `clock` of this length. */
  predicate Ends(w: World, clock: real, length: real) {
    w.exit.Some? && w.exit.value <= clock + length
  }

  /** Half seconds left, rounded up. */
  function Waits(remaining: real): (n: nat)
    ensures remaining > 0.0 ==> n > 0 && (n as real) - 1.0 < 2.0 * remaining <= n as real
    ensures remaining <= 0.0 ==> n == 0
  {
    if remaining <= 0.0 then 0
    else
      var f := (2.0 * remaining).Floor;
      if f as real == 2.0 * remaining then f else f + 1
  }

  lemma OneWaitLess(remaining: real)
    requires remaining > 0.0
    ensures Waits(remaining - Step(remaining)) == Waits(remaining) - 1
  {
  }

  /** The moments polled, and how the run ends. */
  function Watched(w: World, clock: real, deadline: real): (seq<real>, Outcome)
    decreases Waits(deadline - clock)
  {
    var reason, remaining := Found(w, clock), deadline - clock;
    if reason.Some? then ([clock], Stopped(reason.value, clock))
    else if remaining <= 0.0 then ([clock], TimedOut(clock))
    else if Ends(w, clock, Step(remaining)) then
      ([clock], Completed(if w.exit.value > clock then w.exit.value else clock))
    else
      OneWaitLess(remaining);
      var (polls, outcome) := Watched(w, clock + Step(remaining), deadline);
      ([clock] + polls, outcome)
  }

  /** `run_agent_process` from its start at `clock`; waiting is what takes time. */
  method RunAgentProcess(w: World, start: real, timeout: real) returns (outcome: Outcome, ghost polls: seq<real>)
    ensures outcome == Watched(w, start, start + timeout).1
    ensures polls == Watched(w, start, start + timeout).0
  {
    hide Waits;
    var clock, deadline := start, start + timeout;
    polls := [];
    assert [] + Watched(w, start, deadline).0 == Watched(w, start, deadline).0;
    while true
      invariant Watched(w, start, deadline).0 == polls + Watched(w, clock, deadline).0
      invariant Watched(w, start, deadline).1 == Watched(w, clock, deadline).1
      decreases Waits(deadline - clock)
    {
      ghost var rest := Watched(w, clock, deadline).0;
      assert rest == [clock] + rest[1..];
      Assoc(polls, [clock], rest[1..]);
      polls := polls + [clock];
      var reason := KillSwitchReason(w.grant(clock), clock);
      if reason.None? && w.run.Some? { reason := RunStateReason(w.run.value(clock)); }
      if reason.Some? { return Stopped(reason.value, clock), polls; }
      var remaining := deadline - clock;
      if remaining <= 0.0 { return TimedOut(clock), polls; }
      var wait := Step(remaining);
      if Ends(w, clock, wait) {
        return Completed(if w.exit.value > clock then w.exit.value else clock), polls;
      }
      OneWaitLess(remaining);
      clock := clock + wait;
    }
  }

  // ----------------------------------------------------------------- the bounds

  /** At most ceil(2 * timeout) + 1 polls; from the start, never more than half a
      second apart, and none behind the deadline. */
  lemma {:induction false} PollsAreBounded(w: World, clock: real, deadline: real)
    ensures var polls := Watched(w, clock, deadline).0;
      && 0 < |polls| <= Waits(deadline - clock) + 1 && polls[0] == clock
      && (forall i :: 0 <= i < |polls| - 1 ==> polls[i] < polls[i + 1] <= polls[i] + 0.5)
      && (forall i :: 0 < i < |polls| ==> polls[i] <= deadline)
    decreases Waits(deadline - clock)
  {
    var remaining := deadline - clock;
    if Found(w, clock).None? && remaining > 0.0 && !Ends(w, clock, Step(remaining)) {
      OneWaitLess(remaining);
      PollsAreBounded(w, clock + Step(remaining), deadline);
    }
  }

  /** The run ends at its last poll, or while the process is waited for behind it:
      at every poll before that all was in order, and at the last unless it stopped,
      which was then for a reason that was given. */
  lemma {:induction false} EndsAfterLastPoll(w: World, clock: real, deadline: real)
    ensures var (polls, outcome) := Watched(w, clock, deadline);
      var last := polls[|polls| - 1];
      && last <= outcome.at <= last + 0.5
      && (!outcome.Completed? ==> outcome.at == last)
      && (forall i :: 0 <= i < |polls| - 1 ==> InOrder(w, polls[i]))
      && (outcome.Stopped? <==> !InOrder(w, last))
      && (outcome.Stopped? ==> Given(w, last, outcome.reason))
    decreases Waits(deadline - clock)
  {
    FoundIff(w, clock);
    hide Found, InOrder, Given;
    PollsAreBounded(w, clock, deadline);
    var remaining := deadline - clock;
    if Found(w, clock).None? && remaining > 0.0 && !Ends(w, clock, Step(remaining)) {
      OneWaitLess(remaining);
      EndsAfterLastPoll(w, clock + Step(remaining), deadline);
    }
  }

  /** A result is returned only if no more than half a second earlier, at a poll,
      grant and run were in order. */
  lemma CompletedWasRecentlyGood(w: World, start: real, timeout: real)
    ensures var (polls, outcome) := Watched(w, start, start + timeout);
      outcome.Completed? ==>
        exists p :: p in polls && p <= outcome.at <= p + 0.5 && InOrder(w, p)
  {
    EndsAfterLastPoll(w, start, start + timeout);
    PollsAreBounded(w, start, start + timeout);
    var polls := Watched(w, start, start + timeout).0;
    assert polls[|polls| - 1] in polls;
  }

  /** What is out of order from `since` on ends the run within half a
      second; by stopping it, if the process and the deadline leave that long. */
  lemma PersistingReasonIsActedOn(w: World, start: real, timeout: real, since: real)
    requires start <= since && forall t :: t >= since ==> !InOrder(w, t)
    ensures var outcome := Watched(w, start, start + timeout).1;
      && (outcome.at > since ==> outcome.at <= since + 0.5)
      && (w.exit.None? || w.exit.value > since + 0.5 ==> start + timeout > since + 0.5 ==> outcome.Stopped?)
  {
    var deadline := start + timeout;
    EndsAfterLastPoll(w, start, deadline);
    PollsAreBounded(w, start, deadline);
    var (polls, outcome) := Watched(w, start, deadline);
    var n := |polls| - 1;
    var last := polls[n];
    if last > since {
      LastPollIsFirstBehind(w, start, deadline, since);
    }
    EndsInTime(w, start, deadline);
  }

  /** Of the polls, only the last can lie behind that moment. */
  lemma LastPollIsFirstBehind(w: World, start: real, deadline: real, since: real)
    requires start <= since && forall t :: t >= since ==> !InOrder(w, t)
    ensures var polls := Watched(w, start, deadline).0;
      |polls| > 0 && polls[|polls| - 1] <= since + 0.5
  {
    EndsAfterLastPoll(w, start, deadline);
    PollsAreBounded(w, start, deadline);
    var polls := Watched(w, start, deadline).0;
    var n := |polls| - 1;
    if n > 0 {
      assert InOrder(w, polls[n - 1]);
      assert polls[n - 1] < since;
      assert polls[n - 1 + 1] <= polls[n - 1] + 0.5;
    }
  }

  /** Only the process itself completes a run, and only the deadline times it out. */
  lemma {:induction false} EndsInTime(w: World, clock: real, deadline: real)
    ensures var outcome := Watched(w, clock, deadline).1;
      && (outcome.Completed? ==> w.exit.Some? && w.exit.value <= outcome.at && outcome.at <= deadline)
      && (outcome.TimedOut? ==> outcome.at >= deadline && (w.exit.None? || w.exit.value > deadline || clock >= deadline))
    decreases Waits(deadline - clock)
  {
    var remaining := deadline - clock;
    if Found(w, clock).None? && remaining > 0.0 && !Ends(w, clock, Step(remaining)) {
      OneWaitLess(remaining);
      EndsInTime(w, clock + Step(remaining), deadline);
    }
  }
}
