/** The lease of a kite registered over its websocket: heartbeats feed a ping
    channel, an updater goroutine turns some of them into store writes, stops when
    it misses them, and is restarted by a late heartbeat (kontrol/handlers.go). */
module WsLease {
  import opened Wrappers
  import opened OnceEvery
  import opened Intervals

  predicate Sane(c: Config) { c.updateInterval >= 0 && c.window >= 2 }

  /** One registered kite. expiry is when its stored record lapses, last the last
      write let through by the limiter, ping the one-place channel, closed the
      flag the updater sets when it gives up, handling whether a heartbeat callback
      holds the client lock, waiting when the updater's present wait began. */
  datatype State = State(now: int, expiry: int, last: Option<int>, ping: bool, closed: bool,
                         updaters: nat, handling: bool, waiting: int, lastBeat: int)

  function Registered(c: Config, t: int): State
  {
    State(t, t + c.ttl, None, false, false, 1, false, t, t)
  }

  datatype Step = Tick(d: int) | Beat | Revive | Take | GiveUp

  /** Goroutines are prompt: time passes only when no handler is at work and a
      running updater has nothing to take and is not past its timeout. */
  predicate Enabled(c: Config, s: State, step: Step)
  {
    match step
    case Tick(d) => d > 0 && !s.handling && (s.updaters > 0 ==> !s.ping && s.now + d <= s.waiting + c.window)
    case Beat => !s.handling
    case Revive => s.handling
    case Take => s.updaters > 0 && s.ping
    case GiveUp => s.updaters > 0 && s.now >= s.waiting + c.window
  }

  function Next(c: Config, s: State, step: Step): State
    requires Enabled(c, s, step)
  {
    match step
    case Tick(d) => s.(now := s.now + d)
    // the callback first offers a ping, which is dropped when one is waiting
    case Beat => s.(ping := true, handling := true, lastBeat := s.now)
    // then it swaps closed from 1 to 0, and if it could, adds the record again
    case Revive =>
      if s.closed then
        s.(closed := false, expiry := s.now + c.ttl, updaters := s.updaters + 1, waiting := s.now, handling := false)
      else s.(handling := false)
    case Take =>
      if Due(s.last, c.updateInterval, s.now)
      then s.(ping := false, last := Some(s.now), expiry := s.now + c.ttl, waiting := s.now)
      else s.(ping := false, waiting := s.now)
    case GiveUp => s.(closed := true, updaters := s.updaters - 1)
  }

  ghost predicate Run(c: Config, run: seq<State>)
  {
    && run != []
    && forall i | 0 <= i < |run| - 1 :: Linked(c, run[i], run[i + 1])
  }

  ghost predicate Linked(c: Config, a: State, b: State)
  {
    exists step :: Enabled(c, a, step) && b == Next(c, a, step)
  }

  predicate Live(s: State) { s.now < s.expiry }

  /** The last heartbeat (or the registration) is less than a window ago. */
  predicate Timely(c: Config, s: State) { s.now < s.lastBeat + c.window }

  ghost predicate AllTimely(c: Config, run: seq<State>) { forall i | 0 <= i < |run| :: Timely(c, run[i]) }

  ghost predicate AllLive(run: seq<State>) { forall i | 0 <= i < |run| :: Live(run[i]) }

  // ------------------------------------------------- what every step keeps

  /** Holds in every reachable state, however late heartbeats are: one updater runs
      unless the flag is set, a write never outlives its lease, and the record is
      gone one TTL after the last heartbeat. */
  predicate Inv(c: Config, s: State)
  {
    && s.updaters == (if s.closed then 0 else 1)
    && s.lastBeat <= s.now && s.waiting <= s.now
    && (s.handling ==> s.lastBeat == s.now && (s.closed ==> s.ping))
    && (s.handling && !s.ping ==> s.waiting == s.now)
    && (s.ping && !s.closed ==> s.lastBeat == s.now)
    && (s.last.Some? ==> s.last.value <= s.now && s.last.value + c.ttl <= s.expiry)
    && s.expiry <= s.lastBeat + c.ttl
  }

  lemma InvStep(c: Config, s: State, step: Step)
    requires Sane(c) && c.ttl >= 0 && Inv(c, s) && Enabled(c, s, step)
    ensures Inv(c, Next(c, s, step))
  {}

  /** A heartbeat leaves a ping and no flag behind; it starts an updater and adds the
      record again iff the flag was set. */
  lemma HandlerCompletes(c: Config, s: State)
    requires !s.handling
    ensures Enabled(c, s, Beat) && Enabled(c, Next(c, s, Beat), Revive)
    ensures var s' := Next(c, Next(c, s, Beat), Revive);
            && !s'.handling && !s'.closed && s'.ping && s'.lastBeat == s.now
            && s'.updaters == s.updaters + (if s.closed then 1 else 0)
            && s'.expiry == (if s.closed then s.now + c.ttl else s.expiry)
  {}

  /** An updater may take a ping while a handler is at work, and may give up although a
      ping is waiting. */
  lemma UpdaterChooses(c: Config, s: State)
    requires s.updaters > 0
    ensures s.ping ==> Enabled(c, s, Take) && !Next(c, s, Take).ping
    ensures s.now >= s.waiting + c.window ==>
              Enabled(c, s, GiveUp) && Next(c, s, GiveUp) == s.(closed := true, updaters := s.updaters - 1)
  {}

  lemma InvAlways(c: Config, run: seq<State>)
    requires Sane(c) && c.ttl >= 0 && Run(c, run) && Inv(c, run[0])
    ensures forall i | 0 <= i < |run| :: Inv(c, run[i])
  {
    for i := 1 to |run|
      invariant forall k | 0 <= k < i :: Inv(c, run[k])
    {
      assert Linked(c, run[i - 1], run[i]);
      var step :| Enabled(c, run[i - 1], step) && run[i] == Next(c, run[i - 1], step);
      InvStep(c, run[i - 1], step);
    }
  }

  /** The record survives until the next heartbeat is due: the updater runs, and
      the last heartbeat either is covered by the lease or is about to be taken. */
  predicate Covered(c: Config, s: State)
  {
    && Inv(c, s) && !s.closed && Live(s)
    && s.now < s.waiting + c.window
    && (!s.ping ==> s.lastBeat + c.window <= s.expiry && s.lastBeat <= s.waiting)
  }

  lemma CoveredStep(c: Config, s: State, step: Step)
    requires Sane(c) && c.updateInterval + c.window <= c.ttl
    requires Covered(c, s) && Enabled(c, s, step) && Timely(c, s) && Timely(c, Next(c, s, step))
    ensures Covered(c, Next(c, s, step))
  {
    InvStep(c, s, step);
  }

  /** Registration covers the kite, and so does the restart of the updater after
      any number of missed heartbeats. */
  lemma RestartCovers(c: Config, s: State, t: int)
    requires Sane(c) && c.updateInterval + c.window <= c.ttl
    ensures Covered(c, Registered(c, t))
    ensures Inv(c, s) && s.handling && s.closed ==> Covered(c, Next(c, s, Revive))
  {}

  /** From registration or restart onward, as long as heartbeats are less than a
      window apart, the stored record is live at every instant, although the
      limiter lets only some of the pings through to the store. */
  lemma LeaseHolds(c: Config, run: seq<State>)
    requires Sane(c) && c.updateInterval + c.window <= c.ttl
    requires Run(c, run) && Covered(c, run[0]) && AllTimely(c, run)
    ensures AllLive(run)
  {
    for i := 1 to |run|
      invariant Covered(c, run[i - 1]) && forall k | 0 <= k < i :: Live(run[k])
    {
      assert Linked(c, run[i - 1], run[i]) && Timely(c, run[i]) && Timely(c, run[i - 1]);
      var step :| Enabled(c, run[i - 1], step) && run[i] == Next(c, run[i - 1], step);
      CoveredStep(c, run[i - 1], step);
    }
  }

  // --------------------------------------------- the bound is exactly right

  /** Heartbeats every nanosecond up to time t: the limiter lets only the first
      one through. */
  function Drifted(c: Config, t: int): State
  {
    State(t, c.ttl, Some(0), false, false, 1, false, t, t)
  }

  ghost predicate Extends(c: Config, run: seq<State>, last: State)
  {
    Run(c, run) && AllTimely(c, run) && run[0] == Registered(c, 0) && run[|run| - 1] == last
  }

  /** A run of timely heartbeats from registration leads to s. */
  ghost predicate CanReach(c: Config, s: State) { exists run :: Extends(c, run, s) }

  lemma Extend(c: Config, at: State, step: Step, to: State)
    requires CanReach(c, at) && Enabled(c, at, step) && to == Next(c, at, step) && Timely(c, to)
    ensures CanReach(c, to)
  {
    var run :| Extends(c, run, at);
    var longer := run + [to];
    assert Linked(c, at, to);
    forall i | 0 <= i < |longer| - 1 ensures Linked(c, longer[i], longer[i + 1]) {
      if i < |run| - 1 { assert Linked(c, run[i], run[i + 1]); }
    }
    assert Extends(c, longer, to);
  }

  /** A heartbeat that finds the limiter closed, or opens it at time 0. */
  lemma Beats(c: Config, s: State, t: nat)
    requires Sane(c) && t <= c.updateInterval && CanReach(c, s)
    requires s == if t == 0 then Registered(c, 0) else Next(c, Drifted(c, t - 1), Tick(1))
    ensures CanReach(c, Drifted(c, t))
  {
    var s1 := Next(c, s, Beat);
    Extend(c, s, Beat, s1);
    var s2 := Next(c, s1, Revive);
    Extend(c, s1, Revive, s2);
    Extend(c, s2, Take, Drifted(c, t));
  }

  lemma {:induction false} Drift(c: Config, t: nat)
    requires Sane(c) && t <= c.updateInterval
    ensures CanReach(c, Drifted(c, t))
  {
    if t == 0 {
      assert Extends(c, [Registered(c, 0)], Registered(c, 0));
      Beats(c, Registered(c, 0), 0);
    } else {
      Drift(c, t - 1);
      var s := Next(c, Drifted(c, t - 1), Tick(1));
      Extend(c, Drifted(c, t - 1), Tick(1), s);
      Beats(c, s, t);
    }
  }

  ghost predicate NeverLapses(c: Config)
  {
    forall run | Run(c, run) && run[0] == Registered(c, 0) && AllTimely(c, run) :: AllLive(run)
  }

  /** Too short a TTL: there is a run of timely heartbeats on which the record lapses. */
  lemma Lapse(c: Config)
    requires Sane(c) && c.updateInterval + c.window > c.ttl
    ensures !NeverLapses(c)
  {
    var s := Drifted(c, c.updateInterval);
    Drift(c, c.updateInterval);
    var late := Next(c, s, Tick(c.window - 1));
    Extend(c, s, Tick(c.window - 1), late);
    var run :| Extends(c, run, late);
    assert !Live(run[|run| - 1]);
  }

  /** The record of every kite with timely heartbeats stays live exactly when
      UpdateInterval + HeartbeatInterval + HeartbeatDelay <= KeyTTL. */
  lemma LeaseExactly(c: Config)
    requires Sane(c)
    ensures NeverLapses(c) <==> c.updateInterval + c.window <= c.ttl
  {
    if c.updateInterval + c.window <= c.ttl {
      forall run | Run(c, run) && run[0] == Registered(c, 0) && AllTimely(c, run) ensures AllLive(run) {
        RestartCovers(c, run[0], 0);
        LeaseHolds(c, run);
      }
    } else {
      Lapse(c);
    }
  }

  /** The shipped constants meet the bound, with nothing to spare. */
  lemma ShippedIntervals()
    ensures NeverLapses(SHIPPED)
    ensures SHIPPED.updateInterval + SHIPPED.window == SHIPPED.ttl
    ensures !NeverLapses(SHIPPED.(ttl := SHIPPED.ttl - 1))
  {
    LeaseExactly(SHIPPED);
    LeaseExactly(SHIPPED.(ttl := SHIPPED.ttl - 1));
  }
}
