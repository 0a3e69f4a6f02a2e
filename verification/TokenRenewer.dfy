/** The client's token renewer: a loop that renews on signals from timers and from
    rejected requests, where a signal is dropped unless the loop is waiting
    (tokenrenewer.go). Times are nanoseconds. */
module TokenRenewer {
  import opened Wrappers
  import opened Intervals
  import TokenCache

  const RENEW_BEFORE := 30 * SECOND
  const RETRY_INTERVAL := 10 * SECOND

  /** Arming: a timer has been set, the loop has not reached its select yet. */
  datatype Phase = Arming | Waiting | Renewing | Sleeping(until: int)

  datatype Attempt = Renewed(exp: int) | NoKites | Failed

  datatype State = State(now: int, validUntil: int, phase: Phase, timers: multiset<int>)

  /** renewDuration */
  function Delay(s: State): int { s.validUntil - RENEW_BEFORE - s.now }

  /** A timer set for duration d goes off after d, at once if d is not positive. */
  function Due(now: int, d: int): int { if d > 0 then now + d else now }

  /** renewLoop sets its first timer from the token the client has. */
  function Begin(now: int, validUntil: int): State
  {
    var s := State(now, validUntil, Arming, multiset{});
    s.(timers := multiset{Due(now, Delay(s))})
  }

  datatype Step = Tick(d: int) | Ready | Signal | Timer(t: int) | Attempted(a: Attempt) | Wake

  /** A token obtained at time now was issued by Kontrol at most latency before, with
      the validity that Kontrol gives every token it hands out. */
  predicate Issued(exp: int, now: int, leeway: int, latency: int)
  {
    exists issue: int | now - latency <= issue <= now :: ValidFrom(exp, issue, leeway)
  }

  predicate ValidFrom(exp: int, issue: int, leeway: int) { issue + 2 * leeway - SECOND < exp }

  ghost predicate Enabled(s: State, step: Step, leeway: int, latency: int)
  {
    match step
    case Tick(d) =>
      && d > 0 && !s.phase.Arming?
      && (forall t | t in s.timers :: s.now + d <= t)
      && (s.phase.Sleeping? ==> s.now + d <= s.phase.until)
    case Ready => s.phase.Arming?
    case Signal => true
    case Timer(t) => t in s.timers && t <= s.now
    case Attempted(a) => s.phase.Renewing? && (a.Renewed? ==> Issued(a.exp, s.now, leeway, latency))
    case Wake => s.phase.Sleeping? && s.now >= s.phase.until
  }

  /** sendRenewTokenSignal: lost unless the loop is waiting. */
  function Signalled(s: State): State { if s.phase.Waiting? then s.(phase := Renewing) else s }

  function Next(s: State, step: Step): State
  {
    match step
    case Tick(d) => s.(now := s.now + d)
    case Ready => s.(phase := Waiting)
    case Signal => Signalled(s)
    case Timer(t) => Signalled(s.(timers := s.timers - multiset{t}))
    case Attempted(Renewed(exp)) =>
      var r := s.(validUntil := exp, phase := Arming);
      r.(timers := r.timers + multiset{Due(r.now, Delay(r))})
    case Attempted(NoKites) => s.(phase := Waiting)
    case Attempted(Failed) => s.(phase := Sleeping(s.now + SECOND))
    case Wake => s.(timers := s.timers + multiset{s.now + RETRY_INTERVAL}, phase := Arming)
  }

  ghost predicate StepAt(run: seq<State>, steps: seq<Step>, i: nat, leeway: int, latency: int)
    requires |run| == |steps| + 1 && i < |steps|
  {
    Enabled(run[i], steps[i], leeway, latency) && run[i + 1] == Next(run[i], steps[i])
  }

  /** A run with its steps. */
  ghost predicate Run(run: seq<State>, steps: seq<Step>, now: int, validUntil: int, leeway: int, latency: int)
  {
    && |run| == |steps| + 1 && run[0] == Begin(now, validUntil)
    && forall i | 0 <= i < |steps| :: StepAt(run, steps, i, leeway, latency)
  }

  /** What the last attempt came to. */
  function LastAttempt(steps: seq<Step>): Option<Attempt>
  {
    if steps == [] then None
    else
      var step := steps[|steps| - 1];
      if step.Attempted? then Some(step.a) else LastAttempt(steps[..|steps| - 1])
  }

  /** When the token expires that was obtained last, the first one being given. */
  function Expiry(steps: seq<Step>, first: int): int
  {
    if steps == [] then first
    else
      var step := steps[|steps| - 1];
      if step.Attempted? && step.a.Renewed? then step.a.exp else Expiry(steps[..|steps| - 1], first)
  }

  /** At most ten seconds ahead, or thirty seconds before the token expires. */
  predicate Soon(now: int, until: int, t: int) { t <= now + 10 * SECOND || t <= until - 30 * SECOND }

  /** The loop will be woken: the last attempt reported that the kite is gone, or a
      timer is pending, at most ten seconds ahead or in time to renew. */
  ghost predicate Attended(s: State, last: Option<Attempt>, until: int)
  {
    last == Some(NoKites) || exists t | t in s.timers :: s.now <= t && Soon(s.now, until, t)
  }

  ghost predicate AttendedAt(run: seq<State>, steps: seq<Step>, first: int, i: nat)
    requires |run| == |steps| + 1 && i < |run|
  {
    run[i].phase.Waiting? ==> Attended(run[i], LastAttempt(steps[..i]), Expiry(steps[..i], first))
  }

  /** Whenever the loop waits it will be woken. */
  ghost predicate NeverQuiet(now: int, validUntil: int, leeway: int, latency: int)
  {
    forall run, steps, i: nat | Run(run, steps, now, validUntil, leeway, latency) && i < |run| :: AttendedAt(run, steps, validUntil, i)
  }

  /** Room for renewal in the validity of every issued token. */
  predicate Roomy(leeway: int, latency: int) { latency >= 0 && RENEW_BEFORE + SECOND + latency <= 2 * leeway }

  /** A successful renewal always leaves a positive delay: the loop does not spin. */
  lemma PositiveDelay(s: State, exp: int, leeway: int, latency: int)
    requires Roomy(leeway, latency) && Enabled(s, Attempted(Renewed(exp)), leeway, latency)
    ensures Delay(Next(s, Attempted(Renewed(exp)))) > 0
  {
    var issue: int :| s.now - latency <= issue <= s.now && ValidFrom(exp, issue, leeway);
  }

  ghost predicate Armed(s: State, until: int) { exists t | t in s.timers :: s.now < t && Soon(s.now, until, t) }

  ghost predicate Inv(s: State, last: Option<Attempt>, until: int)
  {
    s.validUntil == until && (s.phase.Waiting? ==> Attended(s, last, until)) && (s.phase.Arming? ==> Armed(s, until))
  }

  lemma InvTick(s: State, d: int, last: Option<Attempt>, until: int, leeway: int, latency: int)
    requires Inv(s, last, until) && Enabled(s, Tick(d), leeway, latency)
    ensures Inv(Next(s, Tick(d)), last, until)
  {
    var s' := Next(s, Tick(d));
    if s.phase.Waiting? && last != Some(NoKites) {
      var t :| t in s.timers && s.now <= t && Soon(s.now, until, t);
      assert t in s'.timers && s'.now <= t && Soon(s'.now, until, t);
    }
  }

  /** A timer going off does not take away one that is still to come. */
  lemma InvTimer(s: State, u: int, last: Option<Attempt>, until: int, leeway: int, latency: int)
    requires Inv(s, last, until) && Enabled(s, Timer(u), leeway, latency)
    ensures Inv(Next(s, Timer(u)), last, until)
  {
    var s' := Next(s, Timer(u));
    if s.phase.Arming? {
      var t :| t in s.timers && s.now < t && Soon(s.now, until, t);
      assert t in s'.timers && s'.now < t && Soon(s'.now, until, t);
    }
  }

  lemma InvRenewed(s: State, exp: int, leeway: int, latency: int)
    requires Roomy(leeway, latency) && Enabled(s, Attempted(Renewed(exp)), leeway, latency)
    ensures Inv(Next(s, Attempted(Renewed(exp))), Some(Renewed(exp)), exp)
  {
    var s' := Next(s, Attempted(Renewed(exp)));
    PositiveDelay(s, exp, leeway, latency);
    assert exp - RENEW_BEFORE in s'.timers && Soon(s'.now, exp, exp - RENEW_BEFORE);
  }

  lemma InvStep(s: State, step: Step, last: Option<Attempt>, until: int, leeway: int, latency: int)
    requires Roomy(leeway, latency) && Inv(s, last, until) && Enabled(s, step, leeway, latency)
    ensures Inv(Next(s, step), if step.Attempted? then Some(step.a) else last,
                if step.Attempted? && step.a.Renewed? then step.a.exp else until)
  {
    var s' := Next(s, step);
    match step
    case Tick(d) => InvTick(s, d, last, until, leeway, latency);
    case Timer(u) => InvTimer(s, u, last, until, leeway, latency);
    case Attempted(a) => if a.Renewed? { InvRenewed(s, a.exp, leeway, latency); }
    case Wake => assert s.now + RETRY_INTERVAL in s'.timers && Soon(s'.now, until, s.now + RETRY_INTERVAL);
    case _ => assert s'.timers == s.timers && s'.now == s.now && s'.validUntil == s.validUntil;
  }

  lemma {:induction false} InvAlways(run: seq<State>, steps: seq<Step>, now: int, validUntil: int, leeway: int, latency: int, i: nat)
    requires Roomy(leeway, latency) && now < validUntil - RENEW_BEFORE
    requires Run(run, steps, now, validUntil, leeway, latency) && i < |run|
    ensures Inv(run[i], LastAttempt(steps[..i]), Expiry(steps[..i], validUntil))
  {
    if i == 0 {
      assert validUntil - RENEW_BEFORE in run[0].timers && Soon(now, validUntil, validUntil - RENEW_BEFORE);
    } else {
      InvAlways(run, steps, now, validUntil, leeway, latency, i - 1);
      assert StepAt(run, steps, i - 1, leeway, latency);
      InvStep(run[i - 1], steps[i - 1], LastAttempt(steps[..i - 1]), Expiry(steps[..i - 1], validUntil), leeway, latency);
      assert steps[..i][..i - 1] == steps[..i - 1];
    }
  }

  /** The first signal is lost when the loop begins with a token that is within
      thirty seconds of expiry: the timer can go off before the loop waits. */
  lemma FirstSignalLost(now: int, validUntil: int, leeway: int, latency: int)
    requires now >= validUntil - RENEW_BEFORE
    ensures !NeverQuiet(now, validUntil, leeway, latency)
  {
    var s0 := Begin(now, validUntil);
    var s1 := Next(s0, Timer(now));
    var s2 := Next(s1, Ready);
    var run, steps := [s0, s1, s2], [Timer(now), Ready];
    assert StepAt(run, steps, 0, leeway, latency) && StepAt(run, steps, 1, leeway, latency);
    assert Run(run, steps, now, validUntil, leeway, latency);
    assert s2.timers == multiset{};
    assert steps[..2][..1][..0] == [] && LastAttempt(steps[..2][..1]) == None;
    assert !AttendedAt(run, steps, validUntil, 2);
  }

  /** Although signals may be dropped, the loop never goes quiet, exactly when it
      begins more than thirty seconds before its token expires. */
  lemma NeverQuietExactly(now: int, validUntil: int, leeway: int, latency: int)
    requires Roomy(leeway, latency)
    ensures NeverQuiet(now, validUntil, leeway, latency) <==> now < validUntil - 30 * SECOND
  {
    if now < validUntil - RENEW_BEFORE {
      forall run, steps, i: nat | Run(run, steps, now, validUntil, leeway, latency) && i < |run|
        ensures AttendedAt(run, steps, validUntil, i)
      {
        InvAlways(run, steps, now, validUntil, leeway, latency, i);
      }
    } else {
      FirstSignalLost(now, validUntil, leeway, latency);
    }
  }

  // -------------------------------------------------------------------- retries

  /** Since a failure at time t: the loop sleeps for a second, and then has a timer due
      at the latest eleven seconds after t until it renews again. */
  ghost predicate Retrying(s: State, t: int)
  {
    match s.phase
    case Sleeping(until) => s.now <= until == t + SECOND
    case Arming => t + SECOND <= s.now && exists u | u in s.timers :: s.now < u <= t + 11 * SECOND
    case Waiting => t + SECOND <= s.now && exists u | u in s.timers :: s.now <= u <= t + 11 * SECOND
    case Renewing => t + SECOND <= s.now
  }

  lemma RetryingStep(s: State, step: Step, t: int, leeway: int, latency: int)
    requires Retrying(s, t) && Enabled(s, step, leeway, latency) && !step.Attempted?
    ensures Retrying(Next(s, step), t)
  {
    var s' := Next(s, step);
    if s.phase.Arming? {
      var u :| u in s.timers && s.now < u <= t + 11 * SECOND;
      assert u in s'.timers;
    }
    if s.phase.Waiting? && s'.phase.Waiting? {
      var u :| u in s.timers && s.now <= u <= t + 11 * SECOND;
      assert u in s'.timers;
    }
    if step.Wake? { assert s.now + RETRY_INTERVAL in s'.timers; }
  }

  /** After a failed attempt at step i, and until the next one, the loop does not renew
      for a second, and when it waits it has a timer due at the latest eleven seconds
      after the failure. */
  lemma {:induction false} FailureRetried(run: seq<State>, steps: seq<Step>, now: int, validUntil: int, leeway: int, latency: int, i: nat, j: nat)
    requires Run(run, steps, now, validUntil, leeway, latency) && i < j < |run| && steps[i] == Attempted(Failed)
    requires forall k | i < k < j :: !steps[k].Attempted?
    ensures Retrying(run[j], run[i].now)
    decreases j
  {
    assert StepAt(run, steps, j - 1, leeway, latency);
    if i + 1 < j {
      FailureRetried(run, steps, now, validUntil, leeway, latency, i, j - 1);
      RetryingStep(run[j - 1], steps[j - 1], run[i].now, leeway, latency);
    }
  }

  /** One round of a failing loop, from one attempt to the next: a second asleep, ten
      seconds waiting, and nothing left behind. */
  lemma RetryRound(s: State)
    requires s.phase.Renewing?
    ensures var waiting := Next(Next(Next(Next(s, Attempted(Failed)), Tick(SECOND)), Wake), Ready);
            && waiting == s.(now := s.now + SECOND, phase := Waiting, timers := s.timers + multiset{s.now + 11 * SECOND})
            && Next(Next(waiting, Tick(10 * SECOND)), Timer(s.now + 11 * SECOND)) == s.(now := s.now + 11 * SECOND)
  {
    assert s.timers + multiset{s.now + 11 * SECOND} - multiset{s.now + 11 * SECOND} == s.timers;
  }

  /** Signals may come and due timers go off at any time. A loop whose kite is gone goes
      back to waiting and renews at the next signal; a signal that does not find the loop
      waiting is lost. */
  lemma SignalsWake(s: State, leeway: int, latency: int)
    ensures Enabled(s, Signal, leeway, latency)
    ensures forall t | t in s.timers && t <= s.now :: Enabled(s, Timer(t), leeway, latency)
    ensures s.phase.Sleeping? && s.phase.until <= s.now ==> Enabled(s, Wake, leeway, latency)
    ensures s.phase.Renewing? ==> Next(s, Attempted(NoKites)).phase.Waiting? && Next(Next(s, Attempted(NoKites)), Signal) == s
    ensures !s.phase.Waiting? ==> Next(s, Signal) == s
  {}

  /** With Kontrol's default TTL and leeway tokens are fresh, and there is room for a
      latency of nine minutes. */
  lemma ShippedRoom()
    ensures 0 <= TokenCache.TOKEN_LEEWAY <= TokenCache.TOKEN_TTL
    ensures Roomy(TokenCache.TOKEN_LEEWAY, 9 * 60 * SECOND)
  {}

  /** Kontrol's freshness bound is the validity the renewer counts on. */
  lemma FreshIsIssued(c: TokenCache.Terms, token: TokenCache.Token, issue: int, now: int, latency: int)
    requires TokenCache.Fresh(c, token, issue) && now - latency <= issue <= now
    ensures Issued(token.exp * SECOND, now, c.leeway, latency)
  {
    assert ValidFrom(token.exp * SECOND, issue, c.leeway);
  }
}
