/** Kontrol's token cache: signing, caching, and invalidation by timers that may race
    with newer entries (kontrol/kontrol.go). Times are nanoseconds; the exp and nbf
    claims of sections 4.1.4 and 4.1.5 of RFC 7519 are whole seconds. */
module TokenCache {
  import opened Wrappers
  import opened Intervals

  /** tokenTTL and tokenLeeway, after zero has been replaced by the default. */
  datatype Terms = Terms(ttl: int, leeway: int, noNbf: bool)

  const TOKEN_TTL: int := 48 * 3600 * SECOND
  const TOKEN_LEEWAY: int := 5 * 60 * SECOND

  /** A signed token; serial tells tokens apart. */
  datatype Token = Token(serial: nat, signedAt: int, exp: int, nbf: Option<int>)

  /** Seconds since the epoch, rounded down. */
  function Unix(t: int): int { t / SECOND }

  function Sign(c: Terms, serial: nat, now: int): Token
  {
    Token(serial, now, Unix(now + c.ttl + c.leeway), if c.noNbf then None else Some(Unix(now - c.leeway)))
  }

  /** Fit for use at time t: already valid, and still valid for more than twice the
      leeway less one second. */
  predicate Fresh(c: Terms, token: Token, t: int)
  {
    && (token.nbf.Some? ==> token.nbf.value * SECOND <= t)
    && t + 2 * c.leeway - SECOND < token.exp * SECOND
  }

  datatype Phase = Armed | Pending | Over

  /** A timer that will delete a cache entry. Pending: its function has begun and
      waits for the mutex; Stop does not reach it any more. */
  datatype Timer = Timer(key: string, deadline: int, phase: Phase)

  datatype Entry = Entry(token: Token, timer: nat)

  datatype Reply = Reply(at: int, key: string, token: Token)

  /** latest is the last token signed for each key; log all tokens handed out. */
  datatype State = State(now: int, cache: map<string, Entry>, timers: seq<Timer>, serial: nat,
                         latest: map<string, Token>, log: seq<Reply>)

  // -------------------------------------------------------------- the steps

  function Stopped(timers: seq<Timer>, i: nat): seq<Timer>
  {
    if i < |timers| && timers[i].phase.Armed? then timers[i := timers[i].(phase := Over)] else timers
  }

  /** cacheToken: stop the timer of the entry that is replaced, store the new one. */
  function Cached(c: Terms, s: State, key: string, token: Token): State
  {
    var timers := if key in s.cache then Stopped(s.timers, s.cache[key].timer) else s.timers;
    s.(cache := s.cache[key := Entry(token, |timers|)],
       timers := timers + [Timer(key, s.now + c.ttl - c.leeway, Armed)])
  }

  /** generateToken when signing works. */
  function Generated(c: Terms, s: State, key: string, force: bool): State
  {
    if !force && key in s.cache then s.(log := s.log + [Reply(s.now, key, s.cache[key].token)])
    else
      var token := Sign(c, s.serial, s.now);
      Cached(c, s, key, token)
        .(serial := s.serial + 1, latest := s.latest[key := token], log := s.log + [Reply(s.now, key, token)])
  }

  datatype Step = Tick(d: int) | Request(key: string, force: bool) | Fire(i: nat) | Delete(i: nat)

  /** Timers are prompt: time does not pass while one is overdue or pending. */
  ghost predicate Enabled(s: State, step: Step)
  {
    match step
    case Tick(d) =>
      d > 0 && forall i | 0 <= i < |s.timers| ::
        !s.timers[i].phase.Pending? && (s.timers[i].phase.Armed? ==> s.now + d <= s.timers[i].deadline)
    case Request(_, _) => true
    case Fire(i) => i < |s.timers| && s.timers[i].phase.Armed? && s.now >= s.timers[i].deadline
    case Delete(i) => i < |s.timers| && s.timers[i].phase.Pending?
  }

  function Next(c: Terms, s: State, step: Step): State
    requires Enabled(s, step)
  {
    match step
    case Tick(d) => s.(now := s.now + d)
    case Request(key, force) => Generated(c, s, key, force)
    case Fire(i) => s.(timers := s.timers[i := s.timers[i].(phase := Pending)])
    case Delete(i) => s.(timers := s.timers[i := s.timers[i].(phase := Over)], cache := s.cache - {s.timers[i].key})
  }

  /** The methods of Kontrol that touch the cache, against those steps. */
  class Kontrol {
    const config: Terms
    var now: int
    var tokenCache: map<string, Entry>
    var timers: seq<Timer>
    var serial: nat
    ghost var latest: map<string, Token>
    ghost var log: seq<Reply>

    constructor (c: Terms, t: int)
      ensures config == c && Abs() == State(t, map[], [], 0, map[], [])
    {
      config, now, tokenCache, timers, serial, latest, log := c, t, map[], [], 0, map[], [];
    }

    ghost function Abs(): State
      reads this
    {
      State(now, tokenCache, timers, serial, latest, log)
    }

    method CacheToken(key: string, token: Token)
      modifies this
      ensures Abs() == Cached(config, old(Abs()), key, token)
    {
      if key in tokenCache {
        var i := tokenCache[key].timer;
        if i < |timers| && timers[i].phase.Armed? {
          timers := timers[i := timers[i].(phase := Over)];
        }
      }
      tokenCache := tokenCache[key := Entry(token, |timers|)];
      timers := timers + [Timer(key, now + config.ttl - config.leeway, Armed)];
    }

    /** signs tells whether key parsing, ID generation and signing succeed. */
    method GenerateToken(key: string, force: bool, signs: bool) returns (r: Result<Token>)
      modifies this
      ensures r.Ok? <==> signs || (!force && key in old(tokenCache))
      ensures Abs() == if r.Ok? then Generated(config, old(Abs()), key, force) else old(Abs())
      ensures r.Ok? ==> log == old(log) + [Reply(now, key, r.value)]
    {
      if !force && key in tokenCache {
        r := Ok(tokenCache[key].token);
      } else if !signs {
        return Err;
      } else {
        r := Ok(Sign(config, serial, now));
        CacheToken(key, r.value);
        serial := serial + 1;
        latest := latest[key := r.value];
      }
      log := log + [Reply(now, key, r.value)];
    }
  }

  // --------------------------------------------------------- over whole runs

  ghost predicate EntryOk(c: Terms, s: State, key: string)
    requires key in s.cache
  {
    var e := s.cache[key];
    && e.timer < |s.timers|
    && var t := s.timers[e.timer];
       && t.key == key && !t.phase.Over? && t.deadline == e.token.signedAt + c.ttl - c.leeway
       && key in s.latest && s.latest[key] == e.token
       && e.token.signedAt <= s.now && e.token == Sign(c, e.token.serial, e.token.signedAt)
  }

  /** Each cached token is the latest one signed for its key and has a timer that
      is armed or about to delete it; no timer is overdue; all tokens handed out
      were fresh when they were. */
  ghost predicate Inv(c: Terms, s: State)
  {
    && (forall key | key in s.cache :: EntryOk(c, s, key))
    && (forall a, b | a in s.cache && b in s.cache && a != b :: s.cache[a].timer != s.cache[b].timer)
    && (forall i | 0 <= i < |s.timers| && !s.timers[i].phase.Over? :: s.now <= s.timers[i].deadline)
    && (forall i | 0 <= i < |s.log| :: Fresh(c, s.log[i].token, s.log[i].at))
  }

  /** A token is valid no longer than TTL and leeway after signing, and says from when
      unless Kontrol is told to leave that out. */
  lemma SignedBounds(c: Terms, serial: nat, now: int)
    ensures var token := Sign(c, serial, now);
            && token.exp * SECOND <= now + c.ttl + c.leeway < (token.exp + 1) * SECOND
            && (token.nbf.Some? <==> !c.noNbf)
            && (token.nbf.Some? ==> token.nbf.value * SECOND <= now - c.leeway < (token.nbf.value + 1) * SECOND)
  {}

  lemma SignedFresh(c: Terms, serial: nat, signedAt: int, t: int)
    requires 0 <= c.leeway <= c.ttl && signedAt <= t <= signedAt + c.ttl - c.leeway
    ensures Fresh(c, Sign(c, serial, signedAt), t)
  {}

  lemma InvSigned(c: Terms, s: State, key: string)
    requires 0 <= c.leeway <= c.ttl && Inv(c, s)
    ensures Inv(c, Generated(c, s, key, true))
  {
    var s' := Generated(c, s, key, true);
    SignedFresh(c, s.serial, s.now, s.now);
    if key in s.cache { assert EntryOk(c, s, key); }
    forall k | k in s'.cache ensures EntryOk(c, s', k) {
      if k != key { assert EntryOk(c, s, k); }
    }
  }

  lemma InvRequest(c: Terms, s: State, key: string, force: bool)
    requires 0 <= c.leeway <= c.ttl && Inv(c, s)
    ensures Inv(c, Generated(c, s, key, force))
  {
    if !force && key in s.cache {
      var e := s.cache[key];
      assert EntryOk(c, s, key);
      SignedFresh(c, e.token.serial, e.token.signedAt, s.now);
    } else {
      InvSigned(c, s, key);
    }
  }

  lemma InvStep(c: Terms, s: State, step: Step)
    requires 0 <= c.leeway <= c.ttl && Inv(c, s) && Enabled(s, step)
    ensures Inv(c, Next(c, s, step))
  {
    var s' := Next(c, s, step);
    if step.Request? {
      InvRequest(c, s, step.key, step.force);
    } else {
      forall k | k in s'.cache ensures EntryOk(c, s', k) {
        assert EntryOk(c, s, k);
      }
    }
  }

  ghost predicate Linked(c: Terms, a: State, b: State)
  {
    exists step :: Enabled(a, step) && b == Next(c, a, step)
  }

  ghost predicate Run(c: Terms, run: seq<State>)
  {
    && run != [] && (exists t :: run[0] == State(t, map[], [], 0, map[], []))
    && forall i | 0 <= i < |run| - 1 :: Linked(c, run[i], run[i + 1])
  }

  /** In every run, every token handed out, cached or new, forced or not, is fresh,
      even when a stale timer has deleted a newer entry; and what is cached for a
      key is the latest token signed for it. */
  lemma AlwaysFresh(c: Terms, run: seq<State>)
    requires 0 <= c.leeway <= c.ttl && Run(c, run)
    ensures forall i | 0 <= i < |run| :: Inv(c, run[i])
  {
    for i := 1 to |run|
      invariant forall k | 0 <= k < i :: Inv(c, run[k])
    {
      assert Linked(c, run[i - 1], run[i]);
      var step :| Enabled(run[i - 1], step) && run[i] == Next(c, run[i - 1], step);
      InvStep(c, run[i - 1], step);
    }
  }

  /** An unforced request returns the latest token signed for its key while the
      entry is there, and signs nothing. */
  lemma UnforcedReturnsLatest(c: Terms, s: State, key: string)
    requires Inv(c, s) && key in s.cache
    ensures var s' := Generated(c, s, key, false);
            key in s.latest && s'.log == s.log + [Reply(s.now, key, s.latest[key])] && s'.serial == s.serial
  {
    assert EntryOk(c, s, key);
  }
}
