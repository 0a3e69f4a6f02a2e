/** When a cached token can be lost to the timer of an earlier one
    (kontrol/kontrol.go). */
module TokenEviction {
  import opened TokenCache

  /** Timers are set in the order of their deadlines, and the timer of an entry is the
      last one set for its key. */
  ghost predicate Lined(c: Terms, s: State)
  {
    && (forall i, j | 0 <= i < j < |s.timers| :: s.timers[i].deadline <= s.timers[j].deadline)
    && (forall i | 0 <= i < |s.timers| :: s.timers[i].deadline <= s.now + c.ttl - c.leeway)
    && (forall i | 0 <= i < |s.timers| && s.timers[i].phase.Pending? :: s.timers[i].deadline <= s.now)
    && (forall key, i | key in s.cache && 0 <= i < |s.timers| && s.timers[i].key == key :: i <= s.cache[key].timer)
  }

  lemma LinedRequest(c: Terms, s: State, key: string, force: bool)
    requires Lined(c, s)
    ensures Lined(c, Generated(c, s, key, force))
  {}

  lemma LinedStep(c: Terms, s: State, step: Step)
    requires Lined(c, s) && Enabled(s, step)
    ensures Lined(c, Next(c, s, step))
  {
    if step.Request? { LinedRequest(c, s, step.key, step.force); }
  }

  /** What holds in every state of every run. */
  ghost predicate Regular(c: Terms, s: State) { 0 <= c.leeway <= c.ttl && Inv(c, s) && Lined(c, s) }

  lemma RegularStep(c: Terms, s: State, step: Step)
    requires Regular(c, s) && Enabled(s, step)
    ensures Regular(c, Next(c, s, step))
  {
    InvStep(c, s, step);
    LinedStep(c, s, step);
  }

  lemma AlwaysRegular(c: Terms, run: seq<State>)
    requires 0 <= c.leeway <= c.ttl && Run(c, run)
    ensures forall i | 0 <= i < |run| :: Regular(c, run[i])
  {
    for i := 1 to |run|
      invariant forall k | 0 <= k < i :: Regular(c, run[k])
    {
      assert Linked(c, run[i - 1], run[i]);
      var step :| Enabled(run[i - 1], step) && run[i] == Next(c, run[i - 1], step);
      RegularStep(c, run[i - 1], step);
    }
  }

  // ------------------------------------------------------------- leftovers

  /** No other timer of this key is armed or about to delete. */
  ghost predicate Clean(s: State, key: string)
  {
    key in s.cache && forall i | 0 <= i < |s.timers| && i != s.cache[key].timer && s.timers[i].key == key :: s.timers[i].phase.Over?
  }

  /** Steps that end an entry by right: its own timer function, or a forced request
      for its key. */
  predicate Ends(step: Step, key: string, own: nat) { step == Delete(own) || step == Request(key, true) }

  /** Requests for other keys, and unforced ones, leave the entry and its rivals alone. */
  lemma CleanRequest(c: Terms, s: State, other: string, force: bool, key: string)
    requires Regular(c, s) && Clean(s, key) && !(other == key && force)
    ensures var s' := Generated(c, s, other, force); Clean(s', key) && s'.cache[key] == s.cache[key]
  {
    assert EntryOk(c, s, key);
    if other != key && other in s.cache { assert EntryOk(c, s, other); }
  }

  lemma CleanStep(c: Terms, s: State, step: Step, key: string)
    requires Regular(c, s) && Clean(s, key) && Enabled(s, step) && !Ends(step, key, s.cache[key].timer)
    ensures var s' := Next(c, s, step); Clean(s', key) && s'.cache[key] == s.cache[key]
  {
    assert EntryOk(c, s, key);
    if step.Request? { CleanRequest(c, s, step.key, step.force, key); }
  }

  /** A request that signs leaves the new entry clean exactly when no earlier timer of
      the key survives: the replaced entry's own must not have begun, all others must
      be over. */
  lemma RequestLeaves(c: Terms, s: State, key: string, force: bool)
    requires Regular(c, s) && (force || key !in s.cache)
    ensures Clean(Generated(c, s, key, force), key) <==>
            forall i | 0 <= i < |s.timers| && s.timers[i].key == key ::
              if key in s.cache && i == s.cache[key].timer then !s.timers[i].phase.Pending? else s.timers[i].phase.Over?
  {
    var s' := Generated(c, s, key, force);
    if key in s.cache { assert EntryOk(c, s, key); }
    assert s'.cache[key].timer == |s.timers|;
    forall i | 0 <= i < |s.timers| ensures s'.timers[i].key == s.timers[i].key {}
  }

  /** In particular a forced request for a clean entry leaves the new one clean iff the
      timer function of the old one had not begun. */
  lemma ForcedLeaves(c: Terms, s: State, key: string)
    requires Regular(c, s) && Clean(s, key)
    ensures Clean(Generated(c, s, key, true), key) <==> !s.timers[s.cache[key].timer].phase.Pending?
  {
    RequestLeaves(c, s, key, true);
    assert EntryOk(c, s, key);
  }

  // ------------------------------------------------------------------- runs

  ghost predicate LinkedBut(c: Terms, a: State, b: State, key: string, own: nat)
  {
    exists step :: Enabled(a, step) && !Ends(step, key, own) && b == Next(c, a, step)
  }

  ghost predicate LinkedAt(c: Terms, run: seq<State>, i: nat, key: string, own: nat)
    requires i < |run| - 1
  {
    LinkedBut(c, run[i], run[i + 1], key, own)
  }

  ghost predicate Reaches(c: Terms, run: seq<State>, from: State, to: State, key: string, own: nat)
  {
    && run != [] && run[0] == from && run[|run| - 1] == to
    && forall i | 0 <= i < |run| - 1 :: LinkedAt(c, run, i, key, own)
  }

  /** Some run without the timer function of own and without a forced request for the
      key leads there. */
  ghost predicate CanReach(c: Terms, from: State, to: State, key: string, own: nat)
  {
    exists run :: Reaches(c, run, from, to, key, own)
  }

  lemma Onward(c: Terms, from: State, at: State, step: Step, key: string, own: nat)
    requires CanReach(c, from, at, key, own) && Enabled(at, step) && !Ends(step, key, own)
    ensures CanReach(c, from, Next(c, at, step), key, own)
  {
    var run :| Reaches(c, run, from, at, key, own);
    var longer := run + [Next(c, at, step)];
    forall i | 0 <= i < |longer| - 1 ensures LinkedAt(c, longer, i, key, own) {
      if i < |run| - 1 { assert LinkedAt(c, run, i, key, own); } else { assert longer[i] == at; }
    }
    assert Reaches(c, longer, from, Next(c, at, step), key, own);
  }

  /** The key has a clean entry, e. */
  ghost predicate Holds(c: Terms, s: State, key: string, e: Entry) { Regular(c, s) && Clean(s, key) && s.cache[key] == e }

  lemma HoldsLinked(c: Terms, a: State, b: State, key: string, e: Entry)
    requires Holds(c, a, key, e) && LinkedBut(c, a, b, key, e.timer)
    ensures Holds(c, b, key, e)
  {
    var step :| Enabled(a, step) && !Ends(step, key, e.timer) && b == Next(c, a, step);
    RegularStep(c, a, step);
    CleanStep(c, a, step, key);
  }

  lemma CleanStays(c: Terms, s: State, end: State, key: string)
    requires Regular(c, s) && Clean(s, key) && CanReach(c, s, end, key, s.cache[key].timer)
    ensures key in end.cache && end.cache[key] == s.cache[key]
  {
    var e := s.cache[key];
    var run :| Reaches(c, run, s, end, key, e.timer);
    for i := 1 to |run|
      invariant Holds(c, run[i - 1], key, e)
    {
      assert LinkedAt(c, run, i - 1, key, e.timer);
      HoldsLinked(c, run[i - 1], run[i], key, e);
    }
  }

  // --------------------------------------------- a leftover gets to delete

  function Weight(t: Timer): nat { match t.phase case Armed => 2 case Pending => 1 case Over => 0 }

  /** What timers have still to do. */
  function ToDo(ts: seq<Timer>): nat { if ts == [] then 0 else Weight(ts[0]) + ToDo(ts[1..]) }

  lemma {:induction false} LessToDo(ts: seq<Timer>, i: nat, t: Timer)
    requires i < |ts| && Weight(t) < Weight(ts[i])
    ensures ToDo(ts[i := t]) < ToDo(ts)
  {
    if i > 0 {
      LessToDo(ts[1..], i - 1, t);
      assert ts[i := t][1..] == ts[1..][i - 1 := t];
    } else {
      assert ts[i := t][1..] == ts[1..];
    }
  }

  /** On the way: entry own of the key is cached, and timer g of the key, which is not
      its own, is not over. */
  ghost predicate Threatened(c: Terms, s: State, key: string, own: nat, g: nat)
  {
    && Regular(c, s) && key in s.cache && s.cache[key].timer == own
    && g < |s.timers| && g != own && s.timers[g].key == key && !s.timers[g].phase.Over?
  }

  /** The next step on the way to the deletion by g. */
  lemma NextStep(c: Terms, s: State, key: string, own: nat, g: nat) returns (step: Step)
    requires Threatened(c, s, key, own, g) && s.timers[g].phase.Armed? && s.now < s.timers[g].deadline
    ensures Enabled(s, step) && !step.Request? && !Ends(step, key, own) && step != Delete(g) && step != Fire(g)
    ensures !step.Tick? ==> ToDo(Next(c, s, step).timers) < ToDo(s.timers)
    ensures step.Tick? ==> step == Tick(1)
  {
    assert EntryOk(c, s, key) && g < own && s.timers[g].deadline <= s.timers[own].deadline;
    if i: nat :| i < |s.timers| && s.timers[i].phase.Pending? && i != own {
      step := Delete(i);
      LessToDo(s.timers, i, s.timers[i].(phase := Over));
    } else if i: nat :| i < |s.timers| && s.timers[i].phase.Armed? && s.timers[i].deadline == s.now {
      step := Fire(i);
      LessToDo(s.timers, i, s.timers[i].(phase := Pending));
    } else {
      step := Tick(1);
    }
  }

  /** Without the timer function of own and a forced request, the entry can be lost. */
  ghost predicate CanLose(c: Terms, s: State, key: string, own: nat)
  {
    exists end :: CanReach(c, s, end, key, own) && key !in end.cache
  }

  lemma {:induction false} GetsThere(c: Terms, from: State, at: State, key: string, own: nat, g: nat)
    requires CanReach(c, from, at, key, own) && Threatened(c, at, key, own, g)
    ensures CanLose(c, from, key, own)
    decreases ToDo(at.timers), at.timers[g].deadline - at.now
  {
    if at.timers[g].phase.Pending? {
      Onward(c, from, at, Delete(g), key, own);
    } else if at.now >= at.timers[g].deadline {
      Onward(c, from, at, Fire(g), key, own);
      Onward(c, from, Next(c, at, Fire(g)), Delete(g), key, own);
    } else {
      var step := NextStep(c, at, key, own, g);
      var to := Next(c, at, step);
      Onward(c, from, at, step, key, own);
      RegularStep(c, at, step);
      if key in to.cache { GetsThere(c, from, to, key, own, g); }
    }
  }

  // -------------------------------------------------------- the exact condition

  /** In every run without its own timer function and without a forced request for the
      key, the entry stays. */
  ghost predicate Stays(c: Terms, s: State, key: string)
    requires key in s.cache
  {
    forall end | CanReach(c, s, end, key, s.cache[key].timer) :: key in end.cache && end.cache[key] == s.cache[key]
  }

  /** A cached token stays until its own timer function or a forced request for its key
      exactly when no other timer of the key is armed or has begun. */
  lemma EvictionExactly(c: Terms, s: State, key: string)
    requires Regular(c, s) && key in s.cache
    ensures Stays(c, s, key) <==> Clean(s, key)
  {
    var e := s.cache[key];
    if Clean(s, key) {
      forall end | CanReach(c, s, end, key, e.timer) ensures key in end.cache && end.cache[key] == e {
        CleanStays(c, s, end, key);
      }
    } else {
      var g: nat :| g < |s.timers| && g != e.timer && s.timers[g].key == key && !s.timers[g].phase.Over?;
      assert Reaches(c, [s], s, s, key, e.timer);
      GetsThere(c, s, s, key, e.timer, g);
    }
  }

  // ------------------------------------------------------ leftovers do occur

  ghost predicate Reachable(c: Terms, s: State) { exists run :: Run(c, run) && run[|run| - 1] == s }

  lemma Extended(c: Terms, at: State, step: Step)
    requires Reachable(c, at) && Enabled(at, step)
    ensures Reachable(c, Next(c, at, step))
  {
    var run :| Run(c, run) && run[|run| - 1] == at;
    var longer := run + [Next(c, at, step)];
    assert longer[0] == run[0];
    forall i | 0 <= i < |longer| - 1 ensures Linked(c, longer[i], longer[i + 1]) {
      if i < |run| - 1 { assert Linked(c, run[i], run[i + 1]); } else { assert longer[i] == at; }
    }
    assert Run(c, longer);
  }

  /** One entry, whose timer function has begun. */
  predicate Begun(c: Terms, s: State, key: string)
  {
    && s.now == c.ttl - c.leeway && key in s.cache && s.cache[key].timer == 0
    && s.timers == [Timer(key, s.now, Pending)]
  }

  lemma StaleBegins(c: Terms, key: string)
    requires 0 <= c.leeway < c.ttl
    ensures exists at :: Reachable(c, at) && Begun(c, at, key)
  {
    var s0 := State(0, map[], [], 0, map[], []);
    assert Run(c, [s0]);
    Extended(c, s0, Request(key, false));
    var s1 := Next(c, s0, Request(key, false));
    assert s1.timers == [Timer(key, c.ttl - c.leeway, Armed)];
    Extended(c, s1, Tick(c.ttl - c.leeway));
    var s2 := Next(c, s1, Tick(c.ttl - c.leeway));
    Extended(c, s2, Fire(0));
    assert Begun(c, Next(c, s2, Fire(0)), key);
  }

  /** The newest token has just been signed and is not cached; its timer is armed. */
  predicate Uncached(s: State, key: string)
  {
    && key !in s.cache && key in s.latest && s.latest[key].signedAt == s.now
    && |s.timers| == 2 && s.timers[1].key == key && s.timers[1].phase.Armed? && s.now < s.timers[1].deadline
  }

  /** A timer function that had begun when a forced request replaced its entry deletes
      the newer entry, and the timer of that entry stays armed. Freshness holds
      regardless. */
  lemma StaleDelete(c: Terms, key: string)
    requires 0 <= c.leeway < c.ttl
    ensures exists end :: Reachable(c, end) && Uncached(end, key)
  {
    StaleBegins(c, key);
    var at :| Reachable(c, at) && Begun(c, at, key);
    Extended(c, at, Request(key, true));
    var forced := Next(c, at, Request(key, true));
    assert forced.timers == [Timer(key, at.now, Pending), Timer(key, at.now + c.ttl - c.leeway, Armed)];
    Extended(c, forced, Delete(0));
    assert Uncached(Next(c, forced, Delete(0)), key);
  }
}
