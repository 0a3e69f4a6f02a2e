/** The HTTP lease holds for exactly the intervals that leave room for it: runs on
    which the record of a kite that is heard from lapses otherwise
    (kontrol/http.go, kontrol/kontrol.go). */
module HttpLeaseBound {
  import opened Wrappers
  import opened Intervals
  import opened HttpHeartbeat
  import opened HttpLease

  /** The record of every kite that has registered stays live while it is heard from. */
  ghost predicate NeverLapses(c: Config)
  {
    forall run, i: nat, reg, j: nat | RegistersAt(c, run, i, reg) && i < j < |run| :: Live(run[j], reg.id)
  }

  predicate Basic(c: Config) { Sane(c) && c.window >= 2 }

  // ----------------------------------------------------------- building runs

  /** A prompt run from Kontrol's start to `at`. */
  ghost predicate Leads(c: Config, run: seq<State>, at: State)
  {
    PromptRun(c, run) && run[0] == Started(0) && run[|run| - 1] == at
  }

  ghost predicate Reached(c: Config, at: State) { exists run :: Leads(c, run, at) }

  lemma LinkedSnoc(c: Config, run: seq<State>, at: State, step: Step)
    requires Leads(c, run, at) && Prompt(at, step)
    ensures Leads(c, run + [Next(c, at, step)], Next(c, at, step))
  {
    var longer := run + [Next(c, at, step)];
    forall i | 0 <= i < |longer| - 1 ensures PromptAt(c, longer, i) {
      if i < |run| - 1 { assert PromptAt(c, run, i); } else { assert longer[i] == at; }
    }
  }

  lemma Proceeds(c: Config, at: State, step: Step, to: State)
    requires Reached(c, at) && Prompt(at, step) && to == Next(c, at, step)
    ensures Reached(c, to)
  {
    var run :| Leads(c, run, at);
    LinkedSnoc(c, run, at, step);
  }

  /** The kite has registered at step i of a run to `at` and been heard from since. */
  ghost predicate Story(c: Config, run: seq<State>, at: State, i: nat, reg: Reg)
  {
    Leads(c, run, at) && RegistersAt(c, run, i, reg)
  }

  ghost predicate Heard(c: Config, at: State, reg: Reg) { exists run, i: nat :: Story(c, run, at, i, reg) }

  lemma Begins(c: Config, at: State, reg: Reg, to: State)
    requires Reached(c, at) && Enabled(at, Register(reg)) && at.up && c.window > 0 && to == Next(c, at, Register(reg))
    ensures Heard(c, to, reg)
  {
    var run :| Leads(c, run, at);
    var longer := run + [to];
    LinkedSnoc(c, run, at, Register(reg));
    assert longer[|run| - 1] == at && longer[0] == Started(0);
    assert Story(c, longer, to, |run| - 1, reg);
  }

  /** A step after which the kite is still heard from. */
  ghost predicate Goes(c: Config, at: State, reg: Reg, step: Step, to: State)
  {
    Prompt(at, step) && to == Next(c, at, step) && to.up && Timely(c, to, reg.id)
  }

  lemma Continues(c: Config, at: State, reg: Reg, step: Step, to: State)
    requires Heard(c, at, reg) && Goes(c, at, reg, step, to)
    ensures Heard(c, to, reg)
  {
    var run, i: nat :| Story(c, run, at, i, reg);
    StoryGoes(c, run, at, i, reg, step, to);
  }

  lemma StoryGoes(c: Config, run: seq<State>, at: State, i: nat, reg: Reg, step: Step, to: State)
    requires Story(c, run, at, i, reg) && Goes(c, at, reg, step, to)
    ensures Story(c, run + [to], to, i, reg)
  {
    var longer := run + [to];
    LinkedSnoc(c, run, at, step);
    assert longer[0] == Started(0);
    forall k | i < k < |longer| ensures longer[k].up && Timely(c, longer[k], reg.id) {
      if k < |run| { assert longer[k] == run[k]; }
    }
  }

  lemma Lapses(c: Config, at: State, reg: Reg)
    requires Heard(c, at, reg) && !Live(at, reg.id)
    ensures !NeverLapses(c)
  {
    var run, i: nat :| Story(c, run, at, i, reg);
    assert RegistersAt(c, run, i, reg) && run[|run| - 1] == at;
  }

  // -------------------------------------------- UpdateInterval >= KeyTTL

  /** Heard from at time t, with nothing written since the registration at time 0. */
  function Unwritten(c: Config, reg: Reg, t: int): State
  {
    State(t, true, map[reg.id := 0],
          [Beat(reg.id, true, 0, Some(t + c.window), 0, 0, true, c.updateInterval, false, true, reg.value)],
          Free, multiset{}, map[reg.id := Record(c.ttl, reg.value)], map[reg.id := t], [Passed(0, reg.value)], false)
  }

  lemma RegisterFirst(c: Config, reg: Reg)
    requires Basic(c)
    ensures Heard(c, Unwritten(c, reg, 0), reg)
  {
    var s0 := Started(0);
    assert Leads(c, [s0], s0);
    Proceeds(c, s0, Upsert(reg), Next(c, s0, Upsert(reg)));
    FirstRegistration(c, reg);
    Begins(c, Next(c, s0, Upsert(reg)), reg, Unwritten(c, reg, 0));
  }

  lemma FirstRegistration(c: Config, reg: Reg)
    ensures var s := Next(c, Started(0), Upsert(reg));
            Enabled(s, Register(reg)) && s.up && Next(c, s, Register(reg)) == Unwritten(c, reg, 0)
  {
    var s := Next(c, Started(0), Upsert(reg));
    assert s.regs - multiset{reg} == multiset{};
    assert s.contact[reg.id := 0] == map[reg.id := 0] && s.table[reg.id := 0] == map[reg.id := 0];
    assert s.store == map[reg.id := Record(c.ttl, reg.value)];
  }

  lemma UnwrittenTick(c: Config, reg: Reg, t: nat, u: nat) returns (s1: State)
    requires Basic(c) && t < u == t + 1 <= c.ttl <= c.updateInterval
    ensures Goes(c, Unwritten(c, reg, t), reg, Tick(1), s1)
    ensures Goes(c, s1, reg, Heartbeat(reg.id), Unwritten(c, reg, u))
  {
    var s := Unwritten(c, reg, t);
    assert Rests(s.beats[0], s.up, u);
    s1 := Next(c, s, Tick(1));
    assert s1.contact[reg.id := u] == map[reg.id := u];
  }

  ghost predicate Drifted(c: Config, reg: Reg, t: nat) { Heard(c, Unwritten(c, reg, t), reg) }

  lemma DriftStep(c: Config, reg: Reg, t: nat, u: nat)
    requires Basic(c) && t < u == t + 1 <= c.ttl <= c.updateInterval && Drifted(c, reg, t)
    ensures Drifted(c, reg, u)
  {
    var s1 := UnwrittenTick(c, reg, t, u);
    Continues(c, Unwritten(c, reg, t), reg, Tick(1), s1);
    Continues(c, s1, reg, Heartbeat(reg.id), Unwritten(c, reg, u));
  }

  /** Heartbeats every nanosecond, and no tick before time t. */
  lemma {:induction false} Drift(c: Config, reg: Reg, t: nat)
    requires Basic(c) && t <= c.ttl <= c.updateInterval
    ensures Drifted(c, reg, t)
  {
    if t == 0 {
      RegisterFirst(c, reg);
    } else {
      Drift(c, reg, t - 1);
      DriftStep(c, reg, t - 1, t);
    }
  }

  /** The record lapses before the first tick. */
  lemma LapseUnwritten(c: Config, reg: Reg)
    requires Basic(c) && c.ttl <= c.updateInterval
    ensures !NeverLapses(c)
  {
    Drift(c, reg, c.ttl);
    Lapses(c, Unwritten(c, reg, c.ttl), reg);
  }

  // ------------------- HeartbeatInterval + HeartbeatDelay > KeyTTL

  /** One entry, not heard from since time 0, at time t. */
  predicate Alone(c: Config, s: State, id: string, t: int)
  {
    && s.now == t && s.up && s.lock.Free? && s.regs == multiset{} && s.table == map[id := 0] && |s.beats| == 1
    && var b := s.beats[0];
       && b.id == id && b.open && b.armed == Some(c.window) && b.started == 0 && b.waiting == 0
       && b.running && b.ticking && !b.tick && t < b.nextTick
  }

  lemma AloneTick(c: Config, s: State, id: string, t: nat)
    requires Sane(c) && Alone(c, s, id, t) && t < c.window
    ensures Prompt(s, Tick(1))
    ensures var s1 := Next(c, s, Tick(1));
            if s.beats[0].nextTick > t + 1 then Alone(c, s1, id, t + 1)
            else
              && Prompt(s1, Tock(0)) && Prompt(Next(c, s1, Tock(0)), Write(0))
              && Alone(c, Next(c, Next(c, s1, Tock(0)), Write(0)), id, t + 1)
  {
    assert Rests(s.beats[0], s.up, t + 1);
  }

  lemma AloneAt(c: Config, s: State, id: string, t: nat)
    requires Sane(c) && Reached(c, s) && Alone(c, s, id, t) && t < c.window
    ensures exists at :: Reached(c, at) && Alone(c, at, id, t + 1)
  {
    AloneTick(c, s, id, t);
    var s1 := Next(c, s, Tick(1));
    Proceeds(c, s, Tick(1), s1);
    if s.beats[0].nextTick <= t + 1 {
      Proceeds(c, s1, Tock(0), Next(c, s1, Tock(0)));
      var s2 := Next(c, s1, Tock(0));
      Proceeds(c, s2, Write(0), Next(c, s2, Write(0)));
    }
  }

  lemma {:induction false} Silence(c: Config, reg: Reg, t: nat)
    requires Basic(c) && t <= c.window
    ensures exists at :: Reached(c, at) && Alone(c, at, reg.id, t)
  {
    if t == 0 {
      RegisterFirst(c, reg);
      var run, i: nat :| Story(c, run, Unwritten(c, reg, 0), i, reg);
      assert Alone(c, Unwritten(c, reg, 0), reg.id, 0);
    } else {
      Silence(c, reg, t - 1);
      var at :| Reached(c, at) && Alone(c, at, reg.id, t - 1);
      AloneAt(c, at, reg.id, t - 1);
    }
  }

  /** The entry's timer function has begun, and the kite's new registration has
      written its record. */
  predicate Overtaken(c: Config, s: State, reg: Reg)
  {
    && s.now == c.window && s.up && s.lock.Free? && s.regs == multiset{reg} && s.table == map[reg.id := 0] && |s.beats| == 1
    && reg.id in s.store && s.store[reg.id].expiry == s.now + c.ttl
    && var b := s.beats[0];
       b.id == reg.id && b.open && b.armed == None && b.started == 0 && b.waiting == 1 && b.running && !b.ticking && !b.tick
  }

  lemma Overtakes(c: Config, reg: Reg)
    requires Basic(c)
    ensures exists at :: Reached(c, at) && Overtaken(c, at, reg)
  {
    Silence(c, reg, c.window);
    var at :| Reached(c, at) && Alone(c, at, reg.id, c.window);
    var s1 := Next(c, at, Fire(0));
    Proceeds(c, at, Fire(0), s1);
    var s2 := Next(c, s1, StopTicker(0));
    Proceeds(c, s1, StopTicker(0), s2);
    var s3 := Next(c, s2, Upsert(reg));
    Proceeds(c, s2, Upsert(reg), s3);
    assert Overtaken(c, s3, reg);
  }

  /** The kite registers and the timer function then removes its entry. */
  predicate Orphaned(c: Config, s: State, reg: Reg)
  {
    && s.now == c.window && s.up && s.lock.Free? && s.regs == multiset{} && |s.beats| == 1
    && reg.id in s.contact && s.contact[reg.id] == s.now
    && reg.id in s.store && s.store[reg.id].expiry == s.now + c.ttl
    && var b := s.beats[0];
       b.armed == Some(2 * c.window) && b.started == 0 && b.waiting == 0 && !b.running
  }

  lemma Orphans(c: Config, reg: Reg)
    requires Basic(c)
    ensures exists at :: Heard(c, at, reg) && Orphaned(c, at, reg)
  {
    Overtakes(c, reg);
    var at :| Reached(c, at) && Overtaken(c, at, reg);
    var s1, s2 := RegisterSteps(c, at, reg);
    Begins(c, at, reg, s1);
    Continues(c, s1, reg, Receive, s2);
    var s3, s4 := RemoveSteps(c, s2, reg);
    Continues(c, s2, reg, RunTimer(0), s3);
    Continues(c, s3, reg, Exit(0), s4);
  }

  /** The kite has registered; the timer function waits and the timer is armed again. */
  predicate Rearmed(c: Config, s: State, reg: Reg)
  {
    && s.now == c.window && s.up && s.lock.Free? && s.regs == multiset{} && |s.beats| == 1
    && reg.id in s.contact && s.contact[reg.id] == s.now
    && reg.id in s.store && s.store[reg.id].expiry == s.now + c.ttl
    && var b := s.beats[0];
       b.id == reg.id && b.open && b.armed == Some(2 * c.window) && b.started == 0 && b.waiting == 1 && b.running
  }

  lemma RegisterSteps(c: Config, s: State, reg: Reg) returns (s1: State, s2: State)
    requires Basic(c) && Overtaken(c, s, reg)
    ensures Goes(c, s, reg, Register(reg), s1) && Goes(c, s1, reg, Receive, s2) && Rearmed(c, s2, reg)
  {
    s1 := Next(c, s, Register(reg));
    s2 := Next(c, s1, Receive);
  }

  lemma RemoveSteps(c: Config, s: State, reg: Reg) returns (s1: State, s2: State)
    requires Basic(c) && Rearmed(c, s, reg)
    ensures Goes(c, s, reg, RunTimer(0), s1) && Goes(c, s1, reg, Exit(0), s2) && Orphaned(c, s2, reg)
  {
    s1 := Next(c, s, RunTimer(0));
    s2 := Next(c, s1, Exit(0));
  }

  /** Its record lapses before it is due to be heard from again. */
  lemma LapseOrphaned(c: Config, reg: Reg)
    requires Basic(c) && c.ttl < c.window
    ensures !NeverLapses(c)
  {
    Orphans(c, reg);
    var at :| Heard(c, at, reg) && Orphaned(c, at, reg);
    var s := OrphanTick(c, at, reg);
    Continues(c, at, reg, Tick(c.ttl), s);
    Lapses(c, s, reg);
  }

  lemma OrphanTick(c: Config, at: State, reg: Reg) returns (s: State)
    requires Sane(c) && c.ttl < c.window && Orphaned(c, at, reg)
    ensures Goes(c, at, reg, Tick(c.ttl), s) && !Live(s, reg.id)
  {
    assert Rests(at.beats[0], at.up, at.now + c.ttl);
    s := Next(c, at, Tick(c.ttl));
  }

  // -------------------------------------------------------- the exact bound

  /** No record of a kite that is heard from ever lapses, exactly when UpdateInterval
      is less than KeyTTL and HeartbeatInterval + HeartbeatDelay is at most KeyTTL. */
  lemma LeaseExactly(c: Config)
    requires Basic(c)
    ensures NeverLapses(c) <==> c.updateInterval < c.ttl && c.window <= c.ttl
  {
    if Ample(c) {
      forall run, i: nat, reg, j: nat | RegistersAt(c, run, i, reg) && i < j < |run| ensures Live(run[j], reg.id) {
        RegisteredStaysLive(c, run, i, reg, j);
      }
    } else if c.ttl <= c.updateInterval {
      LapseUnwritten(c, Reg("", ""));
    } else {
      LapseOrphaned(c, Reg("", ""));
    }
  }

  lemma ShippedIntervals()
    ensures NeverLapses(SHIPPED)
  {
    LeaseExactly(SHIPPED);
  }
}
