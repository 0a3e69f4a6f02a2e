/** When the table entry of a kite registered over HTTP can be lost to a timer of an
    earlier one (kontrol/http.go). */
module HttpEviction {
  import opened Wrappers
  import opened Intervals
  import opened HttpHeartbeat

  // ------------------------------------------- when an entry can be lost

  predicate Idle(b: Beat) { b.armed.None? && b.started == 0 && b.waiting == 0 }

  /** No other heartbeat object of this ID has a timer that is armed or firing. */
  ghost predicate Clean(s: State, id: string)
  {
    id in s.table && forall g | 0 <= g < |s.beats| && g != s.table[id] && s.beats[g].id == id :: Idle(s.beats[g])
  }

  lemma CleanBeat(s: State, s': State, id: string, h: nat)
    requires Clean(s, id) && id in s'.table && s'.table[id] == s.table[id]
    requires h < |s.beats| == |s'.beats| && s'.beats == s.beats[h := s'.beats[h]] && s'.beats[h].id == s.beats[h].id
    requires h == s.table[id] || s.beats[h].id != id || (Idle(s.beats[h]) ==> Idle(s'.beats[h]))
    ensures Clean(s', id)
  {}

  lemma CleanRegister(c: Config, s: State, reg: Reg, id: string)
    requires Safe(s) && Clean(s, id) && Enabled(s, Register(reg))
    ensures var s' := Next(c, s, Register(reg)); Clean(s', id) && s'.table[id] == s.table[id]
  {
    var s' := Next(c, s, Register(reg));
    if reg.id in s.table {
      CleanBeat(s, s', id, s.table[reg.id]);
    } else {
      forall g | 0 <= g < |s'.beats| && g != s.table[id] && s'.beats[g].id == id ensures Idle(s'.beats[g]) {
        assert g < |s.beats| && Idle(s.beats[g]);
      }
    }
  }

  lemma CleanStep(c: Config, s: State, step: Step, h: nat, id: string)
    requires Safe(s) && Clean(s, id) && Enabled(s, step) && step != RunTimer(s.table[id])
    requires step in {Fire(h), StopTicker(h), RunTimer(h), Tock(h), Write(h), Exit(h)}
    ensures var s' := Next(c, s, step); Clean(s', id) && s'.table[id] == s.table[id]
  {
    if step.RunTimer? { assert s.beats[h].id != id; }
    CleanBeat(s, Next(c, s, step), id, h);
  }

  /** An entry without such leftovers stays in the table until its own timer
      function removes it. */
  lemma CleanStays(c: Config, s: State, step: Step, id: string)
    requires Safe(s) && Clean(s, id) && Enabled(s, step) && step != RunTimer(s.table[id])
    ensures var s' := Next(c, s, step); Clean(s', id) && s'.table[id] == s.table[id]
  {
    var s' := Next(c, s, step);
    match step
    case Register(reg) => CleanRegister(c, s, reg, id);
    case Receive => CleanBeat(s, s', id, s.lock.h);
    case Heartbeat(x) => if x in s.table { CleanBeat(s, s', id, s.table[x]); }
    case Fire(h) => CleanStep(c, s, step, h, id);
    case StopTicker(h) => CleanStep(c, s, step, h, id);
    case RunTimer(h) => CleanStep(c, s, step, h, id);
    case Tock(h) => CleanStep(c, s, step, h, id);
    case Write(h) => CleanStep(c, s, step, h, id);
    case Exit(h) => CleanStep(c, s, step, h, id);
    case _ =>
  }

  /** A step other than the timer function of object `spared`. */
  ghost predicate LinkedBut(c: Config, a: State, b: State, spared: Option<nat>)
  {
    exists step :: Enabled(a, step) && (spared.Some? ==> step != RunTimer(spared.value)) && b == Next(c, a, step)
  }

  ghost predicate LinkedAt(c: Config, run: seq<State>, i: nat, spared: Option<nat>)
    requires i < |run| - 1
  {
    LinkedBut(c, run[i], run[i + 1], spared)
  }

  ghost predicate Reaches(c: Config, run: seq<State>, from: State, to: State, spared: Option<nat>)
  {
    && run != [] && run[0] == from && run[|run| - 1] == to
    && forall i | 0 <= i < |run| - 1 :: LinkedAt(c, run, i, spared)
  }

  ghost predicate CanReach(c: Config, from: State, to: State, spared: Option<nat>)
  {
    exists run :: Reaches(c, run, from, to, spared)
  }

  lemma Here(c: Config, s: State, spared: Option<nat>)
    ensures CanReach(c, s, s, spared)
  {
    assert Reaches(c, [s], s, s, spared);
  }

  lemma Onward(c: Config, from: State, at: State, step: Step, spared: Option<nat>)
    requires CanReach(c, from, at, spared) && Enabled(at, step) && (spared.Some? ==> step != RunTimer(spared.value))
    ensures CanReach(c, from, Next(c, at, step), spared)
  {
    var run :| Reaches(c, run, from, at, spared);
    var longer := run + [Next(c, at, step)];
    forall i | 0 <= i < |longer| - 1 ensures LinkedAt(c, longer, i, spared) {
      if i < |run| - 1 { assert LinkedAt(c, run, i, spared); } else { assert longer[i] == at; }
    }
    assert Reaches(c, longer, from, Next(c, at, step), spared);
  }

  /** The entry is object h, and clean. */
  ghost predicate Holds(s: State, id: string, h: nat) { Safe(s) && Clean(s, id) && s.table[id] == h }

  lemma HoldsLinked(c: Config, a: State, b: State, id: string, h: nat)
    requires Holds(a, id, h) && LinkedBut(c, a, b, Some(h))
    ensures Holds(b, id, h)
  {
    var step :| Enabled(a, step) && step != RunTimer(h) && b == Next(c, a, step);
    SafeStep(c, a, step);
    CleanStays(c, a, step, id);
  }

  lemma CleanRun(c: Config, s: State, end: State, id: string)
    requires Safe(s) && Clean(s, id) && CanReach(c, s, end, Some(s.table[id]))
    ensures id in end.table && end.table[id] == s.table[id]
  {
    var h := s.table[id];
    var run :| Reaches(c, run, s, end, Some(h));
    for i := 1 to |run|
      invariant Holds(run[i - 1], id, h)
    {
      assert LinkedAt(c, run, i - 1, Some(h));
      HoldsLinked(c, run[i - 1], run[i], id, h);
    }
  }

  /** In every run in which its own timer function does not run, the entry stays. */
  ghost predicate Stays(c: Config, s: State, id: string)
    requires id in s.table
  {
    forall end | CanReach(c, s, end, Some(s.table[id])) :: id in end.table && end.table[id] == s.table[id]
  }

  /** Without the timer function of h, the entry of id can be lost. */
  ghost predicate CanLose(c: Config, s: State, id: string, h: nat)
  {
    exists end :: CanReach(c, s, end, Some(h)) && id !in end.table
  }

  /** The entry of a kite stays until its own timer function removes it exactly when
      no other heartbeat object of its ID has a timer that is armed or firing. */
  lemma EvictionExactly(c: Config, s: State, id: string)
    requires Safe(s) && id in s.table && (s.lock.Free? || s.up)
    ensures Stays(c, s, id) <==> Clean(s, id)
  {
    if Clean(s, id) {
      forall end | CanReach(c, s, end, Some(s.table[id])) ensures id in end.table && end.table[id] == s.table[id] {
        CleanRun(c, s, end, id);
      }
    } else {
      LeftoverEvicts(c, s, id);
    }
  }

  /** With a leftover, the entry can be lost without its own timer function having
      run: the leftover's timer function deletes by ID. */
  lemma LeftoverEvicts(c: Config, s: State, id: string)
    requires Safe(s) && (s.lock.Free? || s.up) && id in s.table && !Clean(s, id)
    ensures CanLose(c, s, id, s.table[id])
  {
    var g :| 0 <= g < |s.beats| && g != s.table[id] && s.beats[g].id == id && !Idle(s.beats[g]);
    var h, at := s.table[id], s;
    Here(c, s, Some(h));
    if s.lock.Sending? {
      assert BeatOk(s.beats[s.lock.h], s.up);
      Onward(c, s, s, Receive, Some(h));
      at := Next(c, s, Receive);
    }
    TimerRuns(c, s, at, g, h);
  }

  /** How far the timer function of b is from running. */
  function Distance(b: Beat, now: int): nat
  {
    if b.waiting > 0 then 0 else if b.started > 0 then 1
    else if b.armed.Some? && now >= b.armed.value then 2 else 3
  }

  /** A step of the timer of g that leaves the mutex and object h alone. */
  ghost predicate Approaches(c: Config, at: State, g: nat, h: nat, step: Step)
    requires g < |at.beats| && h < |at.beats|
  {
    && Enabled(at, step) && !step.RunTimer?
    && var to := Next(c, at, step);
       && to.lock == at.lock && |to.beats| == |at.beats| && to.beats[h] == at.beats[h]
       && to.beats[g].id == at.beats[g].id && !Idle(to.beats[g])
       && Distance(to.beats[g], to.now) < Distance(at.beats[g], at.now)
  }

  lemma Approached(c: Config, at: State, g: nat, h: nat, step: Step, b: Beat)
    requires g < |at.beats| && h < |at.beats| && g != h && Enabled(at, step) && !step.RunTimer?
    requires Next(c, at, step) == With(at, g, b)
    requires b.id == at.beats[g].id && !Idle(b) && Distance(b, at.now) < Distance(at.beats[g], at.now)
    ensures Approaches(c, at, g, h, step)
  {}

  lemma Stops(c: Config, at: State, g: nat, h: nat)
    requires g < |at.beats| && h < |at.beats| && g != h && at.beats[g].waiting == 0 && at.beats[g].started > 0
    ensures Approaches(c, at, g, h, StopTicker(g))
  {
    var b := at.beats[g];
    Approached(c, at, g, h, StopTicker(g), b.(started := b.started - 1, waiting := 1, ticking := false));
  }

  lemma Fires(c: Config, at: State, g: nat, h: nat)
    requires g < |at.beats| && h < |at.beats| && g != h && at.beats[g].waiting == 0 && at.beats[g].started == 0
    requires at.beats[g].armed.Some? && at.now >= at.beats[g].armed.value
    ensures Approaches(c, at, g, h, Fire(g))
  {
    Approached(c, at, g, h, Fire(g), at.beats[g].(armed := None, started := 1));
  }

  /** The next step of the timer of g. */
  lemma TimerStep(c: Config, at: State, g: nat, h: nat) returns (step: Step)
    requires g < |at.beats| && h < |at.beats| && g != h && !Idle(at.beats[g]) && at.beats[g].waiting == 0
    ensures Approaches(c, at, g, h, step)
  {
    var b := at.beats[g];
    if b.started > 0 {
      Stops(c, at, g, h);
      step := StopTicker(g);
    } else if at.now >= b.armed.value {
      Fires(c, at, g, h);
      step := Fire(g);
    } else {
      step := Tick(b.armed.value - at.now);
    }
  }

  /** The timer of g goes off and its function runs to the end. */
  lemma {:induction false} TimerRuns(c: Config, from: State, at: State, g: nat, h: nat)
    requires CanReach(c, from, at, Some(h)) && at.lock.Free?
    requires g < |at.beats| && h < |at.beats| && g != h && !Idle(at.beats[g])
    ensures CanLose(c, from, at.beats[g].id, h)
    decreases Distance(at.beats[g], at.now)
  {
    if at.beats[g].waiting > 0 {
      Onward(c, from, at, RunTimer(g), Some(h));
    } else {
      var step := TimerStep(c, at, g, h);
      Onward(c, from, at, step, Some(h));
      TimerRuns(c, from, Next(c, at, step), g, h);
    }
  }

  /** A fresh heartbeat object of the kite, armed until the given time. */
  function Entry(c: Config, id: string, url: string, made: int, until: int): Beat
  {
    Beat(id, true, 0, Some(until), 0, 0, true, made + c.updateInterval, false, true, url)
  }

  function Registered(c: Config, s: State, reg: Reg): State
  {
    var t := s.(store := s.store[reg.id := Record(s.now + c.ttl, reg.value)], contact := s.contact[reg.id := s.now]);
    t.(table := s.table[reg.id := |s.beats|], log := s.log + [Passed(|s.beats|, reg.value)],
       beats := s.beats + [Entry(c, reg.id, reg.value, s.now, s.now + c.window)])
  }

  lemma RaceRegister(c: Config, from: State, at: State, reg: Reg)
    requires CanReach(c, from, at, None) && at.lock.Free? && reg.id !in at.table && at.regs == multiset{}
    ensures CanReach(c, from, Registered(c, at, reg), None)
  {
    Onward(c, from, at, Upsert(reg), None);
    var s := Next(c, at, Upsert(reg));
    Onward(c, from, s, Register(reg), None);
    assert s.contact[reg.id := at.now] == s.contact && s.regs - multiset{reg} == at.regs;
  }

  function Fired(s: State, h: nat): State
    requires h < |s.beats|
  {
    With(s, h, s.beats[h].(armed := None, waiting := s.beats[h].waiting + 1, ticking := false))
  }

  lemma RaceFire(c: Config, from: State, at: State, h: nat)
    requires CanReach(c, from, at, None) && h < |at.beats| && at.beats[h].armed.Some? && at.now == at.beats[h].armed.value
    ensures CanReach(c, from, Fired(at, h), None)
  {
    Onward(c, from, at, Fire(h), None);
    Onward(c, from, Next(c, at, Fire(h)), StopTicker(h), None);
    assert Next(c, Next(c, at, Fire(h)), StopTicker(h)).beats == Fired(at, h).beats;
  }

  /** The first half of the race: the entry is closed and gone, its timer armed. */
  predicate AfterReset(c: Config, s: State, id: string)
  {
    && s.now == c.window && s.lock.Free? && s.regs == multiset{} && id !in s.table && |s.beats| == 1
    && s.beats[0].id == id && s.beats[0].armed == Some(2 * c.window)
  }

  lemma RaceReset(c: Config, reg: Reg)
    requires Sane(c)
    ensures exists at :: CanReach(c, Started(0), at, None) && AfterReset(c, at, reg.id)
  {
    var s0 := Started(0);
    Here(c, s0, None);
    RaceRegister(c, s0, s0, reg);
    var s1 := Registered(c, s0, reg);
    Onward(c, s0, s1, Tick(c.window), None);
    var s2 := Next(c, s1, Tick(c.window));
    RaceFire(c, s0, s2, 0);
    var s3 := Fired(s2, 0);
    Onward(c, s0, s3, Heartbeat(reg.id), None);
    var s4 := Next(c, s3, Heartbeat(reg.id));
    Onward(c, s0, s4, RunTimer(0), None);
    assert AfterReset(c, Next(c, s4, RunTimer(0)), reg.id);
  }

  /** The kite registers again and is heard from one nanosecond before the leftover
      timer goes off. */
  predicate JustHeard(c: Config, s: State, id: string)
  {
    && s.now == 2 * c.window && s.lock.Free? && |s.beats| == 2 && s.beats[0].id == id && s.beats[0].armed == Some(s.now)
    && s.beats[1].id == id && s.beats[1].open && s.beats[1].armed == Some(s.now + c.window - 1)
  }

  lemma RaceAgain(c: Config, reg: Reg)
    requires Sane(c) && c.window >= 2
    ensures exists at :: CanReach(c, Started(0), at, None) && JustHeard(c, at, reg.id)
  {
    var s0 := Started(0);
    RaceReset(c, reg);
    var at :| CanReach(c, s0, at, None) && AfterReset(c, at, reg.id);
    RaceRegister(c, s0, at, reg);
    var s1 := Registered(c, at, reg);
    Onward(c, s0, s1, Tick(c.window - 1), None);
    var s2 := Next(c, s1, Tick(c.window - 1));
    Onward(c, s0, s2, Heartbeat(reg.id), None);
    var s3 := Next(c, s2, Heartbeat(reg.id));
    Onward(c, s0, s3, Tick(1), None);
    assert JustHeard(c, Next(c, s3, Tick(1)), reg.id);
  }

  /** The entry is gone, though its object has been heard from one nanosecond ago. */
  predicate Evicted(c: Config, s: State, id: string)
  {
    && id !in s.table && |s.beats| == 2
    && s.beats[1].id == id && s.beats[1].open && s.beats[1].armed == Some(s.now + c.window - 1)
  }

  /** Leftovers do occur: a heartbeat that resets the timer while its function waits
      for the mutex leaves the timer armed; when it fires again it removes the entry
      of the kite's next registration, though the kite was heard from one nanosecond
      before. */
  lemma ResetRaceEvicts(c: Config, reg: Reg)
    requires Sane(c) && c.window >= 2
    ensures exists end :: CanReach(c, Started(0), end, None) && Evicted(c, end, reg.id)
  {
    var s0 := Started(0);
    RaceAgain(c, reg);
    var at :| CanReach(c, s0, at, None) && JustHeard(c, at, reg.id);
    RaceFire(c, s0, at, 0);
    Onward(c, s0, Fired(at, 0), RunTimer(0), None);
    assert Evicted(c, Next(c, Fired(at, 0), RunTimer(0)), reg.id);
  }
}
