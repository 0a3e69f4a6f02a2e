/** Lease bounds of kites registered over HTTP when goroutines and timers are prompt
    (kontrol/http.go, kontrol/kontrol.go). */
module HttpLease {
  import opened Wrappers
  import opened Intervals
  import opened HttpHeartbeat

  /** Time passes only when everything that can run has run: no registration or
      timer function is under way, no updater has a tick or a reason to stop, and
      no timer or ticker would be overrun. */
  ghost predicate Quiet(s: State, d: int)
  {
    && s.lock.Free? && s.regs == multiset{}
    && forall h | 0 <= h < |s.beats| :: Rests(s.beats[h], s.up, s.now + d)
  }

  predicate Rests(b: Beat, up: bool, until: int)
  {
    && b.started == 0 && b.waiting == 0
    && (b.running ==> b.open && up && !b.tick && (b.ticking ==> until <= b.nextTick))
    && (b.armed.Some? ==> until <= b.armed.value)
  }

  ghost predicate Prompt(s: State, step: Step)
  {
    Enabled(s, step) && (step.Tick? ==> Quiet(s, step.d))
  }

  ghost predicate PromptLinked(c: Config, a: State, b: State)
  {
    exists step :: Prompt(a, step) && b == Next(c, a, step)
  }

  ghost predicate PromptAt(c: Config, run: seq<State>, i: nat)
    requires i < |run| - 1
  {
    PromptLinked(c, run[i], run[i + 1])
  }

  ghost predicate PromptRun(c: Config, run: seq<State>)
  {
    run != [] && forall i | 0 <= i < |run| - 1 :: PromptAt(c, run, i)
  }

  // ----------------------------------------------- the record goes in the end

  ghost predicate BeatBound(c: Config, s: State, b: Beat)
  {
    && b.id in s.contact
    && (b.armed.Some? ==> b.armed.value <= s.contact[b.id] + c.window)
    && (b.running ==> s.now <= s.contact[b.id] + c.window)
  }

  /** No record outlives the last contact of its kite by more than
      HeartbeatInterval + HeartbeatDelay + KeyTTL. */
  ghost predicate Bounded(c: Config, s: State)
  {
    && (forall id | id in s.contact :: s.contact[id] <= s.now)
    && (forall h | 0 <= h < |s.beats| :: BeatBound(c, s, s.beats[h]))
    && (forall id | id in s.store :: id in s.contact && s.store[id].expiry <= s.contact[id] + c.window + c.ttl)
  }

  lemma BoundedStep(c: Config, s: State, step: Step)
    requires Sane(c) && Safe(s) && Bounded(c, s) && Prompt(s, step)
    ensures Bounded(c, Next(c, s, step))
  {
    if step.Tick? {
      forall h | 0 <= h < |s.beats| ensures BeatBound(c, Next(c, s, step), s.beats[h]) {
        assert Rests(s.beats[h], s.up, s.now + step.d) && BeatOk(s.beats[h], s.up) && BeatBound(c, s, s.beats[h]);
      }
    } else {
      BoundedInstant(c, s, step);
    }
  }

  lemma BoundedWith(c: Config, s: State, h: nat, b: Beat)
    requires Bounded(c, s) && h < |s.beats| && BeatBound(c, s, b)
    ensures Bounded(c, With(s, h, b))
  {
    var s' := With(s, h, b);
    forall g | 0 <= g < |s'.beats| ensures BeatBound(c, s', s'.beats[g]) {
      if g != h { assert BeatBound(c, s, s.beats[g]); }
    }
  }

  lemma BoundedInstant(c: Config, s: State, step: Step)
    requires Sane(c) && Safe(s) && Bounded(c, s) && Enabled(s, step) && !step.Tick?
    ensures Bounded(c, Next(c, s, step))
  {
    match step
    case Upsert(reg) => BoundedUpsert(c, s, reg);
    case Register(reg) => BoundedRegister(c, s, reg);
    case Heartbeat(id) => BoundedHeartbeat(c, s, id);
    case Write(h) => BoundedWrite(c, s, h);
    case Receive => BoundedBeat(c, s, step, s.lock.h);
    case Fire(h) => BoundedBeat(c, s, step, h);
    case StopTicker(h) => BoundedBeat(c, s, step, h);
    case RunTimer(h) => BoundedBeat(c, s, step, h);
    case Tock(h) => BoundedBeat(c, s, step, h);
    case Exit(h) => BoundedBeat(c, s, step, h);
    case SendOnClosed =>
    case Shutdown =>
  }

  lemma BoundedWrite(c: Config, s: State, h: nat)
    requires Sane(c) && Bounded(c, s) && Enabled(s, Write(h))
    ensures Bounded(c, Next(c, s, Write(h)))
  {
    assert BeatBound(c, s, s.beats[h]);
    BoundedWith(c, s, h, s.beats[h].(tick := false));
  }

  /** Steps that change one heartbeat object and do not arm its timer. */
  lemma BoundedBeat(c: Config, s: State, step: Step, h: nat)
    requires Bounded(c, s) && Enabled(s, step) && h < |s.beats|
    requires step in {Receive, Fire(h), StopTicker(h), RunTimer(h), Tock(h), Exit(h)} && (step.Receive? ==> s.lock.h == h)
    ensures Bounded(c, Next(c, s, step))
  {
    assert BeatBound(c, s, s.beats[h]);
    BoundedWith(c, s, h, Next(c, s, step).beats[h]);
  }

  /** Contacts are only added or moved up to the present. */
  ghost predicate Later(a: map<string, int>, b: map<string, int>, now: int)
  {
    && (forall id | id in a :: id in b && (b[id] == a[id] || b[id] == now))
    && (forall id | id in b && id !in a :: b[id] == now)
  }

  lemma BoundedUpsert(c: Config, s: State, reg: Reg)
    requires Sane(c) && Bounded(c, s)
    ensures Bounded(c, Next(c, s, Upsert(reg)))
  {
    BoundedLater(c, s, s.contact[reg.id := s.now]);
  }

  /** Moving contacts up to the present keeps the bounds. */
  lemma BoundedLater(c: Config, s: State, contact: map<string, int>)
    requires Sane(c) && Bounded(c, s) && Later(s.contact, contact, s.now)
    ensures Bounded(c, s.(contact := contact))
  {
    var s' := s.(contact := contact);
    forall h | 0 <= h < |s.beats| ensures BeatBound(c, s', s.beats[h]) {
      assert BeatBound(c, s, s.beats[h]);
    }
  }

  lemma BoundedArm(c: Config, s: State, id: string, h: nat)
    requires Sane(c) && Bounded(c, s) && h < |s.beats| && s.beats[h].id == id
    ensures var t := s.(contact := s.contact[id := s.now]);
            Bounded(c, With(t, h, s.beats[h].(armed := Some(s.now + c.window))))
  {
    var t := s.(contact := s.contact[id := s.now]);
    BoundedLater(c, s, t.contact);
    assert BeatBound(c, t, t.beats[h]);
    BoundedWith(c, t, h, s.beats[h].(armed := Some(s.now + c.window)));
  }

  lemma BoundedHeartbeat(c: Config, s: State, id: string)
    requires Sane(c) && Safe(s) && Bounded(c, s) && Enabled(s, Heartbeat(id))
    ensures Bounded(c, Next(c, s, Heartbeat(id)))
  {
    if id in s.table { BoundedArm(c, s, id, s.table[id]); }
  }

  lemma BoundedRegister(c: Config, s: State, reg: Reg)
    requires Sane(c) && Safe(s) && Bounded(c, s) && Enabled(s, Register(reg))
    ensures Bounded(c, Next(c, s, Register(reg)))
  {
    if reg.id in s.table {
      BoundedArm(c, s, reg.id, s.table[reg.id]);
    } else {
      BoundedLater(c, s, s.contact[reg.id := s.now]);
    }
  }

  lemma BoundedLinked(c: Config, a: State, b: State)
    requires Sane(c) && Safe(a) && Bounded(c, a) && PromptLinked(c, a, b)
    ensures Safe(b) && Bounded(c, b)
  {
    var step :| Prompt(a, step) && b == Next(c, a, step);
    SafeStep(c, a, step);
    BoundedStep(c, a, step);
  }

  /** In every prompt run, no record outlives the last contact of its kite by more than
      HeartbeatInterval + HeartbeatDelay + KeyTTL. */
  lemma GoneInTime(c: Config, run: seq<State>)
    requires Sane(c) && PromptRun(c, run) && exists t :: run[0] == Started(t)
    ensures forall i | 0 <= i < |run| :: Safe(run[i]) && Bounded(c, run[i])
  {
    for i := 1 to |run|
      invariant forall k | 0 <= k < i :: Safe(run[k]) && Bounded(c, run[k])
    {
      assert PromptAt(c, run, i - 1);
      BoundedLinked(c, run[i - 1], run[i]);
    }
  }

  // ------------------------------------- the record stays while heard from

  predicate Live(s: State, id: string) { id in s.store && s.now < s.store[id].expiry }

  /** The last contact of the kite, a registration or a heartbeat that found its
      entry, is less than a window ago. */
  predicate Timely(c: Config, s: State, id: string) { id in s.contact && s.now < s.contact[id] + c.window }

  ghost predicate Registering(s: State, id: string) { exists reg | reg in s.regs :: reg.id == id }

  /** A registration under way has just written its record. */
  ghost predicate JustWritten(c: Config, s: State)
  {
    forall reg | reg in s.regs :: reg.id in s.store && s.now + c.ttl <= s.store[reg.id].expiry
  }

  lemma JustWrittenStep(c: Config, s: State, step: Step)
    requires JustWritten(c, s) && Prompt(s, step)
    ensures JustWritten(c, Next(c, s, step))
  {}

  /** The timer function of b has begun and not ended. */
  predicate Begun(b: Beat) { b.started + b.waiting > 0 }

  /** The ticker goes and none of its ticks is overdue. */
  predicate TickOk(c: Config, now: int, b: Beat)
  {
    && b.ticking && b.nextTick - c.updateInterval <= now
    && if b.tick then b.nextTick == now + c.updateInterval else now <= b.nextTick
  }

  ghost predicate Ticks(c: Config, s: State)
  {
    s.up ==> forall h | 0 <= h < |s.beats| && s.beats[h].open && !Begun(s.beats[h]) :: TickOk(c, s.now, s.beats[h])
  }

  lemma TicksWith(c: Config, s: State, h: nat, b: Beat)
    requires Ticks(c, s) && h < |s.beats| && (s.up && b.open && !Begun(b) ==> TickOk(c, s.now, b))
    ensures Ticks(c, With(s, h, b))
  {}

  lemma TicksTick(c: Config, s: State, d: int)
    requires Safe(s) && Ticks(c, s) && Prompt(s, Tick(d))
    ensures Ticks(c, Next(c, s, Tick(d)))
  {
    forall h | 0 <= h < |s.beats| && s.up && s.beats[h].open && !Begun(s.beats[h]) ensures TickOk(c, s.now + d, s.beats[h]) {
      assert BeatOk(s.beats[h], s.up) && Rests(s.beats[h], s.up, s.now + d) && TickOk(c, s.now, s.beats[h]);
    }
  }

  lemma TicksBeat(c: Config, s: State, step: Step, h: nat)
    requires Sane(c) && Ticks(c, s) && Enabled(s, step) && h < |s.beats|
    requires step in {Fire(h), StopTicker(h), RunTimer(h), Tock(h), Write(h), Exit(h)}
    ensures Ticks(c, Next(c, s, step))
  {
    TicksWith(c, s, h, Next(c, s, step).beats[h]);
  }

  /** Tickers stay on time, as long as Kontrol is up. */
  lemma TicksStep(c: Config, s: State, step: Step)
    requires Sane(c) && Safe(s) && Ticks(c, s) && Prompt(s, step)
    ensures Ticks(c, Next(c, s, step))
  {
    match step
    case Tick(d) => TicksTick(c, s, d);
    case Register(reg) =>
      if reg.id in s.table {
        var h := s.table[reg.id];
        TicksWith(c, s, h, s.beats[h].(armed := Some(s.now + c.window)));
      }
    case Receive => TicksWith(c, s, s.lock.h, s.beats[s.lock.h].(update := s.lock.value));
    case Heartbeat(id) =>
      if id in s.table { TicksWith(c, s, s.table[id], s.beats[s.table[id]].(armed := Some(s.now + c.window))); }
    case Fire(h) => TicksBeat(c, s, step, h);
    case StopTicker(h) => TicksBeat(c, s, step, h);
    case RunTimer(h) => TicksBeat(c, s, step, h);
    case Tock(h) => TicksBeat(c, s, step, h);
    case Write(h) => TicksBeat(c, s, step, h);
    case Exit(h) => TicksBeat(c, s, step, h);
    case _ =>
  }

  /** What holds in every state of a prompt run. */
  ghost predicate Orderly(c: Config, s: State) { Safe(s) && JustWritten(c, s) && Ticks(c, s) }

  lemma OrderlyStep(c: Config, s: State, step: Step)
    requires Sane(c) && Orderly(c, s) && Prompt(s, step)
    ensures Orderly(c, Next(c, s, step))
  {
    SafeStep(c, s, step);
    JustWrittenStep(c, s, step);
    TicksStep(c, s, step);
  }

  // ------------------------------------------------------ who keeps the record

  ghost predicate Heard(s: State, id: string) { s.up && id in s.contact && s.contact[id] <= s.now && Live(s, id) }

  /** Heartbeat object g keeps the record of id alive. It need not be in the table: a
      timer left over from an earlier object may have removed the entry. */
  ghost predicate Guarded(c: Config, s: State, id: string, g: nat)
  {
    && Heard(s, id) && g < |s.beats| && (id in s.table ==> s.table[id] == g)
    && var b := s.beats[g];
       && b.id == id && b.open && !Begun(b) && TickOk(c, s.now, b)
       && b.armed.Some? && s.now < b.armed.value
       && (if Registering(s, id) then s.contact[id] == s.now else s.contact[id] + c.window <= b.armed.value)
       && (!b.tick ==> b.nextTick - c.updateInterval + c.ttl <= s.store[id].expiry)
  }

  /** The kite registered when the timer function of its entry had begun: the entry
      goes, and the record lasts until the kite is due to be heard from again. */
  ghost predicate Fading(c: Config, s: State, id: string)
  {
    && Heard(s, id) && s.contact[id] + c.window <= s.store[id].expiry
    && (id in s.table ==> s.table[id] < |s.beats| && Begun(s.beats[s.table[id]]) && s.contact[id] == s.now)
  }

  ghost predicate Covered(c: Config, s: State, id: string)
  {
    Fading(c, s, id) || exists g :: Guarded(c, s, id, g)
  }

  /** UpdateInterval < KeyTTL and HeartbeatInterval + HeartbeatDelay <= KeyTTL. */
  predicate Ample(c: Config) { Sane(c) && c.updateInterval < c.ttl && c.window <= c.ttl }

  /** Every registration covers the kite's record. */
  lemma RegisterCovers(c: Config, s: State, reg: Reg)
    requires Ample(c) && Orderly(c, s) && Enabled(s, Register(reg)) && s.up
    ensures Covered(c, Next(c, s, Register(reg)), reg.id)
  {
    var s' := Next(c, s, Register(reg));
    assert s'.contact[reg.id] == s.now && s'.store == s.store;
    if reg.id !in s.table {
      assert Guarded(c, s', reg.id, |s.beats|);
    } else if !Begun(s.beats[s.table[reg.id]]) {
      assert Guarded(c, s', reg.id, s.table[reg.id]);
    }
  }

  // ------------------------------------------------------- steps of a guard

  lemma GuardedTick(c: Config, s: State, d: int, id: string, g: nat)
    requires Ample(c) && Orderly(c, s) && Guarded(c, s, id, g) && Prompt(s, Tick(d)) && Timely(c, Next(c, s, Tick(d)), id)
    ensures Guarded(c, Next(c, s, Tick(d)), id, g)
  {
    assert BeatOk(s.beats[g], s.up) && Rests(s.beats[g], s.up, s.now + d);
    assert !Registering(s, id);
  }

  lemma GuardedUpsert(c: Config, s: State, reg: Reg, id: string, g: nat)
    requires Ample(c) && Guarded(c, s, id, g)
    ensures Guarded(c, Next(c, s, Upsert(reg)), id, g)
  {
    var s' := Next(c, s, Upsert(reg));
    assert Registering(s, id) ==> Registering(s', id);
    if reg.id == id { assert reg in s'.regs; }
  }

  /** Steps that leave the guard's timer and ticker, the record and the contact. */
  lemma GuardedBeside(c: Config, s: State, s': State, id: string, g: nat)
    requires Guarded(c, s, id, g)
    requires s'.now == s.now && s'.up == s.up && s'.regs == s.regs && s'.contact == s.contact && s'.store == s.store
    requires g < |s'.beats| && s'.beats[g] == s.beats[g].(update := s'.beats[g].update)
    requires id in s'.table ==> id in s.table && s'.table[id] == s.table[id]
    ensures Guarded(c, s', id, g)
  {
    assert Registering(s', id) <==> Registering(s, id);
  }

  /** A registration of the same kite: the guard is kept, or replaced by the new
      object when the entry has been lost. */
  lemma GuardedRegister(c: Config, s: State, reg: Reg, id: string, g: nat)
    requires Ample(c) && Orderly(c, s) && Guarded(c, s, id, g) && Enabled(s, Register(reg))
    ensures Covered(c, Next(c, s, Register(reg)), id)
  {
    var s' := Next(c, s, Register(reg));
    if reg.id == id {
      RegisterCovers(c, s, reg);
    } else {
      assert Registering(s', id) <==> Registering(s, id) by {
        if r :| r in s.regs && r.id == id { assert r in s'.regs; }
        if r :| r in s'.regs && r.id == id { assert r in s.regs; }
      }
      assert reg.id in s.table ==> s.beats[s.table[reg.id]].id == reg.id;
      assert Guarded(c, s', id, g);
    }
  }

  lemma GuardedHeartbeat(c: Config, s: State, x: string, id: string, g: nat)
    requires Ample(c) && Orderly(c, s) && Guarded(c, s, id, g) && Enabled(s, Heartbeat(x))
    ensures Guarded(c, Next(c, s, Heartbeat(x)), id, g)
  {
    var s' := Next(c, s, Heartbeat(x));
    assert s'.regs == s.regs;
    if x != id && x in s.table {
      assert s.beats[s.table[x]].id == x;
    }
  }

  lemma GuardedWrite(c: Config, s: State, h: nat, id: string, g: nat)
    requires Ample(c) && Guarded(c, s, id, g) && Enabled(s, Write(h))
    ensures Guarded(c, Next(c, s, Write(h)), id, g)
  {
    assert Next(c, s, Write(h)).regs == s.regs;
  }

  lemma GuardedTock(c: Config, s: State, h: nat, id: string, g: nat)
    requires Ample(c) && Guarded(c, s, id, g) && Enabled(s, Tock(h))
    ensures Guarded(c, Next(c, s, Tock(h)), id, g)
  {
    assert Next(c, s, Tock(h)).regs == s.regs;
  }

  lemma GuardedOther(c: Config, s: State, step: Step, h: nat, id: string, g: nat)
    requires Guarded(c, s, id, g) && Orderly(c, s) && Enabled(s, step)
    requires step in {Fire(h), StopTicker(h), RunTimer(h), Exit(h)}
    ensures Guarded(c, Next(c, s, step), id, g)
  {
    assert BeatOk(s.beats[g], s.up);
    assert h != g;
    GuardedBeside(c, s, Next(c, s, step), id, g);
  }

  lemma GuardedStep(c: Config, s: State, step: Step, id: string, g: nat)
    requires Ample(c) && Orderly(c, s) && Guarded(c, s, id, g) && Prompt(s, step) && !step.Shutdown?
    requires step.Tick? ==> Timely(c, Next(c, s, step), id)
    ensures Covered(c, Next(c, s, step), id)
  {
    match step
    case Tick(d) => GuardedTick(c, s, d, id, g);
    case Upsert(reg) => GuardedUpsert(c, s, reg, id, g);
    case Register(reg) => GuardedRegister(c, s, reg, id, g);
    case Receive => GuardedBeside(c, s, Next(c, s, Receive), id, g);
    case Heartbeat(x) => GuardedHeartbeat(c, s, x, id, g);
    case Write(h) => GuardedWrite(c, s, h, id, g);
    case Tock(h) => GuardedTock(c, s, h, id, g);
    case Fire(h) => GuardedOther(c, s, step, h, id, g);
    case StopTicker(h) => GuardedOther(c, s, step, h, id, g);
    case RunTimer(h) => GuardedOther(c, s, step, h, id, g);
    case Exit(h) => GuardedOther(c, s, step, h, id, g);
    case SendOnClosed =>
  }

  // ------------------------------------------------- steps without a guard

  lemma FadingTick(c: Config, s: State, d: int, id: string)
    requires Fading(c, s, id) && Prompt(s, Tick(d)) && Timely(c, Next(c, s, Tick(d)), id)
    ensures Fading(c, Next(c, s, Tick(d)), id)
  {
    forall h | 0 <= h < |s.beats| ensures !Begun(s.beats[h]) { assert Rests(s.beats[h], s.up, s.now + d); }
  }

  lemma FadingRegister(c: Config, s: State, reg: Reg, id: string)
    requires Ample(c) && Orderly(c, s) && Fading(c, s, id) && Enabled(s, Register(reg))
    ensures Covered(c, Next(c, s, Register(reg)), id)
  {
    if reg.id == id { RegisterCovers(c, s, reg); }
  }

  lemma FadingUpsert(c: Config, s: State, reg: Reg, id: string)
    requires Ample(c) && Fading(c, s, id)
    ensures Fading(c, Next(c, s, Upsert(reg)), id)
  {}

  lemma FadingHeartbeat(c: Config, s: State, x: string, id: string)
    requires Ample(c) && Orderly(c, s) && Fading(c, s, id) && Enabled(s, Heartbeat(x))
    ensures Fading(c, Next(c, s, Heartbeat(x)), id)
  {}

  lemma FadingBeat(c: Config, s: State, step: Step, h: nat, id: string)
    requires Ample(c) && Orderly(c, s) && Fading(c, s, id) && Enabled(s, step)
    requires step in {Fire(h), StopTicker(h), RunTimer(h), Tock(h), Write(h), Exit(h)}
    ensures Fading(c, Next(c, s, step), id)
  {
    var s' := Next(c, s, step);
    assert id in s'.table ==> id in s.table && s'.table[id] == s.table[id] && (step.RunTimer? ==> h != s.table[id]);
  }

  lemma FadingStep(c: Config, s: State, step: Step, id: string)
    requires Ample(c) && Orderly(c, s) && Fading(c, s, id) && Prompt(s, step) && !step.Shutdown?
    requires step.Tick? ==> Timely(c, Next(c, s, step), id)
    ensures Covered(c, Next(c, s, step), id)
  {
    match step
    case Tick(d) => FadingTick(c, s, d, id);
    case Register(reg) => FadingRegister(c, s, reg, id);
    case Fire(h) => FadingBeat(c, s, step, h, id);
    case StopTicker(h) => FadingBeat(c, s, step, h, id);
    case RunTimer(h) => FadingBeat(c, s, step, h, id);
    case Tock(h) => FadingBeat(c, s, step, h, id);
    case Write(h) => FadingBeat(c, s, step, h, id);
    case Exit(h) => FadingBeat(c, s, step, h, id);
    case Upsert(reg) => FadingUpsert(c, s, reg, id);
    case Heartbeat(x) => FadingHeartbeat(c, s, x, id);
    case Receive => assert Fading(c, Next(c, s, Receive), id);
    case SendOnClosed =>
  }

  // ----------------------------------------------------------- over whole runs

  /** Every prompt step keeps the record covered while the kite is heard from. */
  lemma CoveredStep(c: Config, s: State, step: Step, id: string)
    requires Ample(c) && Orderly(c, s) && Covered(c, s, id) && Prompt(s, step)
    requires var s' := Next(c, s, step); s'.up && Timely(c, s', id)
    ensures Covered(c, Next(c, s, step), id)
  {
    if Fading(c, s, id) {
      FadingStep(c, s, step, id);
    } else {
      var g :| Guarded(c, s, id, g);
      GuardedStep(c, s, step, id, g);
    }
  }

  lemma OrderlyLinked(c: Config, a: State, b: State)
    requires Sane(c) && Orderly(c, a) && PromptLinked(c, a, b)
    ensures Orderly(c, b)
  {
    var step :| Prompt(a, step) && b == Next(c, a, step);
    OrderlyStep(c, a, step);
  }

  lemma CoveredLinked(c: Config, a: State, b: State, id: string)
    requires Ample(c) && Orderly(c, a) && Covered(c, a, id) && PromptLinked(c, a, b) && b.up && Timely(c, b, id)
    ensures Orderly(c, b) && Covered(c, b, id)
  {
    var step :| Prompt(a, step) && b == Next(c, a, step);
    OrderlyStep(c, a, step);
    CoveredStep(c, a, step, id);
  }

  /** While the kite is heard from less than a window apart, its record is live at
      every instant, whatever timers of earlier registrations do to its entry. */
  lemma LeaseHolds(c: Config, run: seq<State>, id: string)
    requires Ample(c) && PromptRun(c, run) && Orderly(c, run[0]) && Covered(c, run[0], id)
    requires forall j | 0 <= j < |run| :: run[j].up && Timely(c, run[j], id)
    ensures forall i | 0 <= i < |run| :: Live(run[i], id)
  {
    for i := 1 to |run|
      invariant Orderly(c, run[i - 1]) && Covered(c, run[i - 1], id)
      invariant forall k | 0 <= k < i :: Live(run[k], id)
    {
      assert PromptAt(c, run, i - 1) && run[i].up && Timely(c, run[i], id);
      CoveredLinked(c, run[i - 1], run[i], id);
    }
  }

  lemma OrderlyAlways(c: Config, run: seq<State>)
    requires Sane(c) && PromptRun(c, run) && exists t :: run[0] == Started(t)
    ensures forall i | 0 <= i < |run| :: Orderly(c, run[i])
  {
    for i := 1 to |run|
      invariant forall k | 0 <= k < i :: Orderly(c, run[k])
    {
      assert PromptAt(c, run, i - 1);
      OrderlyLinked(c, run[i - 1], run[i]);
    }
  }

  /** The kite registers at step i of the run and is heard from ever after. */
  ghost predicate RegistersAt(c: Config, run: seq<State>, i: nat, reg: Reg)
  {
    && PromptRun(c, run) && (exists t :: run[0] == Started(t))
    && i < |run| - 1 && Enabled(run[i], Register(reg)) && run[i + 1] == Next(c, run[i], Register(reg))
    && forall k | i < k < |run| :: run[k].up && Timely(c, run[k], reg.id)
  }

  /** From Kontrol's start: once a kite has registered, first or again, its record is
      live at every later instant while the kite is heard from. */
  lemma RegisteredStaysLive(c: Config, run: seq<State>, i: nat, reg: Reg, j: nat)
    requires Ample(c) && RegistersAt(c, run, i, reg) && i < j < |run|
    ensures Live(run[j], reg.id)
  {
    OrderlyAlways(c, run);
    OrderlyStep(c, run[i], Register(reg));
    assert run[i + 1].up;
    RegisterCovers(c, run[i], reg);
    var rest := run[i + 1..];
    forall k | 0 <= k < |rest| - 1 ensures PromptAt(c, rest, k) {
      assert PromptAt(c, run, i + 1 + k);
    }
    LeaseHolds(c, rest, reg.id);
    assert Live(rest[j - i - 1], reg.id);
  }
}
