/** Kites that register over plain HTTP: a table of heartbeat entries under a mutex,
    and for each entry a timer, a ticker and an updater goroutine
    (kontrol/http.go). Times are nanoseconds. */
module HttpHeartbeat {
  import opened Wrappers
  import opened Intervals

  predicate Sane(c: Config) { c.window > 0 && c.updateInterval > 0 && c.ttl > 0 }

  /** One heartbeat object with its goroutine. armed is the timer's deadline;
      started and waiting count timer functions that have begun, before and after
      they stopped the ticker; closes counts closings of updateC. */
  datatype Beat = Beat(id: string, open: bool, closes: nat, armed: Option<int>, started: nat, waiting: nat,
                       ticking: bool, nextTick: int, tick: bool, running: bool, update: string)

  /** A registration between its store write and the mutex. */
  datatype Reg = Reg(id: string, value: string)

  /** The mutex: free, or held by a re-registration whose send has not completed. */
  datatype Lock = Free | Sending(h: nat, value: string)

  datatype Record = Record(expiry: int, value: string)

  /** What happened, for statements about whole runs: a registration left the
      critical section, or an updater wrote. */
  datatype Event = Passed(h: nat, value: string) | Wrote(h: nat, value: string)

  datatype State = State(now: int, up: bool, table: map<string, nat>, beats: seq<Beat>, lock: Lock,
                         regs: multiset<Reg>, store: map<string, Record>, contact: map<string, int>,
                         log: seq<Event>, panicked: bool)

  function Started(t: int): State
  {
    State(t, true, map[], [], Free, multiset{}, map[], map[], [], false)
  }

  datatype Step =
    | Tick(d: int)
    | Upsert(reg: Reg)
    | Register(reg: Reg)
    | Receive
    | SendOnClosed
    | Heartbeat(id: string)
    | Fire(h: nat)
    | StopTicker(h: nat)
    | RunTimer(h: nat)
    | Tock(h: nat)
    | Write(h: nat)
    | Exit(h: nat)
    | Shutdown

  predicate Enabled(s: State, step: Step)
  {
    match step
    case Tick(d) => d > 0
    case Upsert(_) => true
    case Register(reg) => s.lock.Free? && reg in s.regs && (reg.id in s.table ==> s.table[reg.id] < |s.beats|)
    case Receive => s.lock.Sending? && s.lock.h < |s.beats| && s.beats[s.lock.h].open && s.beats[s.lock.h].running
    case SendOnClosed => s.lock.Sending? && s.lock.h < |s.beats| && !s.beats[s.lock.h].open
    case Heartbeat(id) => s.lock.Free? && (id in s.table ==> s.table[id] < |s.beats|)
    case Fire(h) => h < |s.beats| && s.beats[h].armed.Some? && s.now >= s.beats[h].armed.value
    case StopTicker(h) => h < |s.beats| && s.beats[h].started > 0
    case RunTimer(h) => h < |s.beats| && s.beats[h].waiting > 0 && s.lock.Free?
    case Tock(h) => h < |s.beats| && s.beats[h].ticking && s.now >= s.beats[h].nextTick
    case Write(h) => h < |s.beats| && s.beats[h].running && s.beats[h].tick
    case Exit(h) => h < |s.beats| && s.beats[h].running && (!s.beats[h].open || !s.up)
    case Shutdown => true
  }

  function With(s: State, h: nat, b: Beat): State
    requires h < |s.beats|
  {
    s.(beats := s.beats[h := b])
  }

  function Next(c: Config, s: State, step: Step): State
    requires Enabled(s, step)
  {
    match step
    case Tick(d) => s.(now := s.now + d)
    case Upsert(reg) =>
      s.(regs := s.regs + multiset{reg}, store := s.store[reg.id := Record(s.now + c.ttl, reg.value)],
         contact := s.contact[reg.id := s.now])
    case Register(reg) =>
      var t := s.(regs := s.regs - multiset{reg}, contact := s.contact[reg.id := s.now]);
      if reg.id in s.table then
        var h := s.table[reg.id];
        With(t, h, s.beats[h].(armed := Some(s.now + c.window))).(lock := Sending(h, reg.value))
      else
        t.(table := s.table[reg.id := |s.beats|], log := s.log + [Passed(|s.beats|, reg.value)],
           beats := s.beats + [Beat(reg.id, true, 0, Some(s.now + c.window), 0, 0, true,
                                    s.now + c.updateInterval, false, true, reg.value)])
    case Receive =>
      With(s, s.lock.h, s.beats[s.lock.h].(update := s.lock.value))
        .(lock := Free, log := s.log + [Passed(s.lock.h, s.lock.value)])
    case SendOnClosed => s.(panicked := true)
    case Heartbeat(id) =>
      if id in s.table then
        var h := s.table[id];
        With(s, h, s.beats[h].(armed := Some(s.now + c.window))).(contact := s.contact[id := s.now])
      else s
    case Fire(h) => With(s, h, s.beats[h].(armed := None, started := s.beats[h].started + 1))
    case StopTicker(h) =>
      With(s, h, s.beats[h].(started := s.beats[h].started - 1, waiting := s.beats[h].waiting + 1, ticking := false))
    case RunTimer(h) =>
      var b := s.beats[h];
      // a receive from a closed channel succeeds at once; otherwise the channel is closed here
      var b' := if b.open then b.(open := false, closes := b.closes + 1, waiting := b.waiting - 1)
                else b.(waiting := b.waiting - 1);
      With(s, h, b').(table := s.table - {b.id})
    case Tock(h) =>
      With(s, h, s.beats[h].(tick := true, nextTick := s.beats[h].nextTick + c.updateInterval))
    case Write(h) =>
      var b := s.beats[h];
      With(s, h, b.(tick := false))
        .(store := s.store[b.id := Record(s.now + c.ttl, b.update)], log := s.log + [Wrote(h, b.update)])
    case Exit(h) => With(s, h, s.beats[h].(running := false))
    case Shutdown => s.(up := false)
  }

  ghost predicate Linked(c: Config, a: State, b: State)
  {
    exists step :: Enabled(a, step) && b == Next(c, a, step)
  }

  ghost predicate Run(c: Config, run: seq<State>)
  {
    && run != [] && (exists t :: run[0] == Started(t))
    && forall i | 0 <= i < |run| - 1 :: Linked(c, run[i], run[i + 1])
  }

  // -------------------------------------------------------- safety of the table

  predicate BeatOk(b: Beat, up: bool)
  {
    && b.closes == (if b.open then 0 else 1)
    && (b.open ==> b.armed.Some? || b.started + b.waiting > 0)
    && (b.open && up ==> b.running)
  }

  /** No channel is closed twice; no send hits a closed one; every table entry is
      an open heartbeat of that ID, with a live updater while Kontrol is up; every
      updater not yet stopped has a timer armed or a timer function on its way. */
  ghost predicate Safe(s: State)
  {
    && !s.panicked
    && (forall h | 0 <= h < |s.beats| :: BeatOk(s.beats[h], s.up))
    && (forall id | id in s.table ::
          s.table[id] < |s.beats| && s.beats[s.table[id]].id == id && s.beats[s.table[id]].open)
    && (s.lock.Sending? ==>
          && s.lock.h < |s.beats|
          && s.beats[s.lock.h].id in s.table && s.table[s.beats[s.lock.h].id] == s.lock.h)
  }

  lemma SafeWith(s: State, h: nat, b: Beat)
    requires Safe(s) && h < |s.beats| && BeatOk(b, s.up)
    requires b.id == s.beats[h].id && b.open == s.beats[h].open
    ensures Safe(With(s, h, b))
  {}

  lemma SafeRegister(c: Config, s: State, reg: Reg)
    requires Safe(s) && Enabled(s, Register(reg))
    ensures Safe(Next(c, s, Register(reg)))
  {
    if reg.id in s.table {
      var h := s.table[reg.id];
      SafeWith(s, h, s.beats[h].(armed := Some(s.now + c.window)));
    }
  }

  lemma SafeRunTimer(c: Config, s: State, h: nat)
    requires Safe(s) && Enabled(s, RunTimer(h))
    ensures Safe(Next(c, s, RunTimer(h)))
  {
    var s' := Next(c, s, RunTimer(h));
    forall id | id in s'.table ensures s'.beats[s'.table[id]].id == id && s'.beats[s'.table[id]].open {
      assert id in s.table && s.table[id] != h;
    }
  }

  lemma SafeBeat(c: Config, s: State, step: Step, h: nat)
    requires Safe(s) && Enabled(s, step) && h < |s.beats|
    requires step in {Fire(h), StopTicker(h), Tock(h), Write(h), Exit(h)}
    ensures Safe(Next(c, s, step))
  {
    SafeWith(s, h, Next(c, s, step).beats[h]);
  }

  /** Every step keeps the table safe. */
  lemma SafeStep(c: Config, s: State, step: Step)
    requires Safe(s) && Enabled(s, step)
    ensures Safe(Next(c, s, step))
  {
    match step
    case Register(reg) => SafeRegister(c, s, reg);
    case RunTimer(h) => SafeRunTimer(c, s, h);
    case Receive => SafeWith(s, s.lock.h, s.beats[s.lock.h].(update := s.lock.value));
    case SendOnClosed => assert false;
    case Heartbeat(id) =>
      if id in s.table { SafeWith(s, s.table[id], s.beats[s.table[id]].(armed := Some(s.now + c.window))); }
    case Fire(h) => SafeBeat(c, s, step, h);
    case StopTicker(h) => SafeBeat(c, s, step, h);
    case Tock(h) => SafeBeat(c, s, step, h);
    case Write(h) => SafeBeat(c, s, step, h);
    case Exit(h) => SafeBeat(c, s, step, h);
    case Shutdown =>
    case Tick(_) =>
    case Upsert(_) =>
  }

  /** The table is safe in every state of every run, in any interleaving of
      registrations, heartbeats, firings, and resets racing with firings. */
  lemma AlwaysSafe(c: Config, run: seq<State>)
    requires Run(c, run)
    ensures forall i | 0 <= i < |run| :: Safe(run[i])
  {
    for i := 1 to |run|
      invariant forall k | 0 <= k < i :: Safe(run[k])
    {
      assert Linked(c, run[i - 1], run[i]);
      var step :| Enabled(run[i - 1], step) && run[i] == Next(c, run[i - 1], step);
      SafeStep(c, run[i - 1], step);
    }
  }

  // ------------------------------------------------------------ newest value

  /** The last registration of h to leave the critical section. */
  function Newest(log: seq<Event>, h: nat): Option<string>
  {
    if log == [] then None
    else
      var e := log[|log| - 1];
      if e.Passed? && e.h == h then Some(e.value) else Newest(log[..|log| - 1], h)
  }

  ghost predicate WritesNewest(log: seq<Event>)
  {
    forall i | 0 <= i < |log| && log[i].Wrote? :: Newest(log[..i], log[i].h) == Some(log[i].value)
  }

  ghost predicate Tracked(s: State)
  {
    && (forall h | 0 <= h < |s.beats| :: Newest(s.log, h) == Some(s.beats[h].update))
    && (forall h: nat | h >= |s.beats| :: Newest(s.log, h) == None)
    && WritesNewest(s.log)
  }

  lemma NewestSnoc(log: seq<Event>, e: Event, h: nat)
    ensures Newest(log + [e], h) == if e.Passed? && e.h == h then Some(e.value) else Newest(log, h)
  {
    assert (log + [e])[..|log|] == log;
  }

  lemma WritesSnoc(log: seq<Event>, e: Event)
    requires WritesNewest(log) && (e.Wrote? ==> Newest(log, e.h) == Some(e.value))
    ensures WritesNewest(log + [e])
  {
    var l := log + [e];
    forall i | 0 <= i < |l| && l[i].Wrote? ensures Newest(l[..i], l[i].h) == Some(l[i].value) {
      assert l[..i] == log[..i];
      assert log[..|log|] == log;
    }
  }

  /** Where an entry's value changes or a write happens, the log says so. */
  ghost predicate Logged(s: State, s': State)
  {
    || (s'.log == s.log && |s'.beats| == |s.beats|
        && forall h | 0 <= h < |s.beats| :: s'.beats[h].update == s.beats[h].update)
    || exists e ::
         && s'.log == s.log + [e] && |s.beats| <= |s'.beats| <= |s.beats| + 1 && e.h < |s'.beats|
         && (e.Wrote? ==> |s'.beats| == |s.beats| && e.value == s.beats[e.h].update)
         && (e.Passed? ==> s'.beats[e.h].update == e.value && (|s.beats| < |s'.beats| ==> e.h == |s.beats|))
         && forall h | 0 <= h < |s.beats| && (e.Wrote? || h != e.h) :: s'.beats[h].update == s.beats[h].update
  }

  lemma LoggedRegister(c: Config, s: State, reg: Reg)
    requires Safe(s) && Enabled(s, Register(reg))
    ensures Logged(s, Next(c, s, Register(reg)))
  {
    var s' := Next(c, s, Register(reg));
    if reg.id !in s.table { assert s'.log == s.log + [Passed(|s.beats|, reg.value)]; }
  }

  lemma LoggedReceive(c: Config, s: State)
    requires Safe(s) && Enabled(s, Receive)
    ensures Logged(s, Next(c, s, Receive))
  {
    assert Next(c, s, Receive).log == s.log + [Passed(s.lock.h, s.lock.value)];
  }

  lemma LoggedWrite(c: Config, s: State, h: nat)
    requires Safe(s) && Enabled(s, Write(h))
    ensures Logged(s, Next(c, s, Write(h)))
  {
    assert Next(c, s, Write(h)).log == s.log + [Wrote(h, s.beats[h].update)];
  }

  lemma LoggedBeat(s: State, s': State, h: nat)
    requires h < |s.beats| == |s'.beats| && s'.log == s.log
    requires s'.beats == s.beats[h := s'.beats[h]] && s'.beats[h].update == s.beats[h].update
    ensures Logged(s, s')
  {}

  lemma LoggedStep(c: Config, s: State, step: Step)
    requires Safe(s) && Enabled(s, step)
    ensures Logged(s, Next(c, s, step))
  {
    var s' := Next(c, s, step);
    match step
    case Register(reg) => LoggedRegister(c, s, reg);
    case Receive => LoggedReceive(c, s);
    case Write(h) => LoggedWrite(c, s, h);
    case Heartbeat(id) => if id in s.table { LoggedBeat(s, s', s.table[id]); }
    case Fire(h) => LoggedBeat(s, s', h);
    case StopTicker(h) => LoggedBeat(s, s', h);
    case RunTimer(h) => LoggedBeat(s, s', h);
    case Tock(h) => LoggedBeat(s, s', h);
    case Exit(h) => LoggedBeat(s, s', h);
    case _ =>
  }

  lemma TrackedLogged(s: State, s': State)
    requires Tracked(s) && Logged(s, s')
    ensures Tracked(s')
  {
    if s'.log != s.log {
      var e := s'.log[|s.log|];
      forall h: nat ensures Newest(s'.log, h) == if e.Passed? && e.h == h then Some(e.value) else Newest(s.log, h) {
        NewestSnoc(s.log, e, h);
      }
      WritesSnoc(s.log, e);
    }
  }

  lemma TrackedStep(c: Config, s: State, step: Step)
    requires Safe(s) && Tracked(s) && Enabled(s, step)
    ensures Tracked(Next(c, s, step))
  {
    LoggedStep(c, s, step);
    TrackedLogged(s, Next(c, s, step));
  }

  lemma TrackedStart(s: State)
    requires exists t :: s == Started(t)
    ensures Tracked(s)
  {
    assert s.beats == [] && s.log == [];
  }

  lemma TrackedLinked(c: Config, a: State, b: State)
    requires Safe(a) && Tracked(a) && Linked(c, a, b)
    ensures Tracked(b)
  {
    var step :| Enabled(a, step) && b == Next(c, a, step);
    TrackedStep(c, a, step);
  }

  /** Every write by an updater carries the value of the last registration of its
      entry that left the critical section before it. */
  lemma AlwaysNewest(c: Config, run: seq<State>)
    requires Run(c, run)
    ensures forall i | 0 <= i < |run| :: Tracked(run[i])
  {
    AlwaysSafe(c, run);
    TrackedStart(run[0]);
    for i := 1 to |run|
      invariant forall k | 0 <= k < i :: Tracked(run[k])
    {
      assert Linked(c, run[i - 1], run[i]);
      TrackedLinked(c, run[i - 1], run[i]);
    }
  }

  // ------------------------------------------------------- what is in the store

  /** The record of id has just been written with the value; all others are kept. */
  ghost predicate Stored(before: map<string, Record>, after: map<string, Record>, id: string, value: string, expiry: int)
  {
    && id in after && after[id].value == value && after[id].expiry == expiry
    && forall x | x != id :: (x in after <==> x in before) && (x in before ==> after[x] == before[x])
  }

  /** From a to b the store changes as it should: a write that is logged puts the value
      of the last registration of its entry under the ID of that entry, a registration
      that begins puts its own value under its own ID, and nothing else changes it. */
  ghost predicate StoreFollows(c: Config, a: State, b: State)
  {
    && (forall h: nat, v | b.log == a.log + [Wrote(h, v)] ::
          h < |a.beats| && Newest(a.log, h) == Some(v) && Stored(a.store, b.store, a.beats[h].id, v, a.now + c.ttl))
    && (forall reg | b.regs == a.regs + multiset{reg} :: Stored(a.store, b.store, reg.id, reg.value, a.now + c.ttl))
    && ((forall h: nat, v :: b.log != a.log + [Wrote(h, v)]) && (forall reg :: b.regs != a.regs + multiset{reg}) ==>
          b.store == a.store)
  }

  lemma WroteBy(c: Config, s: State, step: Step, h: nat, v: string)
    requires Enabled(s, step) && Next(c, s, step).log == s.log + [Wrote(h, v)]
    ensures step == Write(h) && v == s.beats[h].update
  {
    var log := Next(c, s, step).log;
    assert |log| == |s.log| + 1 && log[|s.log|] == Wrote(h, v);
  }

  lemma BegunBy(c: Config, s: State, step: Step, reg: Reg)
    requires Enabled(s, step) && Next(c, s, step).regs == s.regs + multiset{reg}
    ensures step == Upsert(reg)
  {
    var regs := Next(c, s, step).regs;
    assert regs[reg] == s.regs[reg] + 1;
  }

  lemma WriteStores(c: Config, s: State, h: nat)
    requires Tracked(s) && Enabled(s, Write(h))
    ensures var s' := Next(c, s, Write(h));
            && s'.log == s.log + [Wrote(h, s.beats[h].update)] && Newest(s.log, h) == Some(s.beats[h].update)
            && Stored(s.store, s'.store, s.beats[h].id, s.beats[h].update, s.now + c.ttl)
  {}

  lemma UpsertStores(c: Config, s: State, reg: Reg)
    ensures var s' := Next(c, s, Upsert(reg));
            s'.regs == s.regs + multiset{reg} && Stored(s.store, s'.store, reg.id, reg.value, s.now + c.ttl)
  {}

  lemma StoreKept(c: Config, s: State, step: Step)
    requires Enabled(s, step) && !step.Write? && !step.Upsert?
    ensures Next(c, s, step).store == s.store
  {
    match step
    case Register(_) =>
    case Receive =>
    case Heartbeat(_) =>
    case Fire(_) =>
    case StopTicker(_) =>
    case RunTimer(_) =>
    case Tock(_) =>
    case Exit(_) =>
    case _ =>
  }

  lemma StoreStep(c: Config, s: State, step: Step)
    requires Tracked(s) && Enabled(s, step)
    ensures StoreFollows(c, s, Next(c, s, step))
  {
    var s' := Next(c, s, step);
    forall h: nat, v | s'.log == s.log + [Wrote(h, v)]
      ensures h < |s.beats| && Newest(s.log, h) == Some(v) && Stored(s.store, s'.store, s.beats[h].id, v, s.now + c.ttl)
    {
      WroteBy(c, s, step, h, v);
      WriteStores(c, s, h);
    }
    forall reg | s'.regs == s.regs + multiset{reg} ensures Stored(s.store, s'.store, reg.id, reg.value, s.now + c.ttl) {
      BegunBy(c, s, step, reg);
      UpsertStores(c, s, reg);
    }
    match step
    case Write(h) => WriteStores(c, s, h);
    case Upsert(reg) => UpsertStores(c, s, reg);
    case _ => StoreKept(c, s, step);
  }

  /** Over every run, what updaters write into the store is what the log says, and
      registrations write their own value. */
  lemma StoreAlwaysFollows(c: Config, run: seq<State>)
    requires Run(c, run)
    ensures forall i | 0 <= i < |run| - 1 :: StoreFollows(c, run[i], run[i + 1])
  {
    AlwaysNewest(c, run);
    forall i | 0 <= i < |run| - 1 ensures StoreFollows(c, run[i], run[i + 1]) {
      assert Linked(c, run[i], run[i + 1]);
      var step :| Enabled(run[i], step) && run[i + 1] == Next(c, run[i], step);
      StoreStep(c, run[i], step);
    }
  }

  // ------------------------------------------------ registrations get through

  /** A registration of a kite that has no entry makes one for its value; one that has
      keeps its entry, and holds the mutex until the updater has taken its value. */
  lemma RegisterTakes(c: Config, s: State, reg: Reg)
    requires Enabled(s, Register(reg))
    ensures var s' := Next(c, s, Register(reg));
            && s'.regs == s.regs - multiset{reg} && reg.id in s'.table
            && if reg.id in s.table then s'.table == s.table && s'.lock == Sending(s.table[reg.id], reg.value) && s'.log == s.log
               else
                 && s'.table == s.table[reg.id := |s.beats|] && s'.lock == s.lock && |s'.beats| == |s.beats| + 1
                 && s'.beats[|s.beats|].id == reg.id && s'.beats[|s.beats|].update == reg.value
                 && s'.log == s.log + [Passed(|s.beats|, reg.value)]
  {}

  /** The mutex stays held until the updater has received the value, and then the
      updater has that value. */
  lemma SendingEnds(c: Config, s: State, step: Step)
    requires Safe(s) && Enabled(s, step) && s.lock.Sending?
    ensures var s' := Next(c, s, step);
            if step.Receive? then
              && s'.lock.Free? && s'.log == s.log + [Passed(s.lock.h, s.lock.value)]
              && s'.beats[s.lock.h].update == s.lock.value
            else s'.lock == s.lock && s'.table == s.table
  {}

  /** In a safe state no send is about to hit a closed channel, and a registration that
      holds the mutex can hand its value over while Kontrol is up. */
  lemma SendsHitOpen(s: State)
    requires Safe(s) && s.lock.Sending?
    ensures !Enabled(s, SendOnClosed) && (s.up ==> Enabled(s, Receive))
  {
    assert BeatOk(s.beats[s.lock.h], s.up);
  }

  /** An updater that runs may write as soon as a tick has come, whoever holds the mutex
      and even after Kontrol was closed, and the tick is then used up. */
  lemma TickWrites(c: Config, s: State, h: nat)
    requires h < |s.beats| && s.beats[h].ticking && s.beats[h].running && s.now >= s.beats[h].nextTick
    ensures Enabled(s, Tock(h)) && Enabled(Next(c, s, Tock(h)), Write(h))
    ensures var s' := Next(c, Next(c, s, Tock(h)), Write(h));
            s'.beats[h] == s.beats[h].(tick := false, nextTick := s.beats[h].nextTick + c.updateInterval)
  {}

  /** What safety excludes would show: a send on a closed channel panics, and each
      closing is counted. */
  lemma FaultsShow(c: Config, s: State, h: nat)
    ensures Enabled(s, SendOnClosed) ==> Next(c, s, SendOnClosed).panicked
    ensures Enabled(s, RunTimer(h)) ==>
              Next(c, s, RunTimer(h)).beats[h].closes - s.beats[h].closes == if s.beats[h].open then 1 else 0
  {}

  /** Closing Kontrol lets every updater stop and does nothing else. */
  lemma ShutdownStops(c: Config, s: State, h: nat)
    requires h < |s.beats| && s.beats[h].running
    ensures var s' := Next(c, s, Shutdown);
            Enabled(s', Exit(h)) && s' == s.(up := false) && !Next(c, s', Exit(h)).beats[h].running
  {}
}
