/** Calls and their replies: the response callback of every call gets an identifier,
    replies are addressed by it, and a waiter hands one response to the caller
    (client.go, dnode/callback.go). */
module Calls {
  import opened Wrappers
  import opened Text
  import opened DnodeScrub
  import DnodeReach

  // ------------------------------------------------ identifiers on the wire

  const EXACT: nat := 0x20_0000_0000_0000

  /** Distance between neighbouring float64 values at n. */
  function Spacing(n: nat): (s: nat)
    ensures s > 0
  {
    if n < EXACT then 1 else 2 * Spacing(n / 2)
  }

  /** The float64 nearest to n, ties to even. */
  function Float64(n: nat): nat
  {
    var s := Spacing(n);
    var q, r := n / s, n % s;
    if 2 * r < s || (2 * r == s && q % 2 == 0) then q * s else (q + 1) * s
  }

  /** An identifier sent as the key of the callbacks field, parsed by the other side
      and sent back as a JSON number, as the callback lookup sees it. */
  function Returned(id: nat): Option<nat>
  {
    match ParseUint(Format(id))
    case None => None
    case Some(n) => Some(Float64(n))
  }

  lemma FloatExact(n: nat)
    requires n <= EXACT
    ensures Float64(n) == n
  {
    if n == EXACT { assert Spacing(n) == 2 * Spacing(n / 2); }
  }

  /** Identifiers up to 2^53 come back unchanged. */
  lemma IdSurvives(id: nat)
    requires id <= EXACT
    ensures Returned(id) == Some(id)
  {
    ParseFormat(id);
    FloatExact(id);
  }

  /** Beyond, an identifier comes back unchanged exactly when it is a multiple of the
      spacing of float64 values there; 2^53 + 1 is the first that is not. */
  lemma FloatExactly(n: nat)
    ensures Float64(n) == n <==> n % Spacing(n) == 0
    ensures (EXACT + 1) % Spacing(EXACT + 1) != 0
  {
    var s := Spacing(n);
    var q, r := n / s, n % s;
    assert n == q * s + r;
    assert (q + 1) * s == q * s + s;
    assert Spacing(EXACT + 1) == 2 * Spacing((EXACT + 1) / 2);
  }

  // ------------------------------------------------ what is never removed

  /** sendCallbackID looks for this path, with a string where Scrub puts a number. */
  predicate IsResponsePath(p: Path) { p == [Key("0"), Key("responseCallback")] }

  /** No path of any message is the one sendCallbackID looks for, so it closes the
      channel without an identifier and response callbacks are never removed. */
  lemma ResponseNeverRemoved(args: seq<Value>, k: nat)
    requires !Collected(List(args), []).panics && k < |Collected(List(args), []).slots|
    ensures !IsResponsePath(Collected(List(args), []).slots[k].path)
  {
    var s := Collected(List(args), []).slots[k];
    DnodeReach.CollectedExactly(List(args), [], s.path, s.cb);
    assert s in Collected(List(args), []).slots && s.path[0..] == s.path;
  }

  // -------------------------------------------------------------- the calls

  /** A message that calls back identifier `to`, which comes as a JSON number. */
  datatype Reply = Reply(to: nat, body: nat)

  datatype Response = Result(reply: Reply) | SendError | Disconnected | TimedOut

  datatype Waiter = Queued | Selecting | Finished

  /** One call: the identifier of its response callback, its waiter, the channels
      doneChan and errC (one place each), what went to the caller, and the
      disconnect channel that the waiter selects on. */
  datatype Call = Call(id: nat, waiter: Waiter, done: Option<Reply>, failed: bool, out: seq<Response>, watched: Option<nat>)

  datatype Target = ResponseOf(call: nat) | UserCallback

  /** The client: callback counter and table, calls, the holder of disconnectMu, the
      disconnect channel (numbered, or nil), and the channels closed so far. */
  datatype State = State(next: nat, table: map<nat, Target>, calls: seq<Call>, holder: Option<nat>,
                         disconnect: Option<nat>, made: nat, closed: set<nat>)

  const FRESH := State(0, map[], [], None, Some(0), 1, {})

  datatype Why = Done | Hung | Failed | Late

  datatype Step =
    | Start(before: nat, after: nat, sent: bool)
    | Deliver(r: Reply)
    | SendFails(c: nat)
    | Acquire(c: nat)
    | Pick(c: nat, why: Why)
    | HangUp
    | Redial

  predicate Enabled(s: State, step: Step)
  {
    match step
    case Start(_, _, _) => true
    case Deliver(r) =>
      var id := Float64(r.to); id in s.table && s.table[id].ResponseOf? ==> s.table[id].call < |s.calls|
    case SendFails(c) => c < |s.calls|
    case Acquire(c) => c < |s.calls| && s.holder == None && s.calls[c].waiter == Queued
    case Pick(c, why) =>
      && c < |s.calls| && s.holder == Some(c) && s.calls[c].waiter == Selecting
      && (match why
          case Done => s.calls[c].done.Some?
          case Hung => s.calls[c].watched.Some? && s.calls[c].watched.value in s.closed
          case Failed => s.calls[c].failed
          case Late => true)
    case HangUp => s.holder == None
    case Redial => s.holder == None
  }

  /** The callbacks of one message: some of the caller's, the response callback, and
      more of the caller's. */
  function Scrubbed(table: map<nat, Target>, next: nat, n: nat, at: nat, call: nat): (t: map<nat, Target>)
    ensures forall id :: id in t <==> id in table || next <= id < next + n
    ensures forall id | id in t ::
              t[id] == if next <= id < next + n then (if id == at then ResponseOf(call) else UserCallback) else table[id]
  {
    if n == 0 then table
    else
      var last := next + n - 1;
      Scrubbed(table, next, n - 1, at, call)[last := if last == at then ResponseOf(call) else UserCallback]
  }

  function Answer(call: Call, why: Why): Response
    requires why == Done ==> call.done.Some?
  {
    match why
    case Done => Result(call.done.value)
    case Hung => Disconnected
    case Failed => SendError
    case Late => TimedOut
  }

  function Next(s: State, step: Step): State
    requires Enabled(s, step)
  {
    match step
    case Start(before, after, sent) =>
      var id, n := s.next + before, before + 1 + after;
      var call := if sent then Call(id, Queued, None, false, [], None)
                  else Call(id, Finished, None, false, [SendError], None);
      s.(next := s.next + n, table := Scrubbed(s.table, s.next, n, id, |s.calls|), calls := s.calls + [call])
    case Deliver(r) =>
      // the number is looked up as a float64; unknown identifiers are refused, and a
      // second reply to a full channel blocks
      var id := Float64(r.to);
      if id in s.table && s.table[id].ResponseOf? && s.calls[s.table[id].call].done == None then
        var c := s.table[id].call;
        s.(calls := s.calls[c := s.calls[c].(done := Some(r))])
      else s
    case SendFails(c) => s.(calls := s.calls[c := s.calls[c].(failed := true)])
    case Acquire(c) =>
      s.(holder := Some(c), calls := s.calls[c := s.calls[c].(waiter := Selecting, watched := s.disconnect)])
    case Pick(c, why) =>
      var call := s.calls[c];
      s.(holder := None,
         calls := s.calls[c := call.(waiter := Finished, out := call.out + [Answer(call, why)],
                                     done := if why == Done then None else call.done)])
    case HangUp =>
      if s.disconnect.Some? then s.(closed := s.closed + {s.disconnect.value}, disconnect := None) else s
    case Redial => s.(disconnect := Some(s.made), made := s.made + 1)
  }

  predicate CallOk(s: State, c: nat)
    requires c < |s.calls|
  {
    var call := s.calls[c];
    && call.id < s.next && call.id in s.table && s.table[call.id] == ResponseOf(c)
    && (call.done.Some? ==> Float64(call.done.value.to) == call.id)
    && |call.out| <= 1 && (call.waiter != Finished ==> call.out == [])
    && (forall i | 0 <= i < |call.out| :: !call.out[i].Disconnected?)
    && (forall i | 0 <= i < |call.out| && call.out[i].Result? :: Float64(call.out[i].reply.to) == call.id)
    && (call.waiter == Selecting <==> s.holder == Some(c))
    && (call.waiter == Selecting ==> call.watched == s.disconnect)
  }

  /** Identifiers are below the counter and belong to one call each; each call has
      handed out at most one response, a reply only if its address is the call's own
      identifier once it has been a float64, and never the disconnect error: the channel is closed under the
      mutex that the waiter holds while it selects. */
  ghost predicate Inv(s: State)
  {
    && (forall id | id in s.table :: id < s.next)
    && (forall id | id in s.table && s.table[id].ResponseOf? ::
          s.table[id].call < |s.calls| && s.calls[s.table[id].call].id == id)
    && (forall c | 0 <= c < |s.calls| :: CallOk(s, c))
    && (s.disconnect.Some? ==> s.disconnect.value < s.made && s.disconnect.value !in s.closed)
    && (forall e | e in s.closed :: e < s.made)
    && (s.holder.Some? ==> s.holder.value < |s.calls|)
  }

  lemma InvStart(s: State, before: nat, after: nat, sent: bool)
    requires Inv(s)
    ensures Inv(Next(s, Start(before, after, sent)))
  {
    var s' := Next(s, Start(before, after, sent));
    forall c | 0 <= c < |s'.calls| ensures CallOk(s', c) {
      if c < |s.calls| { assert CallOk(s, c); }
    }
  }

  /** Changing one call keeps the others. */
  lemma InvWith(s: State, c: nat, call: Call, holder: Option<nat>)
    requires Inv(s) && c < |s.calls| && call.id == s.calls[c].id
    requires var s' := s.(calls := s.calls[c := call], holder := holder); CallOk(s', c)
    requires holder == s.holder || (holder == Some(c) && s.holder == None) || (holder == None && s.holder == Some(c))
    ensures Inv(s.(calls := s.calls[c := call], holder := holder))
  {
    var s' := s.(calls := s.calls[c := call], holder := holder);
    forall d | 0 <= d < |s'.calls| ensures CallOk(s', d) {
      if d != c { assert CallOk(s, d); }
    }
  }

  lemma InvDeliver(s: State, r: Reply)
    requires Inv(s)
    ensures Inv(Next(s, Deliver(r)))
  {
    var s' := Next(s, Deliver(r));
    if s' != s {
      var c := s.table[Float64(r.to)].call;
      assert CallOk(s, c);
      InvWith(s, c, s'.calls[c], s.holder);
    }
  }

  lemma InvPick(s: State, c: nat, why: Why)
    requires Inv(s) && Enabled(s, Pick(c, why))
    ensures Inv(Next(s, Pick(c, why)))
  {
    assert CallOk(s, c);
    InvWith(s, c, Next(s, Pick(c, why)).calls[c], None);
  }

  /** Closing or replacing the disconnect channel concerns no waiter: none selects. */
  lemma InvChannel(s: State, s': State)
    requires Inv(s) && s.holder == None
    requires s' == s.(disconnect := s'.disconnect, made := s'.made, closed := s'.closed)
    requires s'.disconnect.Some? ==> s'.disconnect.value < s'.made && s'.disconnect.value !in s'.closed
    requires forall e | e in s'.closed :: e < s'.made
    ensures Inv(s')
  {
    forall d | 0 <= d < |s'.calls| ensures CallOk(s', d) {
      assert CallOk(s, d);
    }
  }

  lemma InvStep(s: State, step: Step)
    requires Inv(s) && Enabled(s, step)
    ensures Inv(Next(s, step))
  {
    var s' := Next(s, step);
    match step
    case Start(before, after, sent) => InvStart(s, before, after, sent);
    case Deliver(r) => InvDeliver(s, r);
    case SendFails(c) =>
      assert CallOk(s, c);
      InvWith(s, c, s'.calls[c], s.holder);
    case Acquire(c) =>
      assert CallOk(s, c);
      InvWith(s, c, s'.calls[c], Some(c));
    case Pick(c, why) => InvPick(s, c, why);
    case HangUp => InvChannel(s, s');
    case Redial => InvChannel(s, s');
  }

  /** Nothing is forgotten: identifiers keep their target, counters only grow, and a
      call's identifier and earlier responses stay. */
  ghost predicate Grows(a: State, b: State)
  {
    && a.next <= b.next && |a.calls| <= |b.calls|
    && (forall id | id in a.table :: id in b.table && b.table[id] == a.table[id])
    && (forall id | id in b.table && id !in a.table :: a.next <= id)
    && (forall c | 0 <= c < |a.calls| :: b.calls[c].id == a.calls[c].id && a.calls[c].out <= b.calls[c].out)
    && (forall c | |a.calls| <= c < |b.calls| :: a.next <= b.calls[c].id)
  }

  ghost predicate Linked(a: State, b: State) { exists step :: Enabled(a, step) && b == Next(a, step) }

  ghost predicate LinkedAt(run: seq<State>, i: nat)
    requires i < |run| - 1
  {
    Linked(run[i], run[i + 1])
  }

  ghost predicate Run(run: seq<State>)
  {
    run != [] && run[0] == FRESH && forall i | 0 <= i < |run| - 1 :: LinkedAt(run, i)
  }

  /** Over any run of calls, replies, duplicate and late replies, send errors,
      timeouts, hang-ups and redials. */
  lemma AlwaysCorrelated(run: seq<State>)
    requires Run(run)
    ensures forall i | 0 <= i < |run| :: Inv(run[i])
  {
    for i := 1 to |run|
      invariant forall k | 0 <= k < i :: Inv(run[k])
    {
      assert LinkedAt(run, i - 1);
      var step :| Enabled(run[i - 1], step) && run[i] == Next(run[i - 1], step);
      InvStep(run[i - 1], step);
    }
  }

  /** A reply that finds the channel of its call empty goes into it, whatever the waiter
      does, and changes nothing else. */
  lemma ReplyArrives(s: State, c: nat, r: Reply)
    requires Inv(s) && c < |s.calls| && Float64(r.to) == s.calls[c].id && s.calls[c].done == None
    ensures Enabled(s, Deliver(r)) && Next(s, Deliver(r)) == s.(calls := s.calls[c := s.calls[c].(done := Some(r))])
  {
    assert CallOk(s, c);
  }

  /** A reply that finds no such channel, because its address belongs to no call or its
      call has been answered already, changes nothing. */
  lemma ReplyBlocks(s: State, r: Reply)
    requires Inv(s) && forall c | 0 <= c < |s.calls| && s.calls[c].id == Float64(r.to) :: s.calls[c].done.Some?
    ensures Enabled(s, Deliver(r)) && Next(s, Deliver(r)) == s
  {}

  /** Only the mutex keeps the disconnect error away: a waiter that selects on a channel
      that is closed can hand it out. */
  lemma HangUpWouldShow(s: State, c: nat)
    requires c < |s.calls| && s.holder == Some(c) && s.calls[c].waiter == Selecting
    requires s.calls[c].watched.Some? && s.calls[c].watched.value in s.closed
    ensures Enabled(s, Pick(c, Hung)) && Next(s, Pick(c, Hung)).calls[c].out == s.calls[c].out + [Disconnected]
  {}

  /** A waiter that has its turn can always hand out what has come, and hands out exactly
      that: the reply in the channel, the send error, or the timeout; then it is done and
      the mutex is free. */
  lemma WaiterHandsOut(s: State, c: nat, why: Why)
    requires Inv(s) && s.holder == Some(c) && why != Hung
    requires (why == Done ==> s.calls[c].done.Some?) && (why == Failed ==> s.calls[c].failed)
    ensures Enabled(s, Pick(c, why))
    ensures var s' := Next(s, Pick(c, why));
            && s'.holder == None && |s'.calls| == |s.calls| && s'.calls[c].waiter == Finished
            && s'.calls[c].done == (if why == Done then None else s.calls[c].done)
            && s'.calls[c].out == [if why == Done then Result(s.calls[c].done.value) else if why == Failed then SendError else TimedOut]
            && forall d | 0 <= d < |s.calls| && d != c :: s'.calls[d] == s.calls[d]
  {
    assert CallOk(s, c);
  }

  /** Every queued waiter gets its turn when the mutex is free, and a failed send is seen
      by its call. */
  lemma WaiterStarts(s: State, c: nat)
    requires Inv(s) && c < |s.calls|
    ensures s.holder == None && s.calls[c].waiter == Queued ==>
              Enabled(s, Acquire(c)) && Next(s, Acquire(c)).holder == Some(c) && Next(s, Acquire(c)).calls[c].waiter == Selecting
    ensures Enabled(s, SendFails(c)) && Next(s, SendFails(c)).calls[c].failed
  {}

  /** A hang-up closes the present channel for good; a redial makes one that is open. */
  lemma ChannelsComeAndGo(s: State)
    requires Inv(s) && s.holder == None
    ensures Enabled(s, HangUp) && Enabled(s, Redial)
    ensures var s' := Next(s, HangUp);
            s'.disconnect == None && s'.calls == s.calls && (s.disconnect.Some? ==> s'.closed == s.closed + {s.disconnect.value})
    ensures var s' := Next(s, Redial); s'.disconnect.Some? && s'.disconnect.value !in s'.closed && s'.closed == s.closed
  {}

  /** A call whose message cannot be sent ends at once with the send error; any other
      waits. Its identifier follows those of the callbacks before it. */
  lemma CallStarts(s: State, before: nat, after: nat, sent: bool)
    requires Inv(s)
    ensures var s' := Next(s, Start(before, after, sent));
            && |s'.calls| == |s.calls| + 1 && s'.next == s.next + before + 1 + after
            && s'.calls[|s.calls|].id == s.next + before
            && (sent ==> s'.calls[|s.calls|].waiter == Queued && s'.calls[|s.calls|].out == [])
            && (!sent ==> s'.calls[|s.calls|].waiter == Finished && s'.calls[|s.calls|].out == [SendError])
  {}

  /** A reply handed out was addressed to the call's own identifier exactly when its
      address is a float64, which all addresses up to 2^53 are. */
  lemma AddressedExactly(run: seq<State>, i: nat, c: nat, j: nat)
    requires Run(run) && i < |run| && c < |run[i].calls| && j < |run[i].calls[c].out| && run[i].calls[c].out[j].Result?
    ensures var call := run[i].calls[c]; var to := call.out[j].reply.to;
            (to == call.id <==> to % Spacing(to) == 0) && (to <= EXACT ==> to == call.id)
  {
    AlwaysCorrelated(run);
    assert CallOk(run[i], c);
    var to := run[i].calls[c].out[j].reply.to;
    FloatExactly(to);
    if to <= EXACT { FloatExact(to); }
  }

  ghost predicate CanReach(s: State) { exists run :: Run(run) && run[|run| - 1] == s }

  lemma Onward(at: State, step: Step)
    requires CanReach(at) && Enabled(at, step)
    ensures CanReach(Next(at, step))
  {
    var run :| Run(run) && run[|run| - 1] == at;
    var longer := run + [Next(at, step)];
    forall i | 0 <= i < |longer| - 1 ensures LinkedAt(longer, i) {
      if i < |run| - 1 { assert LinkedAt(run, i); } else { assert longer[i] == at; }
    }
    assert Run(longer);
  }

  /** Two calls whose identifiers are the same float64. */
  predicate Crossed(s: State)
  {
    && |s.calls| == 2 && s.calls[0] == Call(EXACT, Queued, None, false, [], None) && s.calls[1].id == EXACT + 1
    && s.holder == None && EXACT in s.table && s.table[EXACT] == ResponseOf(0) && Float64(EXACT + 1) == EXACT
  }

  lemma CrossedOccurs()
    ensures exists s :: CanReach(s) && Crossed(s)
  {
    assert Run([FRESH]);
    Onward(FRESH, Start(EXACT, 0, true));
    var s := Next(FRESH, Start(EXACT, 0, true));
    Onward(s, Start(0, 0, true));
    assert Spacing(EXACT + 1) == 2 * Spacing((EXACT + 1) / 2);
    assert Crossed(Next(s, Start(0, 0, true)));
  }

  /** Call 0 has been given a reply that was addressed to call 1. */
  predicate Misdelivered(s: State)
  {
    |s.calls| == 2 && s.calls[0].out == [Result(Reply(s.calls[1].id, 0))] && s.calls[0].id != s.calls[1].id
  }

  /** Beyond 2^53 replies do go astray: 2^53 + 1 arrives as 2^53. */
  lemma MisdeliveryOccurs()
    ensures exists s :: CanReach(s) && Misdelivered(s)
  {
    CrossedOccurs();
    var s :| CanReach(s) && Crossed(s);
    var r := Reply(EXACT + 1, 0);
    Onward(s, Deliver(r));
    var s1 := Next(s, Deliver(r));
    assert s1.calls == s.calls[0 := s.calls[0].(done := Some(r))];
    Onward(s1, Acquire(0));
    var s2 := Next(s1, Acquire(0));
    Onward(s2, Pick(0, Done));
    assert Misdelivered(Next(s2, Pick(0, Done)));
  }

  lemma GrowsStep(s: State, step: Step)
    requires Inv(s) && Enabled(s, step)
    ensures Grows(s, Next(s, step))
  {}

  /** Identifiers are never reused: what one state has given out, every later state
      keeps, and new calls get identifiers not given out before. */
  lemma {:induction false} NeverReused(run: seq<State>, i: nat, j: nat)
    requires Run(run) && i <= j < |run|
    ensures Grows(run[i], run[j])
    decreases j
  {
    if i == j {
      GrowsSelf(run[i]);
    } else {
      NeverReused(run, i, j - 1);
      GrowsOn(run[i], run, j);
    }
  }

  lemma GrowsOn(a: State, run: seq<State>, j: nat)
    requires Run(run) && 0 < j < |run| && Grows(a, run[j - 1])
    ensures Grows(a, run[j])
  {
    CorrelatedAt(run, j - 1);
    GrowsLinked(a, run[j - 1], run[j]);
  }

  lemma GrowsSelf(a: State)
    ensures Grows(a, a)
  {}

  lemma CorrelatedAt(run: seq<State>, i: nat)
    requires Run(run) && i < |run| - 1
    ensures Inv(run[i]) && Linked(run[i], run[i + 1])
  {
    AlwaysCorrelated(run);
    assert LinkedAt(run, i);
  }

  lemma GrowsLinked(a: State, b: State, c: State)
    requires Grows(a, b) && Inv(b) && Linked(b, c)
    ensures Grows(a, c)
  {
    var step :| Enabled(b, step) && c == Next(b, step);
    GrowsStep(b, step);
    GrowsTrans(a, b, c);
  }

  lemma GrowsTrans(a: State, b: State, c: State)
    requires Grows(a, b) && Grows(b, c)
    ensures Grows(a, c)
  {}
}
