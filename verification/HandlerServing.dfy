/** Requests to one method served concurrently: each is authenticated, merges the
    kite-wide handlers under the method's mutex if none has before, and reads the
    handler lists as it goes (request.go, method.go). */
module HandlerServing {
  import opened HandlerChain

  /** Where a request is: arrived, authenticated, past the merge, having copied the
      pre-handlers, having copied the post-handlers too, or answered. */
  datatype Phase = Arrived | Admitted | Past | WithPre(pre: seq<Handler>) | WithPost(pre: seq<Handler>, post: seq<Handler>) | Answered

  /** A request with the replies it has got. */
  datatype Flight = Flight(request: Request, phase: Phase, replies: seq<Reply>)

  datatype State = State(handlers: KiteWide, initialized: bool, flights: seq<Flight>)

  datatype Step = Arrive(r: Request) | Authenticate(i: nat) | Merge(i: nat) | TakePre(i: nat) | TakePost(i: nat) | Finish(i: nat)

  predicate Enabled(s: State, step: Step)
  {
    match step
    case Arrive(_) => true
    case Authenticate(i) => i < |s.flights| && s.flights[i].phase.Arrived?
    case Merge(i) => i < |s.flights| && s.flights[i].phase.Admitted?
    case TakePre(i) => i < |s.flights| && s.flights[i].phase.Past?
    case TakePost(i) => i < |s.flights| && s.flights[i].phase.WithPre?
    case Finish(i) => i < |s.flights| && s.flights[i].phase.WithPost?
  }

  function With(s: State, i: nat, f: Flight): State
    requires i < |s.flights|
  {
    s.(flights := s.flights[i := f])
  }

  function Replied(f: Flight, r: Reply): Flight { f.(phase := Answered, replies := f.replies + [r]) }

  ghost function Next(p: Policy, s: State, step: Step): State
    requires Enabled(s, step)
  {
    match step
    case Arrive(r) => s.(flights := s.flights + [Flight(r, Arrived, [])])
    case Authenticate(i) =>
      var f := s.flights[i];
      With(s, i, if p.authenticate && !f.request.auth.Granted? then Replied(f, AuthReply(f.request)) else f.(phase := Admitted))
    case Merge(i) =>
      var f := s.flights[i];
      With(s, i, f.(phase := Past))
        .(initialized := true, handlers := if s.initialized then s.handlers else Merged(s.handlers, f.request.kite))
    case TakePre(i) =>
      var f := s.flights[i];
      With(s, i, if p.throttled && !f.request.token then Replied(f, LimitError) else f.(phase := WithPre(s.handlers.pre)))
    case TakePost(i) =>
      var f := s.flights[i];
      With(s, i, f.(phase := WithPost(f.phase.pre, s.handlers.post)))
    case Finish(i) =>
      var f := s.flights[i];
      With(s, i, Replied(f, match Served(f.phase.pre, p.handler, f.phase.post, s.handlers.finals, p.mode, f.request.world)
                            case Return(resp, err, _) => Result(resp, err)
                            case Panic(reason, _) => Recovered(reason)))
  }

  /** The request has got one reply if it is answered and none otherwise, and the reply
      is the one the merged handlers give. */
  ghost predicate FlightOk(p: Policy, s: State, f: Flight)
  {
    && f.replies == (if f.phase.Answered? then [AnswerOf(p, s.handlers, f.request)] else [])
    && (!f.phase.Arrived? && !f.phase.Answered? ==> p.authenticate ==> f.request.auth.Granted?)
    && (f.phase.Past? || f.phase.WithPre? || f.phase.WithPost? ==> s.initialized)
    && (f.phase.Answered? && !s.initialized ==> p.authenticate && !f.request.auth.Granted?)
    && (f.phase.WithPre? || f.phase.WithPost? ==> f.phase.pre == s.handlers.pre && !(p.throttled && !f.request.token))
    && (f.phase.WithPost? ==> f.phase.post == s.handlers.post)
  }

  /** Kite-wide handlers are merged at most once, from an admitted request. */
  ghost predicate MergedOnce(p: Policy, own: KiteWide, s: State)
  {
    if !s.initialized then s.handlers == own
    else exists i | 0 <= i < |s.flights| ::
           s.handlers == Merged(own, s.flights[i].request.kite) && (p.authenticate ==> s.flights[i].request.auth.Granted?)
  }

  ghost predicate Inv(p: Policy, own: KiteWide, s: State)
  {
    MergedOnce(p, own, s) && forall i | 0 <= i < |s.flights| :: FlightOk(p, s, s.flights[i])
  }

  lemma InvWith(p: Policy, own: KiteWide, s: State, i: nat, f: Flight)
    requires Inv(p, own, s) && i < |s.flights| && f.request == s.flights[i].request && FlightOk(p, s, f)
    ensures Inv(p, own, With(s, i, f))
  {
    var s' := With(s, i, f);
    forall j | 0 <= j < |s'.flights| ensures FlightOk(p, s', s'.flights[j]) {
      if j != i { assert FlightOk(p, s, s.flights[j]); }
    }
    if s.initialized {
      var k :| 0 <= k < |s.flights| && s.handlers == Merged(own, s.flights[k].request.kite) && (p.authenticate ==> s.flights[k].request.auth.Granted?);
      assert s'.flights[k].request == s.flights[k].request;
    }
  }

  lemma InvMerge(p: Policy, own: KiteWide, s: State, i: nat)
    requires Inv(p, own, s) && Enabled(s, Merge(i))
    ensures Inv(p, own, Next(p, s, Merge(i)))
  {
    var s' := Next(p, s, Merge(i));
    assert FlightOk(p, s, s.flights[i]);
    if s.initialized {
      InvWith(p, own, s, i, s'.flights[i]);
    } else {
      forall j | 0 <= j < |s'.flights| ensures FlightOk(p, s', s'.flights[j]) {
        assert FlightOk(p, s, s.flights[j]);
      }
      assert s'.flights[i].request == s.flights[i].request;
    }
  }

  lemma InvStep(p: Policy, own: KiteWide, s: State, step: Step)
    requires Inv(p, own, s) && Enabled(s, step)
    ensures Inv(p, own, Next(p, s, step))
  {
    var s' := Next(p, s, step);
    match step
    case Arrive(r) =>
      forall j | 0 <= j < |s'.flights| ensures FlightOk(p, s', s'.flights[j]) {
        if j < |s.flights| { assert FlightOk(p, s, s.flights[j]); }
      }
      if s.initialized {
        var k :| 0 <= k < |s.flights| && s.handlers == Merged(own, s.flights[k].request.kite) && (p.authenticate ==> s.flights[k].request.auth.Granted?);
        assert s'.flights[k] == s.flights[k];
      }
    case Merge(i) => InvMerge(p, own, s, i);
    case Authenticate(i) => InvOne(p, own, s, step, i);
    case TakePre(i) => InvOne(p, own, s, step, i);
    case TakePost(i) => InvOne(p, own, s, step, i);
    case Finish(i) => InvOne(p, own, s, step, i);
  }

  lemma InvOne(p: Policy, own: KiteWide, s: State, step: Step, i: nat)
    requires Inv(p, own, s) && Enabled(s, step) && step in {Authenticate(i), TakePre(i), TakePost(i), Finish(i)}
    ensures Inv(p, own, Next(p, s, step))
  {
    assert FlightOk(p, s, s.flights[i]);
    InvWith(p, own, s, i, Next(p, s, step).flights[i]);
  }

  ghost predicate Linked(p: Policy, a: State, b: State) { exists step :: Enabled(a, step) && b == Next(p, a, step) }

  ghost predicate Run(p: Policy, own: KiteWide, run: seq<State>)
  {
    run != [] && run[0] == State(own, false, []) && forall i | 0 <= i < |run| - 1 :: Linked(p, run[i], run[i + 1])
  }

  /** In every interleaving of any number of requests, each has got one reply when it is
      done and none before; the kite-wide handlers are merged at most once; and every
      reply is what the handlers after that merge give. */
  lemma OneReplyEach(p: Policy, own: KiteWide, run: seq<State>)
    requires Run(p, own, run)
    ensures forall i | 0 <= i < |run| :: Inv(p, own, run[i])
  {
    for i := 1 to |run|
      invariant forall k | 0 <= k < i :: Inv(p, own, run[k])
    {
      assert Linked(p, run[i - 1], run[i]);
      var step :| Enabled(run[i - 1], step) && run[i] == Next(p, run[i - 1], step);
      InvStep(p, own, run[i - 1], step);
    }
  }

  /** Once merged, the handlers stay as they are. */
  lemma {:induction false} MergedForGood(p: Policy, own: KiteWide, run: seq<State>, i: nat, j: nat)
    requires Run(p, own, run) && i <= j < |run| && run[i].initialized
    ensures run[j].initialized && run[j].handlers == run[i].handlers
    decreases j
  {
    if i < j {
      MergedForGood(p, own, run, i, j - 1);
      assert Linked(p, run[j - 1], run[j]);
    }
  }

  /** How many steps a request is from its answer. */
  function Rank(p: Phase): nat
  {
    match p case Arrived => 5 case Admitted => 4 case Past => 3 case WithPre(_) => 2 case WithPost(_, _) => 1 case Answered => 0
  }

  /** A request that arrives is there, and one that is not answered can always take a step
      of its own towards its answer, which concerns no other request. */
  lemma NoneIsLost(p: Policy, s: State, r: Request, i: nat)
    requires i < |s.flights| && !s.flights[i].phase.Answered?
    ensures Next(p, s, Arrive(r)).flights == s.flights + [Flight(r, Arrived, [])]
    ensures exists step ::
              && Enabled(s, step)
              && var s' := Next(p, s, step);
                 && |s'.flights| == |s.flights| && s'.flights == s.flights[i := s'.flights[i]]
                 && s'.flights[i].request == s.flights[i].request && Rank(s'.flights[i].phase) < Rank(s.flights[i].phase)
  {
    var step := match s.flights[i].phase
                case Arrived => Authenticate(i)
                case Admitted => Merge(i)
                case Past => TakePre(i)
                case WithPre(_) => TakePost(i)
                case WithPost(_, _) => Finish(i);
    assert Enabled(s, step);
  }
}
