/** Serving a request: pre-handlers, the method, post-handlers and final functions,
    and the one reply that every request gets (method.go, request.go). */
module HandlerChain {
  import opened Wrappers

  /** What handlers see and change through the request and its context. */
  type World = nat

  datatype Resp = Nil | Val(v: nat)

  datatype Outcome = Return(resp: Resp, err: Option<nat>, world: World) | Panic(reason: nat, world: World)

  type Handler = World -> Outcome

  type Final = (World, Resp, Option<nat>) -> Outcome

  datatype Handling = ReturnMethod | ReturnFirst | ReturnLatest

  // ------------------------------------------------------- the specification

  /** Running handlers in order up to the first that fails or panics. */
  datatype Chain = Chain(resps: seq<Resp>, end: Outcome)

  function RunChain(hs: seq<Handler>, n: nat, w: World): (c: Chain)
    requires n <= |hs|
    ensures |c.resps| <= n
    ensures c.end.Return? && c.end.err == None <==> |c.resps| == n
  {
    if n == 0 then Chain([], Return(Nil, None, w))
    else
      var before := RunChain(hs, n - 1, w);
      if |before.resps| < n - 1 then before
      else match hs[n - 1](before.end.world)
        case Return(resp, None, w') => Chain(before.resps + [resp], Return(Nil, None, w'))
        case o => Chain(before.resps, o)
  }

  /** How many handlers were called. */
  function Called(c: Chain): nat { |c.resps| + if c.end.Return? && c.end.err == None then 0 else 1 }

  function FirstNonNil(rs: seq<Resp>): Resp
  {
    if rs == [] then Nil else if rs[0] != Nil then rs[0] else FirstNonNil(rs[1..])
  }

  function Select(mode: Handling, rs: seq<Resp>, main: nat): Resp
    requires main < |rs|
  {
    match mode
    case ReturnMethod => rs[main]
    case ReturnFirst => FirstNonNil(rs)
    case ReturnLatest => rs[|rs| - 1]
  }

  /** All final functions in order, each given the outcome so far. */
  function Finals(fs: seq<Final>, n: nat, resp: Resp, err: Option<nat>, w: World): Outcome
    requires n <= |fs|
  {
    if n == 0 then Return(resp, err, w)
    else match Finals(fs, n - 1, resp, err, w)
      case Return(r, e, w') => fs[n - 1](w', r, e)
      case o => o
  }

  function Served(pre: seq<Handler>, main: Handler, post: seq<Handler>, finals: seq<Final>, mode: Handling, w: World): Outcome
  {
    var hs := pre + [main] + post;
    var c := RunChain(hs, |hs|, w);
    if c.end.Panic? then c.end
    else Finals(finals, |finals|, if c.end.err == None then Select(mode, c.resps, |pre|) else Nil, c.end.err, c.end.world)
  }

  lemma {:induction false} ChainStops(hs: seq<Handler>, n: nat, m: nat, w: World)
    requires n <= m <= |hs| && |RunChain(hs, n, w).resps| < n
    ensures RunChain(hs, m, w) == RunChain(hs, n, w)
    decreases m
  {
    if n < m { ChainStops(hs, n, m - 1, w); }
  }

  /** Handlers that all succeed are followed by the final functions, given the response
      the mode selects; the final function sees it and decides. */
  lemma FinalAfterSuccess(main: Handler, f: Final, mode: Handling, w: World, resp: Resp, w': World)
    requires main(w) == Return(resp, None, w')
    ensures Served([], main, [], [f], mode, w) == f(w', resp, None)
  {
    var hs := [] + [main] + [];
    assert hs[0] == main;
    var c := RunChain(hs, 1, w);
    assert RunChain(hs, 0, w) == Chain([], Return(Nil, None, w));
    assert c.resps == [resp] && [resp][1..] == [];
    assert FirstNonNil([resp]) == resp;
    assert Finals([f], 0, resp, None, w') == Return(resp, None, w');
  }

  /** Final functions run after an error too: a handler that fails, before, at or after the
      method, leaves them no response and its error. */
  lemma FinalAfterError(pre: seq<Handler>, main: Handler, post: seq<Handler>, finals: seq<Final>, mode: Handling, w: World, err: nat)
    requires var hs := pre + [main] + post; var c := RunChain(hs, |hs|, w); c.end.Return? && c.end.err == Some(err)
    ensures var hs := pre + [main] + post; var w' := RunChain(hs, |hs|, w).end.world;
            && Served(pre, main, post, [], mode, w) == Return(Nil, Some(err), w')
            && forall f: Final :: Served(pre, main, post, [f], mode, w) == f(w', Nil, Some(err))
  {
    var hs := pre + [main] + post;
    var w' := RunChain(hs, |hs|, w).end.world;
    forall f: Final ensures Served(pre, main, post, [f], mode, w) == f(w', Nil, Some(err)) {
      assert Finals([f], 0, Nil, Some(err), w') == Return(Nil, Some(err), w');
    }
  }

  /** Each final function gets what the one before it returned. */
  lemma FinalsInTurn(f: Final, g: Final, resp: Resp, err: Option<nat>, w: World)
    ensures Finals([f, g], 2, resp, err, w) ==
            match f(w, resp, err) case Return(r, e, w') => g(w', r, e) case o => o
  {
    assert Finals([f, g], 0, resp, err, w) == Return(resp, err, w);
    assert Finals([f, g], 1, resp, err, w) == f(w, resp, err);
  }

  lemma {:induction false} FirstNonNilSnoc(rs: seq<Resp>, r: Resp)
    ensures FirstNonNil(rs + [r]) == if FirstNonNil(rs) == Nil then r else FirstNonNil(rs)
  {
    if rs != [] {
      FirstNonNilSnoc(rs[1..], r);
      assert (rs + [r])[1..] == rs[1..] + [r];
    } else {
      assert [] + [r] == [r];
    }
  }

  // --------------------------------------------------------- the two methods

  method FinalAll(fs: seq<Final>, resp: Resp, err: Option<nat>, w: World) returns (o: Outcome)
    ensures o == Finals(fs, |fs|, resp, err, w)
  {
    o := Return(resp, err, w);
    for i := 0 to |fs|
      invariant o == Finals(fs, i, resp, err, w)
    {
      if o.Return? { o := fs[i](o.world, o.resp, o.err); }
    }
  }

  lemma ChainNext(hs: seq<Handler>, n: nat, w: World)
    requires n < |hs| && |RunChain(hs, n, w).resps| == n
    ensures var c := RunChain(hs, n, w); var o := hs[n](c.end.world);
            RunChain(hs, n + 1, w) ==
            if o.Return? && o.err == None then Chain(c.resps + [o.resp], Return(Nil, None, o.world)) else Chain(c.resps, o)
  {}

  /** One of the loops of ServeKite over handlers lo..hi of the whole chain. */
  method Stretch(hs: seq<Handler>, lo: nat, hi: nat, first: Resp, mode: Handling, w: World, ghost w0: World)
    returns (o: Outcome, firstResp: Resp, last: Resp, calls: nat)
    requires lo <= hi <= |hs| && |RunChain(hs, lo, w0).resps| == lo && RunChain(hs, lo, w0).end.world == w
    requires mode == ReturnFirst ==> first == FirstNonNil(RunChain(hs, lo, w0).resps)
    ensures var c := RunChain(hs, hi, w0);
            if |c.resps| == hi then
              && o == c.end
              && (mode == ReturnFirst ==> firstResp == FirstNonNil(c.resps))
              && (lo < hi ==> last == c.resps[hi - 1])
              && lo + calls == hi
            else
              && lo + calls == Called(RunChain(hs, |hs|, w0)) && o == RunChain(hs, |hs|, w0).end
              && !(o.Return? && o.err == None) && (o.Return? ==> c.end == o)
  {
    o, firstResp, last, calls := Return(Nil, None, w), first, Nil, 0;
    for i := lo to hi
      invariant calls == i - lo
      invariant |RunChain(hs, i, w0).resps| == i && o == RunChain(hs, i, w0).end
      invariant mode == ReturnFirst ==> firstResp == FirstNonNil(RunChain(hs, i, w0).resps)
      invariant lo < i ==> last == RunChain(hs, i, w0).resps[i - 1]
    {
      var r := hs[i](o.world);
      ChainNext(hs, i, w0);
      calls := calls + 1;
      if r.Panic? || r.err != None {
        ChainStops(hs, i + 1, hi, w0);
        ChainStops(hs, i + 1, |hs|, w0);
        return r, firstResp, last, calls;
      }
      last := r.resp;
      FirstNonNilSnoc(RunChain(hs, i, w0).resps, r.resp);
      if mode == ReturnFirst && r.resp != Nil && firstResp == Nil { firstResp := r.resp; }
      o := Return(Nil, None, r.world);
    }
  }

  /** ServeKite calls exactly the handlers up to the first error, then all final
      functions over the outcome; the response is the method's, the first non-nil
      or the latest one, by mode. */
  method ServeKite(pre: seq<Handler>, main: Handler, post: seq<Handler>, finals: seq<Final>, mode: Handling, w: World)
    returns (o: Outcome, calls: nat)
    ensures o == Served(pre, main, post, finals, mode, w)
    ensures var hs := pre + [main] + post; calls == Called(RunChain(hs, |hs|, w))
  {
    var hs := pre + [main] + post;
    var p, m := |pre|, |pre| + 1;
    var r, first, last, n := Stretch(hs, 0, p, Nil, mode, w, w);
    calls := n;
    if r.Panic? { return r, calls; }
    if r.err != None { o := FinalAll(finals, Nil, r.err, r.world); return; }
    r, first, last, n := Stretch(hs, p, m, first, mode, r.world, w);
    calls := calls + n;
    if r.Panic? { return r, calls; }
    if r.err != None { o := FinalAll(finals, Nil, r.err, r.world); return; }
    var methodResp := last;
    r, first, last, n := Stretch(hs, m, |hs|, first, mode, r.world, w);
    calls := calls + n;
    if r.Panic? { return r, calls; }
    if r.err != None { o := FinalAll(finals, Nil, r.err, r.world); return; }
    ChainPrefix(hs, m, |hs|, w);
    if post == [] { last := methodResp; }
    var resp := match mode case ReturnMethod => methodResp case ReturnFirst => first case ReturnLatest => last;
    o := FinalAll(finals, resp, None, r.world);
  }

  lemma {:induction false} ChainPrefix(hs: seq<Handler>, n: nat, m: nat, w: World)
    requires n <= m <= |hs| && |RunChain(hs, m, w).resps| == m
    ensures |RunChain(hs, n, w).resps| == n && RunChain(hs, n, w).resps == RunChain(hs, m, w).resps[..n]
    decreases m
  {
    if n < m {
      ChainPrefix(hs, n, m - 1, w);
    }
  }

  // ------------------------------------------------------- one reply each

  datatype KiteWide = KiteWide(pre: seq<Handler>, post: seq<Handler>, finals: seq<Final>)

  /** What authenticating the request comes to. */
  datatype Auth = Granted | Denied | AuthPanics(reason: nat)

  /** A decoded request, and whether a throttled method has a token for it. */
  datatype Request = Request(auth: Auth, token: bool, world: World, kite: KiteWide)

  /** What a method is registered with. */
  datatype Policy = Policy(handler: Handler, authenticate: bool, throttled: bool, mode: Handling)

  function Merged(own: KiteWide, kite: KiteWide): KiteWide
  {
    KiteWide(own.pre + kite.pre, own.post + kite.post, own.finals + kite.finals)
  }

  datatype Reply = AuthError | LimitError | Recovered(reason: nat) | Result(resp: Resp, err: Option<nat>)

  /** The reply to a request that is not admitted: a panic is recovered. */
  function AuthReply(r: Request): Reply { if r.auth.AuthPanics? then Recovered(r.auth.reason) else AuthError }

  ghost function AnswerOf(p: Policy, hs: KiteWide, r: Request): Reply
  {
    if p.authenticate && !r.auth.Granted? then AuthReply(r)
    else if p.throttled && !r.token then LimitError
    else
      match Served(hs.pre, p.handler, hs.post, hs.finals, p.mode, r.world)
      case Return(resp, err, _) => Result(resp, err)
      case Panic(reason, _) => Recovered(reason)
  }

  /** A request that is denied gets the authentication error, one whose authentication
      panics the recovered reason, and one that finds no token the limit error; without
      authentication none of the first two matter. */
  lemma RefusalReplies(p: Policy, hs: KiteWide, r: Request, reason: nat)
    ensures p.authenticate && r.auth == Denied ==> AnswerOf(p, hs, r) == AuthError
    ensures p.authenticate && r.auth == AuthPanics(reason) ==> AnswerOf(p, hs, r) == Recovered(reason)
    ensures (r.auth == Granted || !p.authenticate) && p.throttled && !r.token ==> AnswerOf(p, hs, r) == LimitError
  {}

  class Method {
    var handler: Handler
    var pre: seq<Handler>
    var post: seq<Handler>
    var finals: seq<Final>
    var authenticate: bool
    var throttled: bool
    var handling: Handling
    var initialized: bool

    constructor (h: Handler, mode: Handling, auth: bool)
      ensures handler == h && pre == [] && post == [] && finals == [] && !initialized
      ensures handling == mode && authenticate == auth && !throttled
    {
      handler, pre, post, finals := h, [], [], [];
      authenticate, throttled, handling, initialized := auth, false, mode, false;
    }

    predicate Admits(r: Request)
      reads this
    {
      authenticate ==> r.auth.Granted?
    }

    function Rules(): Policy
      reads this
    {
      Policy(handler, authenticate, throttled, handling)
    }

    function Handlers(): KiteWide
      reads this
    {
      KiteWide(pre, post, finals)
    }

    /** The reply a request gets, from the method as it is when it serves it. */
    ghost function Answer(r: Request): Reply
      reads this
    {
      AnswerOf(Rules(), if initialized then Handlers() else Merged(Handlers(), r.kite), r)
    }

    /** runMethod: exactly one reply, on authentication failure, throttling, error,
        panic or success alike. */
    method RunMethod(r: Request) returns (replies: seq<Reply>)
      modifies this`pre, this`post, this`finals, this`initialized
      ensures replies == [old(Answer(r))]
      ensures initialized == (old(initialized) || Admits(r))
      ensures Handlers() == if !old(initialized) && initialized then Merged(old(Handlers()), r.kite) else old(Handlers())
    {
      replies := [];
      if authenticate && !r.auth.Granted? {
        replies := replies + [AuthReply(r)];
        return;
      }
      if !initialized {
        pre, post, finals := pre + r.kite.pre, post + r.kite.post, finals + r.kite.finals;
        initialized := true;
      }
      if throttled && !r.token {
        replies := replies + [LimitError];
        return;
      }
      var o, _ := ServeKite(pre, handler, post, finals, handling, r.world);
      match o {
        case Panic(reason, _) => replies := replies + [Recovered(reason)];
        case Return(resp, err, _) => replies := replies + [Result(resp, err)];
      }
    }
  }

  /** The first request that a method admits, or all of them. */
  ghost function FirstAdmitted(auth: bool, rs: seq<Request>, i: nat): nat
    requires i <= |rs|
    decreases |rs| - i
  {
    if i == |rs| || (auth ==> rs[i].auth.Granted?) then i else FirstAdmitted(auth, rs, i + 1)
  }

  /** The method's own handlers with those of the kite at the first request admitted. */
  ghost function HandlersAfter(p: Policy, own: KiteWide, rs: seq<Request>): KiteWide
  {
    var i := FirstAdmitted(p.authenticate, rs, 0);
    if i < |rs| then Merged(own, rs[i].kite) else own
  }

  lemma {:induction false} FirstAdmittedIs(auth: bool, rs: seq<Request>, i: nat)
    requires i <= |rs|
    ensures var k := FirstAdmitted(auth, rs, i);
            i <= k <= |rs| && (k < |rs| && auth ==> rs[k].auth.Granted?)
    decreases |rs| - i
  {
    if i < |rs| { FirstAdmittedIs(auth, rs, i + 1); }
  }

  /** Over any number of requests: each gets one reply, computed with the kite-wide
      handlers merged in exactly once, as they were at the first request admitted. */
  method ServeAll(m: Method, rs: seq<Request>) returns (replies: seq<Reply>)
    requires !m.initialized
    modifies m
    ensures m.Rules() == old(m.Rules())
    ensures m.Handlers() == HandlersAfter(m.Rules(), old(m.Handlers()), rs)
    ensures m.initialized <==> FirstAdmitted(m.authenticate, rs, 0) < |rs|
    ensures |replies| == |rs|
    ensures forall n | 0 <= n < |rs| :: replies[n] == AnswerOf(m.Rules(), m.Handlers(), rs[n])
  {
    replies := [];
    ghost var rules, own := m.Rules(), m.Handlers();
    ghost var first := FirstAdmitted(m.authenticate, rs, 0);
    FirstAdmittedIs(m.authenticate, rs, 0);
    for n := 0 to |rs|
      invariant m.Rules() == rules && |replies| == n
      invariant !m.initialized ==> m.Handlers() == own && first == FirstAdmitted(m.authenticate, rs, n)
      invariant m.initialized ==> first < n && m.Handlers() == HandlersAfter(rules, own, rs)
      invariant forall k | 0 <= k < n :: replies[k] == AnswerOf(rules, HandlersAfter(rules, own, rs), rs[k])
    {
      var more := m.RunMethod(rs[n]);
      replies := replies + more;
    }
  }
}
