/** SockJS client sessions: frames come in, messages go out in order
    (sockjsclient/sockjsclient.go, sockjsclient/xhr.go; sockjs-protocol 0.3.3). */
module SockJs {
  import opened Wrappers
  import opened Text

  datatype SessionState = Opening | Active | Closed

  /** A frame: its type byte, and what its data decodes to as a JSON array of
      strings and as a JSON string. */
  datatype Frame = Frame(kind: char, list: Option<seq<string>>, text: Option<string>)

  datatype Transport = Websocket | Xhr

  /** The messages a frame carries. XHR treats an empty 'm' message as an error. */
  function Payload(f: Frame, via: Transport): seq<string>
  {
    if f.kind == 'a' && f.list.Some? then f.list.value
    else if f.kind == 'm' && f.text.Some? && (via.Websocket? || f.text.value != "") then [f.text.value]
    else []
  }

  function Payloads(fs: seq<Frame>, via: Transport): seq<string>
  {
    if fs == [] then [] else Payload(fs[0], via) + Payloads(fs[1..], via)
  }

  // ---------------------------------------------- a session, whatever carries it

  /** What one read or poll means to Recv: read again, messages, an error, or an
      error after which the session is closed. */
  datatype Event = Again | Bring(messages: seq<string>) | Refuse | Finish

  datatype Session = Session(buffer: seq<string>, closed: bool, input: seq<Event>)

  datatype Step = Step(result: Result<string>, after: Session)

  /** One call of Recv. */
  function Received(s: Session): Step
    decreases |s.input|
  {
    if s.buffer != [] then Step(Ok(s.buffer[0]), s.(buffer := s.buffer[1..]))
    else if s.closed || s.input == [] then Step(Err, s)
    else
      var rest := s.(input := s.input[1..]);
      match s.input[0]
      case Again => Received(rest)
      case Bring(ms) => if ms == [] then Step(Err, rest) else Step(Ok(ms[0]), rest.(buffer := ms[1..]))
      case Refuse => Step(Err, rest)
      case Finish => Step(Err, rest.(closed := true))
  }

  datatype Call = Receive | HangUp

  datatype Trace = Trace(results: seq<Result<string>>, end: Session)

  /** Any sequence of calls of Recv and Close. */
  function Driven(s: Session, calls: seq<Call>): Trace
    decreases |calls|
  {
    if calls == [] then Trace([], s)
    else if calls[0].HangUp? then Driven(s.(closed := true), calls[1..])
    else
      var step := Received(s);
      var rest := Driven(step.after, calls[1..]);
      Trace([step.result] + rest.results, rest.end)
  }

  function Oks(rs: seq<Result<string>>): seq<string>
  {
    if rs == [] then [] else (if rs[0].Ok? then [rs[0].value] else []) + Oks(rs[1..])
  }

  function Brought(es: seq<Event>): seq<string>
  {
    if es == [] then [] else (if es[0].Bring? then es[0].messages else []) + Brought(es[1..])
  }

  /** All that the session still holds or will be given. */
  function Ahead(s: Session): seq<string> { s.buffer + Brought(s.input) }

  /** The first event that is not "read again". */
  function Leading(es: seq<Event>): (n: nat)
    ensures n <= |es| && (forall i | 0 <= i < n :: es[i].Again?) && (n < |es| ==> !es[n].Again?)
  {
    if es == [] || !es[0].Again? then 0
    else
      assert forall i | 0 < i < |es| :: es[i] == es[1..][i - 1];
      1 + Leading(es[1..])
  }

  /** Recv succeeds exactly when a message is buffered, or the session is open and
      the first event that is not "read again" brings one; it returns the first
      such message and takes exactly the events up to there. */
  lemma {:induction false} ReceivedExactly(s: Session)
    ensures var n, step := Leading(s.input), Received(s);
            && (step.result.Ok? <==>
                  s.buffer != [] || (!s.closed && n < |s.input| && s.input[n].Bring? && s.input[n].messages != []))
            && (step.result.Ok? ==> [step.result.value] + step.after.buffer ==
                                    if s.buffer != [] then s.buffer else s.input[n].messages)
            && (step.result.Err? ==> step.after.buffer == [])
            && step.after.input ==
                 (if s.buffer != [] || s.closed then s.input else if n < |s.input| then s.input[n + 1..] else [])
            && (step.after.closed <==> s.closed || (s.buffer == [] && n < |s.input| && s.input[n].Finish?))
    decreases |s.input|
  {
    if s.buffer == [] && !s.closed && s.input != [] && s.input[0].Again? {
      ReceivedExactly(s.(input := s.input[1..]));
    }
  }

  // --------------------------------------------------------- over whole runs

  /** One call neither loses, repeats nor reorders a message. */
  lemma {:induction false} ReceivedConserves(s: Session)
    ensures Oks([Received(s).result]) + Ahead(Received(s).after) == Ahead(s)
    decreases |s.input|
  {
    if s.buffer != [] {
      assert [s.buffer[0]] + s.buffer[1..] == s.buffer;
      ConcatAssoc([s.buffer[0]], s.buffer[1..], Brought(s.input));
    } else if !s.closed && s.input != [] {
      match s.input[0]
      case Again => ReceivedConserves(s.(input := s.input[1..]));
      case Bring(ms) =>
        if ms != [] {
          assert [ms[0]] + ms[1..] == ms;
          ConcatAssoc([ms[0]], ms[1..], Brought(s.input[1..]));
        }
      case _ =>
    }
  }

  lemma {:induction false} OksConcat(a: seq<Result<string>>, b: seq<Result<string>>)
    ensures Oks(a + b) == Oks(a) + Oks(b)
  {
    if a == [] {
      assert a + b == b;
    } else {
      OksConcat(a[1..], b);
      assert (a + b)[1..] == a[1..] + b && (a + b)[0] == a[0];
      ConcatAssoc(if a[0].Ok? then [a[0].value] else [], Oks(a[1..]), Oks(b));
    }
  }

  /** Over any calls of Recv and Close: the messages returned, followed by what the
      session still holds or is given, are what it held and was given. */
  lemma {:induction false} DrivenConserves(s: Session, calls: seq<Call>)
    ensures Oks(Driven(s, calls).results) + Ahead(Driven(s, calls).end) == Ahead(s)
    decreases |calls|
  {
    if calls != [] {
      if calls[0].HangUp? {
        DrivenConserves(s.(closed := true), calls[1..]);
      } else {
        var step := Received(s);
        var rest := Driven(step.after, calls[1..]);
        DrivenConserves(step.after, calls[1..]);
        ReceivedConserves(s);
        OksConcat([step.result], rest.results);
        ConcatAssoc(Oks([step.result]), Oks(rest.results), Ahead(rest.end));
      }
    }
  }

  /** Events up to the one that closes the session. */
  function Reachable(es: seq<Event>): seq<Event>
  {
    if es == [] || es[0].Finish? then [] else [es[0]] + Reachable(es[1..])
  }

  /** What an open session will return if it is asked often enough. */
  function Due(s: Session): seq<string>
  {
    s.buffer + if s.closed then [] else Brought(Reachable(s.input))
  }

  function Calls(n: nat): seq<Call> { if n == 0 then [] else [Receive] + Calls(n - 1) }

  /** How many calls are enough. */
  function Work(s: Session): nat { |Ahead(s)| + |s.input| }

  /** One call returns the first message that is due. */
  lemma {:induction false} ReceivedDue(s: Session)
    ensures Oks([Received(s).result]) + Due(Received(s).after) == Due(s)
    decreases |s.input|
  {
    if s.buffer != [] {
      var later := if s.closed then [] else Brought(Reachable(s.input));
      assert [s.buffer[0]] + s.buffer[1..] == s.buffer;
      ConcatAssoc([s.buffer[0]], s.buffer[1..], later);
    } else if !s.closed && s.input != [] && !s.input[0].Finish? {
      ReachableHead(s.input);
      match s.input[0]
      case Again => ReceivedDue(s.(input := s.input[1..]));
      case Bring(ms) =>
        if ms != [] {
          assert [ms[0]] + ms[1..] == ms;
          ConcatAssoc([ms[0]], ms[1..], Brought(Reachable(s.input[1..])));
        }
      case Refuse =>
    }
  }

  lemma ReachableHead(es: seq<Event>)
    requires es != [] && !es[0].Finish?
    ensures Brought(Reachable(es)) == (if es[0].Bring? then es[0].messages else []) + Brought(Reachable(es[1..]))
  {
    assert Reachable(es)[1..] == Reachable(es[1..]);
  }

  lemma ReceivedWorks(s: Session)
    ensures Work(Received(s).after) < Work(s) || (Due(s) == [] && Received(s).result.Err?)
  {
    ReceivedConserves(s);
    ReceivedExactly(s);
  }

  /** Called often enough, Recv returns every message that is buffered or comes before
      the session is closed. */
  lemma {:induction false} DrivenComplete(s: Session, n: nat)
    requires n >= Work(s)
    ensures Oks(Driven(s, Calls(n)).results) == Due(s)
    decreases n
  {
    if n > 0 {
      var step := Received(s);
      var rest := Driven(step.after, Calls(n - 1));
      assert Calls(n)[1..] == Calls(n - 1);
      ReceivedDue(s);
      ReceivedWorks(s);
      OksConcat([step.result], rest.results);
      if Work(step.after) < Work(s) {
        DrivenComplete(step.after, n - 1);
      } else {
        Exhausted(step.after, n - 1);
      }
    }
  }

  lemma {:induction false} Exhausted(s: Session, n: nat)
    requires Due(s) == []
    ensures Oks(Driven(s, Calls(n)).results) == []
    decreases n
  {
    if n > 0 {
      assert Calls(n)[1..] == Calls(n - 1);
      ReceivedDue(s);
      Exhausted(Received(s).after, n - 1);
      OksConcat([Received(s).result], Driven(Received(s).after, Calls(n - 1)).results);
    }
  }

  lemma {:induction false} DrivenSnoc(s: Session, calls: seq<Call>, c: Call)
    ensures var t, last := Driven(s, calls), Driven(Driven(s, calls).end, [c]);
            Driven(s, calls + [c]) == Trace(t.results + last.results, last.end)
    decreases |calls|
  {
    if calls == [] {
      assert calls + [c] == [c];
    } else {
      assert (calls + [c])[1..] == calls[1..] + [c];
      if calls[0].HangUp? { DrivenSnoc(s.(closed := true), calls[1..], c); }
      else { DrivenSnoc(Received(s).after, calls[1..], c); }
    }
  }

  // -------------------------------------------------------------- websocket

  /** What the connection yields: a frame, an empty message, or a read error. */
  datatype Read = Got(frame: Frame) | EmptyRead | ReadError

  function FrameEvent(f: Frame, via: Transport): Event
  {
    if f.kind == 'o' || f.kind == 'h' then Again
    else if f.kind == 'c' && via.Xhr? then Finish
    else if Payload(f, via) == [] then Refuse
    else Bring(Payload(f, via))
  }

  function ReadEvents(rs: seq<Read>): seq<Event>
  {
    if rs == [] then []
    else [match rs[0] case Got(f) => FrameEvent(f, Websocket) case _ => Refuse] + ReadEvents(rs[1..])
  }

  function FramesOf(rs: seq<Read>): seq<Frame>
  {
    if rs == [] then [] else (match rs[0] case Got(f) => [f] case _ => []) + FramesOf(rs[1..])
  }

  lemma PayloadsCons(f: Frame, fs: seq<Frame>, via: Transport)
    ensures Payloads([f] + fs, via) == Payload(f, via) + Payloads(fs, via)
  {
    assert ([f] + fs)[1..] == fs;
  }

  /** The reads bring the payloads of their frames. */
  lemma {:induction false} ReadsBring(rs: seq<Read>)
    ensures Brought(ReadEvents(rs)) == Payloads(FramesOf(rs), Websocket)
    ensures Reachable(ReadEvents(rs)) == ReadEvents(rs) && |ReadEvents(rs)| == |rs|
  {
    if rs != [] {
      ReadsBring(rs[1..]);
      assert ReadEvents(rs)[1..] == ReadEvents(rs[1..]);
      if rs[0].Got? {
        PayloadsCons(rs[0].frame, FramesOf(rs[1..]), Websocket);
      } else {
        assert FramesOf(rs) == FramesOf(rs[1..]);
      }
    }
  }

  class WebsocketSession {
    var messages: seq<string>
    var closed: bool
    var state: SessionState
    var incoming: seq<Read>

    function Abs(): Session
      reads this
    {
      Session(messages, closed, ReadEvents(incoming))
    }

    constructor (input: seq<Read>)
      ensures Abs() == Session([], false, ReadEvents(input)) && state == Opening
    {
      messages, closed, state, incoming := [], false, Opening, input;
    }

    /** The switch on the frame type: queue its payload, read again, or an error. */
    method HandleFrame(f: Frame) returns (e: Event)
      requires messages == []
      modifies this`messages, this`state
      ensures e == FrameEvent(f, Websocket)
      ensures messages == if e.Bring? then Payload(f, Websocket) else []
      ensures state == if f.kind == 'o' then Active else if f.kind == 'c' then Closed else old(state)
    {
      e := Refuse;
      if f.kind == 'o' {
        state := Active;
        e := Again;
      } else if f.kind == 'a' {
        if f.list.None? { return; }
        messages := messages + f.list.value;
      } else if f.kind == 'm' {
        if f.text.None? { return; }
        messages := messages + [f.text.value];
      } else if f.kind == 'c' {
        state := Closed;
      } else if f.kind == 'h' {
        e := Again;
      }
      if messages != [] { e := Bring(messages); }
    }

    method Recv() returns (r: Result<string>)
      modifies this
      ensures Step(r, Abs()) == Received(old(Abs()))
    {
      if messages != [] {
        r := Ok(messages[0]);
        messages := messages[1..];
        return;
      }
      while !closed && incoming != []
        invariant messages == [] && Received(Abs()) == Received(old(Abs()))
        decreases |incoming|
      {
        var read := incoming[0];
        incoming := incoming[1..];
        var e := Refuse;
        if read.Got? { e := HandleFrame(read.frame); }
        if e.Bring? {
          r := Ok(messages[0]);
          messages := messages[1..];
          return;
        }
        if !e.Again? { return Err; }
      }
      return Err;
    }

    method Close() returns (ok: bool)
      modifies this`closed
      ensures closed && (ok <==> !old(closed))
    {
      ok := !closed;
      closed := true;
    }
  }

  /** Any calls of Recv and Close. The results are those of the run; what Recv
      returned, followed by the buffer and the payloads still to come, are the
      payloads of all frames in order; and with enough calls everything comes. */
  method Drain(w: WebsocketSession, calls: seq<Call>) returns (results: seq<Result<string>>)
    modifies w
    ensures Trace(results, w.Abs()) == Driven(old(w.Abs()), calls)
    ensures Oks(results) + w.messages + Payloads(FramesOf(w.incoming), Websocket) ==
            old(w.messages) + Payloads(FramesOf(old(w.incoming)), Websocket)
    ensures !old(w.closed) && calls == Calls(|calls|) && |calls| >= Work(old(w.Abs())) ==>
              Oks(results) == old(w.messages) + Payloads(FramesOf(old(w.incoming)), Websocket)
  {
    results := [];
    ghost var start := w.Abs();
    ghost var was := w.incoming;
    for i := 0 to |calls|
      invariant Trace(results, w.Abs()) == Driven(start, calls[..i])
    {
      DrivenSnoc(start, calls[..i], calls[i]);
      assert calls[..i + 1] == calls[..i] + [calls[i]];
      if calls[i].Receive? {
        var r := w.Recv();
        results := results + [r];
      } else {
        var _ := w.Close();
      }
    }
    assert calls[..|calls|] == calls;
    ReadsBring(was);
    ReadsBring(w.incoming);
    DrivenConserves(start, calls);
    ConcatAssoc(Oks(results), w.messages, Payloads(FramesOf(w.incoming), Websocket));
    if !start.closed && calls == Calls(|calls|) && |calls| >= Work(start) { DrivenComplete(start, |calls|); }
  }

  // -------------------------------------------------------------------- XHR

  /** The outcome of one poll: the session was aborted by Close, the request failed, a
      status other than 200, a timeout or error on the first byte, or a frame. */
  datatype Poll = Aborted | RequestError | NotFound | BadStatus | PollTimeout | BodyError | Answer(frame: Frame)

  function PollEvent(p: Poll): Event
  {
    match p
    case Aborted => Finish
    case NotFound => Finish
    case PollTimeout => Again
    case Answer(f) => FrameEvent(f, Xhr)
    case _ => Refuse
  }

  function PollEvents(ps: seq<Poll>): seq<Event>
  {
    if ps == [] then [] else [PollEvent(ps[0])] + PollEvents(ps[1..])
  }

  /** The frames of the polls before the one that closes the session. */
  function Answers(ps: seq<Poll>): seq<Frame>
  {
    if ps == [] || PollEvent(ps[0]).Finish? then []
    else (if ps[0].Answer? then [ps[0].frame] else []) + Answers(ps[1..])
  }

  lemma {:induction false} PollsBring(ps: seq<Poll>)
    ensures Brought(Reachable(PollEvents(ps))) == Payloads(Answers(ps), Xhr) && |PollEvents(ps)| == |ps|
  {
    if ps != [] {
      PollsBring(ps[1..]);
      assert PollEvents(ps)[1..] == PollEvents(ps[1..]);
      if !PollEvent(ps[0]).Finish? {
        assert Reachable(PollEvents(ps))[1..] == Reachable(PollEvents(ps[1..]));
        if ps[0].Answer? {
          PayloadsCons(ps[0].frame, Answers(ps[1..]), Xhr);
        } else {
          assert Answers(ps) == Answers(ps[1..]);
        }
      }
    }
  }

  class XhrSession {
    var messages: seq<string>
    var state: SessionState
    var polls: seq<Poll>

    function Abs(): Session
      reads this
    {
      Session(messages, state == Closed, PollEvents(polls))
    }

    constructor (polls: seq<Poll>)
      ensures Abs() == Session([], false, PollEvents(polls)) && state == Active
    {
      messages, state, this.polls := [], Active, polls;
    }

    /** handleResp on a frame: queue its payload, poll again, or an error. */
    method HandleFrame(f: Frame) returns (e: Event)
      requires messages == []
      modifies this`messages, this`state
      ensures e == FrameEvent(f, Xhr)
      ensures messages == if e.Bring? then Payload(f, Xhr) else []
      ensures state == if f.kind == 'o' then Active else if f.kind == 'c' then Closed else old(state)
    {
      e := Refuse;
      if f.kind == 'o' {
        state := Active;
        e := Again;
      } else if f.kind == 'm' {
        if f.text.None? || f.text.value == "" { return; }
        messages := messages + [f.text.value];
        e := Bring(messages);
      } else if f.kind == 'a' {
        if f.list.None? { return; }
        messages := messages + f.list.value;
        if messages != [] { e := Bring(messages); }
      } else if f.kind == 'h' {
        e := Again;
      } else if f.kind == 'c' {
        state := Closed;
        e := Finish;
      }
    }

    method Recv() returns (r: Result<string>)
      modifies this
      ensures Step(r, Abs()) == Received(old(Abs()))
    {
      if messages != [] {
        r := Ok(messages[0]);
        messages := messages[1..];
        return;
      }
      if state == Closed { return Err; }
      while polls != []
        invariant messages == [] && state != Closed && Received(Abs()) == Received(old(Abs()))
        decreases |polls|
      {
        var poll := polls[0];
        polls := polls[1..];
        match poll
        case Answer(f) =>
          var e := HandleFrame(f);
          if e.Bring? {
            r := Ok(messages[0]);
            messages := messages[1..];
            return;
          }
          if !e.Again? { return Err; }
        case PollTimeout =>
        case NotFound =>
          state := Closed;
          return Err;
        case Aborted =>
          state := Closed;
          return Err;
        case _ => return Err;
      }
      return Err;
    }

    method Close()
      modifies this`state
      ensures state == Closed
    {
      state := Closed;
    }
  }

  /** The same for the polling transport, up to the poll that closes the session. */
  method DrainXhr(x: XhrSession, calls: seq<Call>) returns (results: seq<Result<string>>)
    modifies x
    ensures Trace(results, x.Abs()) == Driven(old(x.Abs()), calls)
    ensures Oks(results) + Ahead(x.Abs()) == Ahead(old(x.Abs()))
    ensures old(x.state) != Closed && calls == Calls(|calls|) && |calls| >= Work(old(x.Abs())) ==>
              Oks(results) == old(x.messages) + Payloads(Answers(old(x.polls)), Xhr)
  {
    results := [];
    ghost var start := x.Abs();
    ghost var was := x.polls;
    for i := 0 to |calls|
      invariant Trace(results, x.Abs()) == Driven(start, calls[..i])
    {
      DrivenSnoc(start, calls[..i], calls[i]);
      assert calls[..i + 1] == calls[..i] + [calls[i]];
      if calls[i].Receive? {
        var r := x.Recv();
        results := results + [r];
      } else {
        x.Close();
      }
    }
    assert calls[..|calls|] == calls;
    PollsBring(was);
    DrivenConserves(start, calls);
    if !start.closed && calls == Calls(|calls|) && |calls| >= Work(start) { DrivenComplete(start, |calls|); }
  }

  /** What a session is due that is given one frame. */
  function DueOf(f: Frame, via: Transport): seq<string> { Due(Session([], false, [FrameEvent(f, via)])) }

  lemma OneEvent(e: Event)
    ensures Due(Session([], false, [e])) == if e.Bring? then e.messages else []
  {
    var es := [e];
    assert es[1..] == [] && Reachable(es[1..]) == [] && Brought([]) == [];
    if !e.Finish? { assert Reachable(es) == es; }
  }

  /** An 'a' frame brings its list in order, an 'm' frame its text. */
  lemma FramesBring(ms: seq<string>, m: string, via: Transport)
    ensures DueOf(Frame('a', Some(ms), None), via) == ms
    ensures via.Websocket? || m != "" ==> DueOf(Frame('m', None, Some(m)), via) == [m]
  {
    OneEvent(FrameEvent(Frame('a', Some(ms), None), via));
    OneEvent(FrameEvent(Frame('m', None, Some(m)), via));
  }

  /** Frames of any other type, and frames that do not decode, bring nothing. */
  lemma OthersBringNothing(f: Frame, via: Transport)
    requires (f.kind == 'a' ==> f.list.None?) && (f.kind == 'm' ==> f.text.None?)
    ensures DueOf(f, via) == [] && (FrameEvent(f, via).Again? <==> f.kind == 'o' || f.kind == 'h')
  {
    OneEvent(FrameEvent(f, via));
  }

  /** The transports deliver the same messages unless an empty 'm' frame comes. */
  lemma {:induction false} TransportsAgree(fs: seq<Frame>)
    ensures Payloads(fs, Websocket) == Payloads(fs, Xhr) <==>
            forall i | 0 <= i < |fs| :: fs[i].kind == 'm' ==> fs[i].text != Some("")
    ensures |Payloads(fs, Xhr)| <= |Payloads(fs, Websocket)|
  {
    if fs != [] {
      TransportsAgree(fs[1..]);
      var a, b := Payloads(fs[1..], Websocket), Payloads(fs[1..], Xhr);
      var x, y := Payload(fs[0], Websocket), Payload(fs[0], Xhr);
      assert forall i | 0 < i < |fs| :: fs[i] == fs[1..][i - 1];
      if x == y {
        assert x + a == y + b <==> a == b by {
          if x + a == y + b { assert a == (x + a)[|x|..] && b == (y + b)[|y|..]; }
        }
      }
    }
  }
}
