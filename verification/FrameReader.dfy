/** The reader that peeks at the first byte of a polling response with a timeout and
    then serves it as if nothing had been taken (sockjsclient/xhr.go). */
module FrameReader {
  import opened Wrappers
  import opened Text

  newtype byte = x: int | 0 <= x < 256

  datatype Error = Timeout | Eof

  /** A first byte of zero is taken for "nothing held" and never served. */
  function Servable(stream: seq<byte>): seq<byte>
  {
    if stream != [] && stream[0] == 0 then stream[1..] else stream
  }

  function Min(a: nat, b: nat): nat { if a <= b then a else b }

  class Reader {
    var rest: seq<byte>
    var once: bool
    var frame: byte
    var err: Option<Error>

    constructor (stream: seq<byte>)
      ensures Valid() && rest == stream && !once
    {
      rest, once, frame, err := stream, false, 0, None;
    }

    ghost predicate Valid()
      reads this
    {
      !once ==> frame == 0 && err == None
    }

    /** The byte that has been taken from the stream and not been served. */
    function Held(): seq<byte>
      reads this
    {
      if frame != 0 then [frame] else []
    }

    /** What is still to be served; timedOut says whether the timeout beats the first
        byte, if that has not been waited for yet. */
    function Left(timedOut: bool): seq<byte>
      reads this
    {
      if once then (if err == None then Held() + rest else [])
      else if timedOut then [] else Servable(rest)
    }

    /** How many bytes are held when serving starts. */
    function HeldFirst(timedOut: bool): nat
      reads this
    {
      if once then (if err == None then |Held()| else 0)
      else if timedOut || rest == [] || rest[0] == 0 then 0 else 1
    }

    /** Waits for the first byte, once. */
    method ReadFrame(timedOut: bool)
      requires Valid()
      modifies this
      ensures Valid() && once
      ensures old(once) ==> rest == old(rest) && frame == old(frame) && err == old(err)
      ensures !old(once) ==>
                && err == (if timedOut then Some(Timeout) else if old(rest) == [] then Some(Eof) else None)
                && (err == None ==> frame == old(rest)[0] && rest == old(rest)[1..])
      ensures Left(timedOut) == old(Left(timedOut)) && HeldFirst(timedOut) == old(HeldFirst(timedOut))
    {
      if once { return; }
      once := true;
      if timedOut {
        err := Some(Timeout);
      } else if rest == [] {
        err := Some(Eof);
      } else {
        assert [rest[0]] + rest[1..] == rest;
        frame, rest := rest[0], rest[1..];
      }
    }

    /** The next byte, as long as there is one. */
    method ReadByte(timedOut: bool) returns (r: Result<byte>)
      requires Valid()
      modifies this
      ensures Valid() && once
      ensures r.Ok? <==> old(Left(timedOut)) != []
      ensures r.Ok? ==> [r.value] + Left(timedOut) == old(Left(timedOut))
      ensures r.Err? ==> Left(timedOut) == []
    {
      ReadFrame(timedOut);
      if err != None { return Err; }
      if frame != 0 {
        r := Ok(frame);
        frame := 0;
      } else if rest == [] {
        return Err;
      } else {
        r := Ok(rest[0]);
        assert [rest[0]] + rest[1..] == rest;
        rest := rest[1..];
      }
    }

    /** Fills p with the held byte and then from the stream, which gives up to `most`
        bytes at a time. It fails iff the stream is at its end and there is room, or its
        end has been `pending` since the last bytes came. */
    method Read(p: array<byte>, most: nat, pending: bool, timedOut: bool) returns (n: nat, failed: bool)
      requires Valid() && p.Length > 0
      modifies this, p
      ensures Valid() && once
      ensures var left, h := old(Left(timedOut)), old(HeldFirst(timedOut));
              && h <= |left| && h <= p.Length
              && n == h + Min(most, Min(p.Length - h, |left| - h))
              && p[..n] == left[..n] && Left(timedOut) == left[n..]
              && (failed <==> |left| == h && (h < p.Length || pending))
    {
      ReadFrame(timedOut);
      if err != None { return 0, true; }
      n, failed := ReadRest(p, most, pending);
    }

    method ReadRest(p: array<byte>, most: nat, pending: bool) returns (n: nat, failed: bool)
      requires Valid() && p.Length > 0 && once && err == None
      modifies this`frame, this`rest, p
      ensures var left, h := old(Held() + rest), |old(Held())|;
              && n == h + Min(most, Min(p.Length - h, |left| - h))
              && p[..n] == left[..n] && Held() + rest == left[n..]
              && (failed <==> |left| == h && (h < p.Length || pending))
    {
      ghost var held := Held();
      n := 0;
      if frame != 0 {
        p[0] := frame;
        frame, n := 0, 1;
      }
      assert p[..n] == held;
      failed := rest == [] && (n < p.Length || pending);
      var m := Fill(p, n, rest, most);
      assert held + rest[..m] == (held + rest)[..n + m];
      rest, n := rest[m..], n + m;
    }
  }

  /** A read of the buffered stream into the part of p from n on. */
  method Fill(p: array<byte>, n: nat, src: seq<byte>, most: nat) returns (m: nat)
    requires n <= p.Length
    modifies p
    ensures m == Min(most, Min(p.Length - n, |src|))
    ensures p[..n + m] == old(p[..n]) + src[..m]
  {
    m := Min(most, Min(p.Length - n, |src|));
    forall i | 0 <= i < m { p[n + i] := src[i]; }
  }

  datatype Call = OneByte | Buffer(size: nat, most: nat, pending: bool)

  /** A call that makes progress when there is something to serve. */
  predicate Eager(c: Call) { c.Buffer? ==> c.most > 0 }

  /** Any mix of calls serves what there is to serve, byte for byte, and as many eager
      calls as there are bytes serve all of it: the whole stream, without its first
      byte iff that is zero, or nothing if the timeout comes first. */
  method Serve(fr: Reader, calls: seq<Call>, timedOut: bool) returns (bytes: seq<byte>)
    requires fr.Valid() && forall i | 0 <= i < |calls| && calls[i].Buffer? :: calls[i].size > 0
    modifies fr
    ensures fr.Valid() && bytes + fr.Left(timedOut) == old(fr.Left(timedOut))
    ensures (forall i | 0 <= i < |calls| :: Eager(calls[i])) && |calls| >= |old(fr.Left(timedOut))| ==>
              bytes == old(fr.Left(timedOut))
    ensures !old(fr.once) && !timedOut && (forall i | 0 <= i < |calls| :: Eager(calls[i])) && |calls| >= |old(fr.rest)| ==>
              bytes == Servable(old(fr.rest))
  {
    bytes := [];
    ghost var all := fr.Left(timedOut);
    for i := 0 to |calls|
      invariant fr.Valid() && bytes + fr.Left(timedOut) == all
      invariant (forall j | 0 <= j < i :: Eager(calls[j])) ==> |bytes| >= i || fr.Left(timedOut) == []
    {
      ghost var was, left := bytes, fr.Left(timedOut);
      match calls[i]
      case OneByte =>
        var r := fr.ReadByte(timedOut);
        if r.Ok? { bytes := bytes + [r.value]; ConcatAssoc(was, [r.value], fr.Left(timedOut)); }
      case Buffer(size, most, pending) =>
        var p := new byte[size];
        var n, _ := fr.Read(p, most, pending, timedOut);
        bytes := bytes + p[..n];
        assert left[..n] + left[n..] == left;
        ConcatAssoc(was, p[..n], fr.Left(timedOut));
    }
  }
}
