/** From an argument tree, through the callbacks field of a message, to the
    receiver: the round trip of Scrub and Unscrub. */
module DnodeMessage {
  import opened Wrappers
  import opened Text
  import opened DnodeScrub
  import opened DnodeReceiver
  import opened DnodeRoundTrip
  import DnodeReach

  // ----------------------------------------------------- callbacks by position

  ghost function Skeleton(v: Value): Tree
    decreases v, 0
  {
    match v
    case Scalar => Quiet
    case Nil => Quiet
    case GoFunc => Quiet
    case Iface(e) => Skeleton(e)
    case Ptr(e) =>
      if e.Struct? then Named(FieldMembers(e.fields, 0) + MethodMembers(e.methods, 0, true))
      else if e.Fun? then Quiet
      else Skeleton(e)
    case List(es) => Items(seq(|es|, k requires 0 <= k < |es| => Skeleton(es[k])))
    case Dict(es) => Named(seq(|es|, k requires 0 <= k < |es| => Member(es[k].key, Skeleton(es[k].value))))
    case Fun(c) => if c.Local? && c.cb.Some? then Call(c.cb.value) else Quiet
    case Struct(fs, ms) => Named(FieldMembers(fs, 0) + MethodMembers(ms, 0, false))
  }

  ghost function FieldMembers(fs: seq<Field>, i: nat): seq<Member>
    requires i <= |fs|
    decreases fs, |fs| - i
  {
    if i == |fs| then []
    else
      var f, after := fs[i], FieldMembers(fs, i + 1);
      if Skipped(f) then after
      else if !f.embedded then [Member(FieldName(f), Skeleton(f.value))] + after
      else match Skeleton(f.value)
        case Named(ms) => ms + after
        case _ => after
  }

  function MethodMembers(ms: seq<Method>, i: nat, viaPointer: bool): seq<Member>
    requires i <= |ms|
    decreases |ms| - i
  {
    if i == |ms| then []
    else if ms[i].onPointer && !viaPointer then MethodMembers(ms, i + 1, viaPointer)
    else [Member(LowerFirst(ms[i].name), Call(ms[i].cb))] + MethodMembers(ms, i + 1, viaPointer)
  }

  /** Embedded fields are structs, pointers to structs, or hold no callback. */
  ghost predicate Regular(v: Value)
    decreases v
  {
    match v
    case Iface(e) => Regular(e)
    case Ptr(e) => Regular(e)
    case List(es) => forall k | 0 <= k < |es| :: Regular(es[k])
    case Dict(es) => forall k | 0 <= k < |es| :: Regular(es[k].value)
    case Struct(fs, _) =>
      forall k | 0 <= k < |fs| && !Skipped(fs[k]) ::
        && Regular(fs[k].value)
        && (fs[k].embedded ==> Skeleton(fs[k].value).Named? || Skeleton(fs[k].value).Quiet?)
    case _ => true
  }

  /** Names are distinct at every level, counting promoted fields and methods. */
  ghost predicate WellNamed(t: Tree)
  {
    match t
    case Items(ks) => forall k | 0 <= k < |ks| :: WellNamed(ks[k])
    case Named(ms) => DistinctNames(ms) && forall k | 0 <= k < |ms| :: WellNamed(ms[k].tree)
    case _ => true
  }

  ghost function Flatten(t: Tree, at: Path): seq<Slot>
    decreases t, 0
  {
    match t
    case Quiet => []
    case Call(cb) => [Slot(at, cb)]
    case Items(ks) => FlattenItems(ks, 0, at)
    case Named(ms) => FlattenMembers(ms, at)
  }

  ghost function FlattenItems(ks: seq<Tree>, i: nat, at: Path): seq<Slot>
    requires i <= |ks|
    decreases ks, |ks| - i
  {
    if i == |ks| then [] else Flatten(ks[i], at + [Idx(i)]) + FlattenItems(ks, i + 1, at)
  }

  ghost function FlattenMembers(ms: seq<Member>, at: Path): seq<Slot>
    decreases ms
  {
    if ms == [] then [] else Flatten(ms[0].tree, at + [Key(ms[0].name)]) + FlattenMembers(ms[1..], at)
  }

  lemma {:induction false} FlattenMembersConcat(a: seq<Member>, b: seq<Member>, at: Path)
    ensures FlattenMembers(a + b, at) == FlattenMembers(a, at) + FlattenMembers(b, at)
  {
    if a == [] {
      assert a + b == b;
    } else {
      FlattenMembersConcat(a[1..], b, at);
      FlattenMembersHead(a, b, at);
      ConcatAssoc(Flatten(a[0].tree, at + [Key(a[0].name)]), FlattenMembers(a[1..], at), FlattenMembers(b, at));
    }
  }

  lemma FlattenMembersHead(a: seq<Member>, b: seq<Member>, at: Path)
    requires a != []
    ensures FlattenMembers(a + b, at) == Flatten(a[0].tree, at + [Key(a[0].name)]) + FlattenMembers(a[1..] + b, at)
  {
    assert (a + b)[1..] == a[1..] + b;
  }

  /** The walk finds the callbacks of the skeleton, in order. */
  lemma {:induction false} WalkIsSkeleton(v: Value, at: Path)
    requires Regular(v) && !Collected(v, at).panics
    ensures Collected(v, at).slots == Flatten(Skeleton(v), at)
    decreases v, 0
  {
    match v
    case Iface(e) => WalkIsSkeleton(e, at);
    case Ptr(e) =>
      if e.Struct? { WalkStruct(e.fields, e.methods, true, at); }
      else if !e.Fun? { WalkIsSkeleton(e, at); }
    case List(es) => WalkElems(es, Skeleton(v).kids, 0, at);
    case Dict(es) =>
      var ms := Skeleton(v).members;
      WalkEntries(es, ms, 0, at);
      assert ms[0..] == ms;
    case Struct(fs, ms) => WalkStruct(fs, ms, false, at);
    case _ =>
  }

  lemma {:induction false} WalkElems(es: seq<Value>, ks: seq<Tree>, i: nat, at: Path)
    requires |ks| == |es| && i <= |es| && !CollectedElems(es, i, at).panics
    requires forall k | 0 <= k < |es| :: Regular(es[k]) && ks[k] == Skeleton(es[k])
    ensures CollectedElems(es, i, at).slots == FlattenItems(ks, i, at)
    decreases es, |es| - i
  {
    if i < |es| {
      WalkIsSkeleton(es[i], at + [Idx(i)]);
      WalkElems(es, ks, i + 1, at);
    }
  }

  lemma {:induction false} WalkEntries(es: seq<Entry>, ms: seq<Member>, i: nat, at: Path)
    requires |ms| == |es| && i <= |es| && !CollectedEntries(es, i, at).panics
    requires forall k | 0 <= k < |es| :: Regular(es[k].value) && ms[k] == Member(es[k].key, Skeleton(es[k].value))
    ensures CollectedEntries(es, i, at).slots == FlattenMembers(ms[i..], at)
    decreases es, |es| - i
  {
    if i < |es| {
      WalkIsSkeleton(es[i].value, at + [Key(es[i].key)]);
      WalkEntries(es, ms, i + 1, at);
      assert ms[i..][1..] == ms[i + 1..];
    }
  }

  lemma {:induction false} WalkStruct(fs: seq<Field>, ms: seq<Method>, viaPointer: bool, at: Path)
    requires Regular(Struct(fs, ms)) && !CollectedFields(fs, 0, at).panics
    ensures CollectedFields(fs, 0, at).slots + CollectedMethods(ms, 0, viaPointer, at).slots ==
            FlattenMembers(FieldMembers(fs, 0) + MethodMembers(ms, 0, viaPointer), at)
    decreases fs, |fs| + 1
  {
    WalkFields(fs, 0, at);
    WalkMethods(ms, 0, viaPointer, at);
    FlattenMembersConcat(FieldMembers(fs, 0), MethodMembers(ms, 0, viaPointer), at);
  }

  lemma {:induction false} WalkFields(fs: seq<Field>, i: nat, at: Path)
    requires i <= |fs| && !CollectedFields(fs, i, at).panics
    requires forall k | 0 <= k < |fs| && !Skipped(fs[k]) ::
        && Regular(fs[k].value)
        && (fs[k].embedded ==> Skeleton(fs[k].value).Named? || Skeleton(fs[k].value).Quiet?)
    ensures CollectedFields(fs, i, at).slots == FlattenMembers(FieldMembers(fs, i), at)
    decreases fs, |fs| - i
  {
    if i < |fs| {
      var f, after := fs[i], FieldMembers(fs, i + 1);
      WalkFields(fs, i + 1, at);
      if !Skipped(f) {
        if f.embedded {
          WalkIsSkeleton(f.value, at);
          if Skeleton(f.value).Named? { FlattenMembersConcat(Skeleton(f.value).members, after, at); }
        } else {
          WalkIsSkeleton(f.value, at + [Key(FieldName(f))]);
          assert FieldMembers(fs, i)[1..] == after;
        }
      }
    }
  }

  lemma {:induction false} WalkMethods(ms: seq<Method>, i: nat, viaPointer: bool, at: Path)
    requires i <= |ms|
    ensures CollectedMethods(ms, i, viaPointer, at).slots == FlattenMembers(MethodMembers(ms, i, viaPointer), at)
    decreases |ms| - i
  {
    if i < |ms| {
      WalkMethods(ms, i + 1, viaPointer, at);
      if viaPointer || !ms[i].onPointer {
        assert MethodMembers(ms, i, viaPointer)[1..] == MethodMembers(ms, i + 1, viaPointer);
      }
    }
  }

  // ------------------------------------------------------ paths are distinct

  ghost predicate Extends(slots: seq<Slot>, at: Path)
  {
    forall k | 0 <= k < |slots| :: at <= slots[k].path
  }

  ghost predicate DistinctPaths(slots: seq<Slot>)
  {
    forall i, j | 0 <= i < j < |slots| :: slots[i].path != slots[j].path
  }

  /** All slots lie below one of the children from i on. */
  ghost predicate BelowFrom(slots: seq<Slot>, at: Path, i: nat)
  {
    forall k | 0 <= k < |slots| ::
      var p := slots[k].path; |at| < |p| && at <= p && p[|at|].Idx? && i <= p[|at|].i
  }

  ghost predicate BelowNamed(slots: seq<Slot>, at: Path, ms: seq<Member>)
  {
    forall k | 0 <= k < |slots| ::
      var p := slots[k].path; |at| < |p| && at <= p && exists m | m in ms :: p[|at|] == Key(m.name)
  }

  lemma Deeper(at: Path, x: PathElem, p: Path)
    requires at + [x] <= p
    ensures |at| < |p| && at <= p && p[|at|] == x
  {
    assert at == (at + [x])[..|at|];
    assert p[|at|] == (at + [x])[|at|];
  }

  /** No two recorded callbacks share a path. */
  lemma {:induction false} FlattenDistinct(t: Tree, at: Path)
    requires WellNamed(t)
    ensures DistinctPaths(Flatten(t, at)) && Extends(Flatten(t, at), at)
    decreases t, 0
  {
    match t
    case Items(ks) => DistinctItems(ks, 0, at);
    case Named(ms) => DistinctMembers(ms, at);
    case _ =>
  }

  lemma {:induction false} DistinctItems(ks: seq<Tree>, i: nat, at: Path)
    requires i <= |ks| && forall k | 0 <= k < |ks| :: WellNamed(ks[k])
    ensures DistinctPaths(FlattenItems(ks, i, at)) && BelowFrom(FlattenItems(ks, i, at), at, i)
    decreases ks, |ks| - i
  {
    if i < |ks| {
      var head := Flatten(ks[i], at + [Idx(i)]);
      FlattenDistinct(ks[i], at + [Idx(i)]);
      DistinctItems(ks, i + 1, at);
      forall k | 0 <= k < |head|
        ensures |at| < |head[k].path| && at <= head[k].path && head[k].path[|at|] == Idx(i)
      {
        Deeper(at, Idx(i), head[k].path);
      }
    }
  }

  lemma {:induction false} DistinctMembers(ms: seq<Member>, at: Path)
    requires DistinctNames(ms) && forall k | 0 <= k < |ms| :: WellNamed(ms[k].tree)
    ensures DistinctPaths(FlattenMembers(ms, at)) && BelowNamed(FlattenMembers(ms, at), at, ms)
    decreases ms
  {
    if ms != [] {
      var x := Key(ms[0].name);
      var head, rest := Flatten(ms[0].tree, at + [x]), FlattenMembers(ms[1..], at);
      FlattenDistinct(ms[0].tree, at + [x]);
      DistinctMembers(ms[1..], at);
      forall k | 0 <= k < |head|
        ensures |at| < |head[k].path| && at <= head[k].path && head[k].path[|at|] == x
      {
        Deeper(at, x, head[k].path);
      }
      assert ms[0] in ms;
      forall m | m in ms[1..] ensures m in ms && m.name != ms[0].name {}
    }
  }

  // --------------------------------------------------------------- the wire

  /** JSON turns an index into a number and leaves a name as it is. */
  function ToWire(p: Path): (w: WirePath)
    ensures |w| == |p|
  {
    if p == [] then []
    else [match p[0] case Idx(i) => Num(i as real) case Key(s) => Str(s)] + ToWire(p[1..])
  }

  lemma {:induction false} ToWireInjective(p: Path, q: Path)
    requires ToWire(p) == ToWire(q)
    ensures p == q
  {
    if p != [] {
      assert ToWire(p)[1..] == ToWire(p[1..]) && ToWire(q)[1..] == ToWire(q[1..]);
      ToWireInjective(p[1..], q[1..]);
      assert ToWire(p)[0] == ToWire(q)[0];
      assert p == [p[0]] + p[1..] && q == [q[0]] + q[1..];
    }
  }

  /** A slot is in the flattened tree iff its path leads to its callback. */
  lemma {:induction false} FlattenAt(t: Tree, at: Path, rest: Path, cb: Cb)
    requires WellNamed(t)
    ensures Slot(at + rest, cb) in Flatten(t, at) <==> WireAt(t, ToWire(rest)) == Some(cb)
    decreases t, 0
  {
    match t
    case Quiet =>
    case Call(c) => assert at + rest == at <==> rest == [];
    case Items(ks) => FlattenAtItems(ks, 0, at, rest, cb);
    case Named(ms) => FlattenAtMembers(ms, at, rest, cb);
  }

  lemma {:induction false} FlattenAtItems(ks: seq<Tree>, i: nat, at: Path, rest: Path, cb: Cb)
    requires i <= |ks| && forall k | 0 <= k < |ks| :: WellNamed(ks[k])
    ensures Slot(at + rest, cb) in FlattenItems(ks, i, at) <==>
            (rest != [] && rest[0].Idx? && i <= rest[0].i < |ks| && WireAt(ks[rest[0].i], ToWire(rest[1..])) == Some(cb))
    decreases ks, |ks| - i
  {
    if i < |ks| {
      FlattenAtItems(ks, i + 1, at, rest, cb);
      ChildSlot(ks[i], at, Idx(i), rest, cb);
    }
  }

  lemma {:induction false} FlattenAtMembers(ms: seq<Member>, at: Path, rest: Path, cb: Cb)
    requires DistinctNames(ms) && forall k | 0 <= k < |ms| :: WellNamed(ms[k].tree)
    ensures Slot(at + rest, cb) in FlattenMembers(ms, at) <==> WireAt(Named(ms), ToWire(rest)) == Some(cb)
    decreases ms
  {
    if ms != [] {
      FlattenAtMembers(ms[1..], at, rest, cb);
      ChildSlot(ms[0].tree, at, Key(ms[0].name), rest, cb);
      if rest != [] {
        assert ToWire(rest)[1..] == ToWire(rest[1..]);
      }
    }
  }

  lemma {:induction false} ChildSlot(t: Tree, at: Path, x: PathElem, rest: Path, cb: Cb)
    requires WellNamed(t)
    ensures Slot(at + rest, cb) in Flatten(t, at + [x]) <==>
            (rest != [] && rest[0] == x && WireAt(t, ToWire(rest[1..])) == Some(cb))
    decreases t, 1
  {
    if rest != [] && rest[0] == x {
      assert at + rest == at + [x] + rest[1..];
      FlattenAt(t, at + [x], rest[1..], cb);
    } else if Slot(at + rest, cb) in Flatten(t, at + [x]) {
      FlattenDistinct(t, at + [x]);
      Deeper(at, x, at + rest);
      assert false;
    }
  }

  /** Every wire path that leads to a callback is the wire form of a path. */
  lemma {:induction false} FromWire(t: Tree, w: WirePath) returns (p: Path)
    requires WireAt(t, w).Some?
    ensures ToWire(p) == w
    decreases t
  {
    match t
    case Call(_) => p := [];
    case Items(ks) =>
      var rest := FromWire(ks[w[0].x.Floor], w[1..]);
      p := [Idx(w[0].x.Floor)] + rest;
      assert p[1..] == rest;
    case Named(ms) =>
      var k := FindMember(ms, w[0].s).value;
      var rest := FromWire(ms[k].tree, w[1..]);
      p := [Key(w[0].s)] + rest;
      assert p[1..] == rest;
  }

  // ------------------------------------------------------------- Unscrub

  /** The loop over the entries of the callbacks field, in some order: each key is
      parsed, then its caller is installed; the first error ends it. */
  function InstallEntries(r: Recv, msg: map<string, WirePath>, order: seq<string>): Outcome
    requires forall s | s in order :: s in msg
    decreases |order|
  {
    if order == [] then Done(r)
    else match ParseUint(order[0])
      case None => Failed
      case Some(id) =>
        match Install(r, msg[order[0]], id, false)
        case Done(x) => InstallEntries(x, msg, order[1..])
        case o => o
  }

  predicate IsPointer(r: Recv) { r.Node? && r.kind.KPtr? }

  /** Unscrub takes a pointer and panics on anything else. */
  function UnscrubAll(r: Recv, msg: map<string, WirePath>, order: seq<string>): Outcome
    requires forall s | s in order :: s in msg
  {
    if IsPointer(r) then InstallEntries(r, msg, order) else Panicked
  }

  method Unscrub(rc: Receiver, msg: map<string, WirePath>, order: seq<string>) returns (o: Outcome)
    requires forall s | s in order :: s in msg
    modifies rc
    ensures o == UnscrubAll(old(rc.root), msg, order)
    ensures o.Done? ==> rc.root == o.value
  {
    if !IsPointer(rc.root) { return Panicked; }
    for k := 0 to |order|
      invariant InstallEntries(old(rc.root), msg, order) == InstallEntries(rc.root, msg, order[k..])
    {
      assert order[k..][1..] == order[k + 1..];
      var id := ParseUint(order[k]);
      if id == None { return Failed; }
      o := rc.SetCallback(msg[order[k]], id.value, false);
      if !o.Done? { return; }
    }
    o := Done(rc.root);
  }

  /** A key that is no number is an error, wherever it comes: the callbacks after it are
      not installed. */
  lemma {:induction false} BadKeyFails(r: Recv, msg: map<string, WirePath>, order: seq<string>, k: nat)
    requires k < |order| && (forall s | s in order :: s in msg)
    requires order[k] == "" || exists i | 0 <= i < |order[k]| :: !IsDigit(order[k][i])
    ensures !InstallEntries(r, msg, order).Done?
    ensures k == 0 ==> InstallEntries(r, msg, order) == Failed
    decreases k
  {
    if k == 0 {
      ParseUintRefuses(order[0]);
    } else if ParseUint(order[0]).Some? {
      match Install(r, msg[order[0]], ParseUint(order[0]).value, false) {
        case Done(x) => BadKeyFails(x, msg, order[1..], k - 1);
        case _ =>
      }
    }
  }

  /** The same entries as pending callbacks, as ParseCallbacks makes them. */
  function Specs(msg: map<string, WirePath>, order: seq<string>): (specs: seq<Spec>)
    requires forall s | s in order :: s in msg && ParseUint(s).Some?
    ensures |specs| == |order|
    ensures forall k | 0 <= k < |order| :: specs[k] == Spec(msg[order[k]], ParseUint(order[k]).value)
  {
    if order == [] then []
    else [Spec(msg[order[0]], ParseUint(order[0]).value)] + Specs(msg, order[1..])
  }

  lemma {:induction false} UnscrubIsInstall(r: Recv, msg: map<string, WirePath>, order: seq<string>)
    requires forall s | s in order :: s in msg && ParseUint(s).Some?
    ensures InstallEntries(r, msg, order) == InstallAll(r, Specs(msg, order), false)
    ensures IsPointer(r) ==> UnscrubAll(r, msg, order) == InstallAll(r, Specs(msg, order), false)
    decreases |order|
  {
    if order != [] {
      assert Specs(msg, order)[1..] == Specs(msg, order[1..]);
      match Install(r, msg[order[0]], ParseUint(order[0]).value, false) {
        case Done(x) => UnscrubIsInstall(x, msg, order[1..]);
        case _ =>
      }
    }
  }

  // ---------------------------------------------------------- the round trip

  ghost predicate Sendable(v: Value)
  {
    Walked(v) && !Collected(v, []).panics && Regular(v) && WellNamed(Skeleton(v))
  }

  /** The state after scrubbing v with a scrubber at (next, table). */
  ghost function Sent(v: Value, next: nat, table: map<nat, Cb>): Record
  {
    Recorded(Record(next, table, map[]), if Walked(v) then Collected(v, []).slots else [])
  }

  function WireMsg(msg: map<string, Path>): map<string, WirePath>
  {
    map s | s in msg :: ToWire(msg[s])
  }

  /** ids assigns to the path of every callback of t the one identifier that the
      message gives that path, and the table holds that callback under it. */
  ghost predicate Assigns(ids: map<WirePath, nat>, t: Tree, q: Record, next: nat)
  {
    && (forall p: WirePath :: p in ids <==> WireAt(t, p).Some?)
    && (forall p | p in ids ::
          && next <= ids[p] < q.next
          && ids[p] in q.table && WireAt(t, p) == Some(q.table[ids[p]])
          && Format(ids[p]) in q.msg && ToWire(q.msg[Format(ids[p])]) == p)
  }

  /** The slots are the callbacks of t: one per path that leads to a callback. */
  ghost predicate Lists(t: Tree, slots: seq<Slot>)
  {
    && DistinctPaths(slots)
    && (forall k | 0 <= k < |slots| :: WireAt(t, ToWire(slots[k].path)) == Some(slots[k].cb))
    && (forall p: WirePath | WireAt(t, p).Some? :: exists k | 0 <= k < |slots| :: ToWire(slots[k].path) == p)
  }

  lemma SlotOf(t: Tree, p: WirePath)
    requires WellNamed(t) && WireAt(t, p).Some?
    ensures var slots := Flatten(t, []); exists k | 0 <= k < |slots| :: ToWire(slots[k].path) == p
  {
    var q := FromWire(t, p);
    var cb := WireAt(t, p).value;
    FlattenAt(t, [], q, cb);
    assert [] + q == q;
    var k :| 0 <= k < |Flatten(t, [])| && Flatten(t, [])[k] == Slot(q, cb);
  }

  lemma SlotLeads(t: Tree, k: nat)
    requires WellNamed(t) && k < |Flatten(t, [])|
    ensures var s := Flatten(t, [])[k]; WireAt(t, ToWire(s.path)) == Some(s.cb)
  {
    var s := Flatten(t, [])[k];
    FlattenAt(t, [], s.path, s.cb);
    assert [] + s.path == s.path;
    assert s in Flatten(t, []);
  }

  lemma FlattenLists(t: Tree)
    requires WellNamed(t)
    ensures Lists(t, Flatten(t, []))
  {
    var slots := Flatten(t, []);
    FlattenDistinct(t, []);
    forall k | 0 <= k < |slots| ensures WireAt(t, ToWire(slots[k].path)) == Some(slots[k].cb) {
      SlotLeads(t, k);
    }
    forall p: WirePath | WireAt(t, p).Some? ensures exists k | 0 <= k < |slots| :: ToWire(slots[k].path) == p {
      SlotOf(t, p);
    }
  }

  /** The walk over a sendable value lists the callbacks of its skeleton. */
  lemma WalkLists(v: Value)
    requires Sendable(v)
    ensures Lists(Skeleton(v), Collected(v, []).slots)
  {
    WalkIsSkeleton(v, []);
    FlattenLists(Skeleton(v));
  }

  /** The identifier given to the path of each slot. */
  ghost function Ids(slots: seq<Slot>, next: nat): map<WirePath, nat>
  {
    if slots == [] then map[]
    else
      var k := |slots| - 1;
      Ids(slots[..k], next)[ToWire(slots[k].path) := next + k]
  }

  lemma {:induction false} IdsAt(slots: seq<Slot>, next: nat, k: nat)
    requires DistinctPaths(slots) && k < |slots|
    ensures var p := ToWire(slots[k].path); p in Ids(slots, next) && Ids(slots, next)[p] == next + k
  {
    var n := |slots| - 1;
    if k < n {
      IdsAt(slots[..n], next, k);
      if ToWire(slots[k].path) == ToWire(slots[n].path) {
        ToWireInjective(slots[k].path, slots[n].path);
      }
    }
  }

  lemma {:induction false} IdsOnly(slots: seq<Slot>, next: nat, p: WirePath) returns (k: nat)
    requires p in Ids(slots, next)
    ensures k < |slots| && p == ToWire(slots[k].path)
  {
    k := |slots| - 1;
    if p != ToWire(slots[k].path) {
      k := IdsOnly(slots[..k], next, p);
    }
  }

  ghost function IdsOf(v: Value, next: nat): map<WirePath, nat> { Ids(Collected(v, []).slots, next) }

  lemma SlotRecorded(r: Record, slots: seq<Slot>, k: nat)
    requires k < |slots|
    ensures var q, id := Recorded(r, slots), r.next + k;
            && id < q.next && id in q.table && q.table[id] == slots[k].cb
            && Format(id) in q.msg && q.msg[Format(id)] == slots[k].path
  {
    RecordedTable(r, slots);
    RecordedMsg(r, slots, r.next + k);
  }

  /** The message sends callback cb, with path p, under identifier id. */
  predicate Sends(q: Record, id: nat, p: Path, cb: Cb)
  {
    id in q.table && q.table[id] == cb && Format(id) in q.msg && q.msg[Format(id)] == p
  }

  lemma SlotSent(r: Record, slots: seq<Slot>, k: nat)
    requires k < |slots|
    ensures Sends(Recorded(r, slots), r.next + k, slots[k].path, slots[k].cb)
    ensures forall p, cb :: Sends(Recorded(r, slots), r.next + k, p, cb) ==> slots[k] == Slot(p, cb)
  {
    SlotRecorded(r, slots, k);
  }

  /** Identifiers from next on send the slots, one each. */
  ghost predicate SendsSlots(q: Record, next: nat, slots: seq<Slot>)
  {
    forall id: nat, p, cb | next <= id < next + |slots| :: Sends(q, id, p, cb) <==> slots[id - next] == Slot(p, cb)
  }

  lemma RecordedSends(r: Record, slots: seq<Slot>)
    ensures SendsSlots(Recorded(r, slots), r.next, slots)
  {
    forall id: nat, p, cb | r.next <= id < r.next + |slots|
      ensures Sends(Recorded(r, slots), id, p, cb) <==> slots[id - r.next] == Slot(p, cb)
    {
      SlotSent(r, slots, id - r.next);
    }
  }

  lemma SlotsSent(q: Record, next: nat, slots: seq<Slot>, p: Path, cb: Cb)
    requires SendsSlots(q, next, slots)
    ensures Slot(p, cb) in slots <==> exists id: nat | next <= id < next + |slots| :: Sends(q, id, p, cb)
  {
    if Slot(p, cb) in slots {
      var k :| 0 <= k < |slots| && slots[k] == Slot(p, cb);
      assert Sends(q, next + k, p, cb);
    }
  }

  lemma SentOnce(q: Record, next: nat, slots: seq<Slot>, p: Path, cb: Cb)
    requires SendsSlots(q, next, slots) && DistinctPaths(slots)
    ensures forall a: nat, b: nat | next <= a < b < next + |slots| :: !(Sends(q, a, p, cb) && Sends(q, b, p, cb))
  {
    forall a: nat, b: nat | next <= a < b < next + |slots| ensures !(Sends(q, a, p, cb) && Sends(q, b, p, cb)) {
      assert slots[a - next].path != slots[b - next].path;
    }
  }

  /** Scrubbing is exact, for every value it does not refuse: a callback is sent under
      some new identifier iff the value is of a kind that is walked and the callback is
      reachable by its path, under one only when names are distinct; the new identifiers
      are the next consecutive block, and earlier table entries are untouched. */
  lemma ScrubExactly(v: Value, next: nat, table: map<nat, Cb>, p: Path, cb: Cb)
    requires Walked(v) ==> !DnodeReach.Unsendable(v)
    ensures var q := Sent(v, next, table);
            && (Walked(v) && DnodeReach.Holds(v, p, cb) <==> exists id: nat | next <= id < q.next :: Sends(q, id, p, cb))
            && (Sendable(v) ==> forall a: nat, b: nat | next <= a < b < q.next :: !(Sends(q, a, p, cb) && Sends(q, b, p, cb)))
            && (forall id | id in table && !(next <= id < q.next) :: id in q.table && q.table[id] == table[id])
            && (forall id | id in q.table && id !in table :: next <= id < q.next)
            && (forall id | next <= id < q.next :: id in q.table)
  {
    var r, slots := Record(next, table, map[]), if Walked(v) then Collected(v, []).slots else [];
    RecordedTable(r, slots);
    if Walked(v) {
      DnodeReach.PanicsExactly(v, []);
      DnodeReach.CollectedExactly(v, [], p, cb);
      assert p[0..] == p;
    }
    RecordedSends(r, slots);
    SlotsSent(Sent(v, next, table), next, slots, p, cb);
    if Sendable(v) {
      WalkLists(v);
      SentOnce(Sent(v, next, table), next, slots, p, cb);
    }
  }

  // ------------------------------------------------------ names that are sent

  lemma TagReads(f: Field, t: string, opts: string)
    requires ',' !in t && (f.jsonTag == t || f.jsonTag == t + "," + opts)
    ensures TagName(f) == t
  {
    if f.jsonTag == t { IndexNone(t, ','); } else { IndexAt(t, ',', opts); }
  }

  /** The state after one callback has been sent with path p. */
  function OneSent(next: nat, table: map<nat, Cb>, p: Path, cb: Cb): Record
  {
    Record(next + 1, table[next := cb], map[Format(next) := p])
  }

  lemma RecordedOne(next: nat, table: map<nat, Cb>, p: Path, cb: Cb)
    ensures Recorded(Record(next, table, map[]), [Slot(p, cb)]) == OneSent(next, table, p, cb)
  {
    assert [Slot(p, cb)][..0] == [];
  }

  /** At the top, a Function alone is sent with the empty path; nothing is looked for
      behind a pointer or an interface, nor in what is no struct, slice or map. */
  lemma TopSent(v: Value, cb: Cb, next: nat, table: map<nat, Cb>)
    ensures Sent(Fun(Local(Some(cb))), next, table) == OneSent(next, table, [], cb)
    ensures v.Ptr? || v.Iface? || v.Scalar? || v.GoFunc? || v.Nil? ==> Sent(v, next, table) == Record(next, table, map[])
  {
    RecordedOne(next, table, [], cb);
  }

  /** A field is sent under the name in its JSON tag without the options after the comma,
      under its own name when the tag has none, and not at all when the tag says "-" or
      the dnode tag does. */
  lemma FieldSent(f: Field, t: string, opts: string, cb: Cb, next: nat, table: map<nat, Cb>)
    requires f.exported && !f.embedded && f.value == Fun(Local(Some(cb)))
    requires ',' !in t && (f.jsonTag == t || f.jsonTag == t + "," + opts)
    ensures Sent(Struct([f], []), next, table) ==
            if t == "-" || f.dnodeTag == "-" then Record(next, table, map[])
            else OneSent(next, table, [Key(if t == "" then f.name else t)], cb)
  {
    TagReads(f, t, opts);
    var v := Struct([f], []);
    assert CollectedMethods([], 0, false, []) == NOTHING && CollectedFields([f], 1, []) == NOTHING;
    var p := [Key(if t == "" then f.name else t)];
    if !(t == "-" || f.dnodeTag == "-") {
      assert [] + p == p && Collected(f.value, p) == Walk([Slot(p, cb)], false);
      assert CollectedFields([f], 0, []) == Then(Collected(f.value, p), NOTHING);
      assert Collected(v, []).slots == [Slot(p, cb)];
      RecordedOne(next, table, p, cb);
    } else {
      assert Collected(v, []).slots == [];
    }
  }

  /** An unexported field is not sent; an embedded one, exported or not, is sent with the
      path of the struct around it. */
  lemma EmbeddedSent(f: Field, cb: Cb, next: nat, table: map<nat, Cb>)
    requires f.value == Fun(Local(Some(cb))) && f.jsonTag == "" && f.dnodeTag != "-" && (f.embedded || !f.exported)
    ensures Sent(Struct([f], []), next, table) ==
            if f.embedded then OneSent(next, table, [], cb) else Record(next, table, map[])
  {
    TagReads(f, "", "");
    assert CollectedMethods([], 0, false, []) == NOTHING && CollectedFields([f], 1, []) == NOTHING;
    if f.embedded {
      assert Collected(f.value, []) == Walk([Slot([], cb)], false);
      assert CollectedFields([f], 0, []) == Then(Collected(f.value, []), NOTHING);
      assert Collected(Struct([f], []), []).slots == [Slot([], cb)];
      RecordedOne(next, table, [], cb);
    } else {
      assert Collected(Struct([f], []), []).slots == [];
    }
  }

  /** A method is sent under its name with the first letter in lower case; one that needs
      a pointer only from behind a pointer. */
  lemma MethodSent(m: Method, c: char, rest: string, next: nat, table: map<nat, Cb>)
    requires 'A' <= c <= 'Z' && m.name == [c] + rest
    ensures var name := [('a' as int + (c as int - 'A' as int)) as char] + rest;
            && Sent(Struct([], [m]), next, table) ==
                 (if m.onPointer then Record(next, table, map[]) else OneSent(next, table, [Key(name)], m.cb))
            && Sent(List([Ptr(Struct([], [m]))]), next, table) == OneSent(next, table, [Idx(0), Key(name)], m.cb)
  {
    var name := [('a' as int + (c as int - 'A' as int)) as char] + rest;
    assert m.name[1..] == rest;
    assert CollectedMethods([m], 1, false, []) == NOTHING && CollectedFields([], 0, []) == NOTHING;
    assert CollectedMethods([m], 1, true, [Idx(0)]) == NOTHING && CollectedFields([], 0, [Idx(0)]) == NOTHING;
    assert LowerFirst(m.name) == name;
    if !m.onPointer {
      assert CollectedMethods([m], 0, false, []) == Then(Walk([Slot([] + [Key(name)], m.cb)], false), NOTHING);
      assert [] + [Key(name)] == [Key(name)];
      assert Collected(Struct([], [m]), []).slots == [Slot([Key(name)], m.cb)];
      RecordedOne(next, table, [Key(name)], m.cb);
    } else {
      assert Collected(Struct([], [m]), []).slots == [];
    }
    var v := List([Ptr(Struct([], [m]))]);
    assert CollectedElems(v.elems, 1, []) == NOTHING;
    assert [] + [Idx(0)] == [Idx(0)] && [Idx(0)] + [Key(name)] == [Idx(0), Key(name)];
    assert CollectedMethods([m], 0, true, [Idx(0)]) == Then(Walk([Slot([Idx(0)] + [Key(name)], m.cb)], false), NOTHING);
    assert Collected(v.elems[0], [Idx(0)]).slots == [Slot([Idx(0), Key(name)], m.cb)];
    assert Collected(v, []).slots == [Slot([Idx(0), Key(name)], m.cb)];
    RecordedOne(next, table, [Idx(0), Key(name)], m.cb);
  }

  lemma IdAssigned(slots: seq<Slot>, r: Record, p: WirePath) returns (k: nat)
    requires DistinctPaths(slots) && p in Ids(slots, r.next)
    ensures var q, id := Recorded(r, slots), Ids(slots, r.next)[p];
            && k < |slots| && p == ToWire(slots[k].path)
            && r.next <= id < q.next && id in q.table && q.table[id] == slots[k].cb
            && Format(id) in q.msg && q.msg[Format(id)] == slots[k].path
  {
    k := IdsOnly(slots, r.next, p);
    IdsAt(slots, r.next, k);
    SlotRecorded(r, slots, k);
  }

  /** Numbering the slots assigns one identifier to the path of every callback. */
  lemma Assignment(t: Tree, slots: seq<Slot>, r: Record)
    requires Lists(t, slots)
    ensures Assigns(Ids(slots, r.next), t, Recorded(r, slots), r.next)
  {
    var ids: map<WirePath, nat> := Ids(slots, r.next);
    var q := Recorded(r, slots);
    forall p: WirePath | WireAt(t, p).Some? ensures p in ids {
      var k :| 0 <= k < |slots| && ToWire(slots[k].path) == p;
      IdsAt(slots, r.next, k);
    }
    forall p | p in ids
      ensures WireAt(t, p).Some? && r.next <= ids[p] < q.next
      ensures ids[p] in q.table && WireAt(t, p) == Some(q.table[ids[p]])
      ensures Format(ids[p]) in q.msg && ToWire(q.msg[Format(ids[p])]) == p
    {
      var k := IdAssigned(slots, r, p);
    }
  }

  lemma KeyParses(slots: seq<Slot>, r: Record, s: string) returns (k: nat)
    requires r.msg == map[] && s in Recorded(r, slots).msg && Recorded(r, slots).next <= UINT64_LIMIT
    ensures k < |slots| && ParseUint(s) == Some(r.next + k) && Recorded(r, slots).msg[s] == slots[k].path
  {
    var id := RecordedMsgOnly(r, slots, s);
    k := id - r.next;
    SlotRecorded(r, slots, k);
    ParseFormat(id);
  }

  lemma KeyId(slots: seq<Slot>, r: Record, s: string) returns (k: nat)
    requires DistinctPaths(slots)
    requires r.msg == map[] && s in Recorded(r, slots).msg && Recorded(r, slots).next <= UINT64_LIMIT
    ensures k < |slots| && Recorded(r, slots).msg[s] == slots[k].path
    ensures var p, ids := ToWire(slots[k].path), Ids(slots, r.next); p in ids && ParseUint(s) == Some(ids[p])
  {
    k := KeyParses(slots, r, s);
    IdsAt(slots, r.next, k);
  }

  /** Each key of the message parses to the identifier assigned to its path. */
  lemma KeyAssigned(t: Tree, slots: seq<Slot>, r: Record, s: string)
    requires Lists(t, slots) && r.msg == map[] && s in Recorded(r, slots).msg && Recorded(r, slots).next <= UINT64_LIMIT
    ensures var p, ids := ToWire(Recorded(r, slots).msg[s]), Ids(slots, r.next);
            p in ids && ParseUint(s) == Some(ids[p]) && WireAt(t, p).Some?
  {
    var k := KeyId(slots, r, s);
    assert WireAt(t, ToWire(slots[k].path)) == Some(slots[k].cb);
  }

  /** Every callback has an entry in the message. */
  lemma EntryOf(t: Tree, slots: seq<Slot>, r: Record, p: WirePath) returns (s: string)
    requires Lists(t, slots) && WireAt(t, p).Some?
    ensures s in Recorded(r, slots).msg && ToWire(Recorded(r, slots).msg[s]) == p
  {
    var k :| 0 <= k < |slots| && ToWire(slots[k].path) == p;
    SlotRecorded(r, slots, k);
    s := Format(r.next + k);
  }

  /** The entries of the message, in any order, cover the callbacks of the tree. */
  lemma SentCovers(t: Tree, slots: seq<Slot>, r: Record, order: seq<string>)
    requires Lists(t, slots) && r.msg == map[] && Recorded(r, slots).next <= UINT64_LIMIT
    requires forall s :: s in order <==> s in Recorded(r, slots).msg
    ensures forall s | s in order :: ParseUint(s).Some?
    ensures Covers(t, Specs(WireMsg(Recorded(r, slots).msg), order), Ids(slots, r.next), [])
  {
    var msg, ids := Recorded(r, slots).msg, Ids(slots, r.next);
    forall s | s in order ensures ParseUint(s).Some? {
      KeyAssigned(t, slots, r, s);
    }
    var specs := Specs(WireMsg(msg), order);
    forall e | e in specs
      ensures WireAt(t, e.path).Some? && [] + e.path in ids && e.id == ids[[] + e.path]
    {
      var k :| 0 <= k < |specs| && specs[k] == e;
      assert order[k] in order && [] + e.path == e.path;
      KeyAssigned(t, slots, r, order[k]);
    }
    forall p: WirePath | WireAt(t, p).Some?
      ensures exists e | e in specs :: e.path == p
    {
      var s := EntryOf(t, slots, r, p);
      assert s in order;
      var k :| 0 <= k < |order| && order[k] == s;
      assert specs[k] in specs && specs[k].path == p;
    }
  }

  /** Scrub, send, Unscrub: for every sendable value and every pointer to a receiver
      it fits, whatever order the entries of the message are visited in, Unscrub succeeds
      and every callback position of the receiver holds the caller for exactly
      the identifier under which the sender keeps that position's callback, and
      nothing else changes. On anything but a pointer Unscrub panics. */
  lemma RoundTrip(v: Value, next: nat, table: map<nat, Cb>, r: Recv, order: seq<string>)
    requires Sendable(v) && Fits(Skeleton(v), r, false)
    requires Sent(v, next, table).next <= UINT64_LIMIT
    requires forall s :: s in order <==> s in Sent(v, next, table).msg
    ensures var q, ids := Sent(v, next, table), IdsOf(v, next);
            var o := UnscrubAll(r, WireMsg(q.msg), order);
            && Assigns(ids, Skeleton(v), q, next)
            && if IsPointer(r) then FilledBy(o, Skeleton(v), r, ids, []) else o == Panicked
  {
    var msg, ids := WireMsg(Sent(v, next, table).msg), IdsOf(v, next);
    var slots, sender := Collected(v, []).slots, Record(next, table, map[]);
    WalkLists(v);
    Assignment(Skeleton(v), slots, sender);
    SentCovers(Skeleton(v), slots, sender, order);
    UnscrubIsInstall(r, msg, order);
    FillAll(Skeleton(v), r, Specs(msg, order), false, ids, []);
  }
}
