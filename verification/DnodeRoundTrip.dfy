/** What is scrubbed on one side and unscrubbed on the other ends up in the right
    place: every slot of the receiver holds the remote caller for the identifier
    under which the sender's table keeps that slot's callback. */
module DnodeRoundTrip {
  import opened Wrappers
  import opened Text
  import opened DnodeScrub
  import opened DnodeReceiver

  /** The callbacks of a value by position, with pointers and interfaces seen
      through and embedded structs merged into the struct that embeds them. */
  datatype Tree =
    | Quiet
    | Call(cb: Cb)
    | Items(kids: seq<Tree>)
    | Named(members: seq<Member>)

  datatype Member = Member(name: string, tree: Tree)

  /** Which callback a wire path leads to. */
  function WireAt(t: Tree, p: WirePath): (r: Option<Cb>)
    ensures r.Some? ==> (p == [] <==> t.Call?)
    decreases t
  {
    match t
    case Quiet => None
    case Call(cb) => if p == [] then Some(cb) else None
    case Items(ks) =>
      if p != [] && p[0].Num? && 0 <= p[0].x.Floor < |ks| && p[0].x == p[0].x.Floor as real
      then WireAt(ks[p[0].x.Floor], p[1..]) else None
    case Named(ms) =>
      if p != [] && p[0].Str? && FindMember(ms, p[0].s).Some?
      then WireAt(ms[FindMember(ms, p[0].s).value].tree, p[1..]) else None
  }

  function FindMember(ms: seq<Member>, s: string): (r: Option<nat>)
    ensures r.Some? ==> r.value < |ms| && ms[r.value].name == s
    ensures r.None? ==> forall k | 0 <= k < |ms| :: ms[k].name != s
  {
    if ms == [] then None
    else if ms[0].name == s then Some(0)
    else match FindMember(ms[1..], s)
      case None => None
      case Some(j) => Some(j + 1)
  }

  predicate DistinctNames(ms: seq<Member>)
  {
    forall i, j | 0 <= i < j < |ms| :: ms[i].name != ms[j].name
  }

  /** Names are distinct as field names: even when only the case of their first letter
      differs. */
  predicate DistinctFields(ms: seq<Member>)
  {
    forall i, j | 0 <= i < j < |ms| :: UpperFirst(ms[i].name) != UpperFirst(ms[j].name)
  }

  // ---------------------------------------------------- matching receivers

  /** The child of a receiver node that a path element selects. */
  function Target(kind: Kind, labels: seq<string>, n: nat, h: Wire): (r: Option<nat>)
    ensures r.Some? ==> r.value < n
  {
    var found :=
      if kind.KSlice? then (if h.Num? && 0 <= Truncate(h.x) then Some(Truncate(h.x)) else None)
      else if !h.Str? then None
      else if kind.KStruct? then Find(labels, UpperFirst(h.s))
      else Find(labels, h.s);
    if found.Some? && found.value < n then Some(found.value) else None
  }

  function TargetOf(r: Recv, h: Wire): (c: Option<nat>)
    requires r.Node?
    ensures c.Some? ==> c.value < |r.kids|
  {
    Target(r.kind, r.labels, |r.kids|, h)
  }

  predicate IsIface(r: Recv) { r.Node? && r.kind.KIface? }

  predicate SeenThrough(t: Tree, r: Recv)
  {
    r.Node? && (r.kind.KPtr? || (r.kind.KIface? && !t.Call?))
  }

  /** r can take the callbacks of t: slices, structs, maps and interfaces stand
      where t has items and names, Functions and interfaces where t has a callback.
      Fields may be missing from a struct and keys from a map, and pointers and
      interfaces may be nil. */
  ghost predicate Fits(t: Tree, r: Recv, addr: bool)
    decreases t, r
  {
    if t.Quiet? then true
    else if SeenThrough(t, r) then |r.kids| <= 1 && (r.kids == [] || Fits(t, r.kids[0], r.kind.KPtr?))
    else match t
      case Call(_) => addr && (r.Fn? || IsIface(r))
      case Items(ks) =>
        && r.Node? && r.kind.KSlice? && |ks| <= |r.kids|
        && forall i | 0 <= i < |ks| :: Fits(ks[i], r.kids[i], true)
      case Named(ms) =>
        && r.Node? && DistinctNames(ms)
        && ((r.kind.KStruct? && addr && DistinctFields(ms)) || r.kind.KMap?)
        && (TakesKeys(r) ==> |r.labels| == |r.kids|)
        && forall k | 0 <= k < |ms| ::
             && (r.kind.KStruct? ==> ms[k].name != "")
             && (TakesKeys(r) && ms[k].tree.Call? ==> r.kind.made)
             && var c := TargetOf(r, Str(ms[k].name));
                c.Some? ==>
                  && (TakesKeys(r) ==> IsIface(r.kids[c.value]))
                  && Fits(ms[k].tree, r.kids[c.value], r.kind.KStruct? || (r.kind.ofInterface && ms[k].tree.Call?))
  }

  /** A map of interface values, to which a callback is added under a new key. */
  predicate TakesKeys(r: Recv) { r.Node? && r.kind.KMap? && r.kind.ofInterface }

  predicate SameShape(a: Recv, b: Recv)
  {
    a.Node? && b.Node? && a.kind == b.kind && a.labels == b.labels && |a.kids| == |b.kids|
  }

  /** after is before with, at each callback position of t that before has, the
      caller for the identifier assigned to the path of that position, and with
      nothing else changed. `at` is the path that leads to t. */
  ghost predicate Filled(t: Tree, before: Recv, after: Recv, ids: map<WirePath, nat>, at: WirePath)
    decreases t, before
  {
    if t.Quiet? then after == before
    else if SeenThrough(t, before) then
      if before.kids == [] then after == before
      else SameShape(before, after) && Filled(t, before.kids[0], after.kids[0], ids, at)
    else match t
      case Call(_) => at in ids && after == if before.Fn? then Fn(Some(ids[at])) else Boxed(ids[at])
      case Items(ks) =>
        && SameShape(before, after)
        && forall i | 0 <= i < |before.kids| ::
             if i < |ks| then Filled(ks[i], before.kids[i], after.kids[i], ids, at + [Num(i as real)])
             else after.kids[i] == before.kids[i]
      case Named(ms) =>
        && (if TakesKeys(before) then Grown(ms, before, after, ids, at) else SameShape(before, after))
        && (forall k | 0 <= k < |ms| ::
              var c := TargetOf(before, Str(ms[k].name));
              c.Some? ==> Filled(ms[k].tree, before.kids[c.value], after.kids[c.value], ids, at + [Str(ms[k].name)]))
        && forall j | 0 <= j < |before.kids| ::
             (forall k | 0 <= k < |ms| :: TargetOf(before, Str(ms[k].name)) != Some(j)) ==> after.kids[j] == before.kids[j]
  }

  /** The outcome is success, with the receiver so filled. */
  ghost predicate FilledBy(o: Outcome, t: Tree, before: Recv, ids: map<WirePath, nat>, at: WirePath)
  {
    exists after :: o == Done(after) && Filled(t, before, after, ids, at)
  }

  /** after has the keys of before in their places, and after them exactly the names of
      the callbacks for which before has no key, each with its own caller. */
  ghost predicate Grown(ms: seq<Member>, before: Recv, after: Recv, ids: map<WirePath, nat>, at: WirePath)
    requires before.Node?
  {
    && after.Node? && after.kind == before.kind && |after.labels| == |after.kids| && |before.labels| == |before.kids|
    && before.labels <= after.labels
    && (forall i, j | |before.labels| <= i < j < |after.labels| :: after.labels[i] != after.labels[j])
    && (forall j | |before.labels| <= j < |after.labels| :: AddedName(ms, before, after.labels[j], after.kids[j], ids, at))
    && (forall k | 0 <= k < |ms| && ms[k].tree.Call? && ms[k].name !in before.labels :: ms[k].name in after.labels)
  }

  /** s is the name of a callback that before has no key for, and x holds its caller. */
  ghost predicate AddedName(ms: seq<Member>, before: Recv, s: string, x: Recv, ids: map<WirePath, nat>, at: WirePath)
    requires before.Node?
  {
    && s !in before.labels && at + [Str(s)] in ids && x == Boxed(ids[at + [Str(s)]])
    && exists k | 0 <= k < |ms| :: ms[k].name == s && ms[k].tree.Call?
  }

  /** The pending callbacks lead to the callbacks of t, reach all of them, and
      carry the identifiers assigned to their paths. */
  ghost predicate Covers(t: Tree, specs: seq<Spec>, ids: map<WirePath, nat>, at: WirePath)
  {
    && (forall e | e in specs :: WireAt(t, e.path).Some? && at + e.path in ids && e.id == ids[at + e.path])
    && (forall p: WirePath | WireAt(t, p).Some? :: exists e | e in specs :: e.path == p)
  }

  // --------------------------------------------------- routing to children

  /** The pending callbacks that go to child j, as that child sees them. */
  function Sub(kind: Kind, labels: seq<string>, n: nat, specs: seq<Spec>, j: nat): seq<Spec>
  {
    if specs == [] then []
    else
      var e := specs[0];
      (if e.path != [] && Target(kind, labels, n, e.path[0]) == Some(j) then [Spec(e.path[1..], e.id)] else [])
      + Sub(kind, labels, n, specs[1..], j)
  }

  lemma {:induction false} SubOrigin(kind: Kind, labels: seq<string>, n: nat, specs: seq<Spec>, j: nat, s: Spec) returns (e: Spec)
    requires s in Sub(kind, labels, n, specs, j)
    ensures e in specs && e.path != [] && Target(kind, labels, n, e.path[0]) == Some(j) && s == Spec(e.path[1..], e.id)
  {
    e := specs[0];
    if !(e.path != [] && Target(kind, labels, n, e.path[0]) == Some(j) && s == Spec(e.path[1..], e.id)) {
      e := SubOrigin(kind, labels, n, specs[1..], j, s);
    }
  }

  lemma {:induction false} SubHas(kind: Kind, labels: seq<string>, n: nat, specs: seq<Spec>, j: nat, e: Spec)
    requires e in specs && e.path != [] && Target(kind, labels, n, e.path[0]) == Some(j)
    ensures Spec(e.path[1..], e.id) in Sub(kind, labels, n, specs, j)
  {
    if e != specs[0] {
      SubHas(kind, labels, n, specs[1..], j, e);
    }
  }

  /** A path that goes to the child selected by its first element. */
  predicate Routes(r: Recv, p: WirePath, addr: bool)
  {
    && r.Node? && p != []
    && match r.kind
       case KSlice => p[0].Num? && TargetOf(r, p[0]).Some?
       case KStruct => addr && p[0].Str? && p[0].s != ""
       case KMap(ofInterface, made) =>
         && p[0].Str?
         && (ofInterface && |p| == 1 ==>
               made && TargetOf(r, p[0]).Some? && IsIface(r.kids[TargetOf(r, p[0]).value]))
       case _ => false
  }

  predicate KidAddr(kind: Kind, addr: bool, last: bool)
  {
    kind.KSlice? || (kind.KStruct? && addr) || (kind.KMap? && kind.ofInterface && last)
  }

  lemma RouteOne(r: Recv, p: WirePath, id: nat, addr: bool)
    requires Routes(r, p, addr)
    ensures Install(r, p, id, addr) ==
            match TargetOf(r, p[0])
            case None => Done(r)
            case Some(j) => Lift(r, j, Install(r.kids[j], p[1..], id, KidAddr(r.kind, addr, |p| == 1)))
  {}

  lemma InstallKeepsIface(r: Recv, p: WirePath, id: nat, addr: bool)
    requires IsIface(r) && Install(r, p, id, addr).Done?
    ensures IsIface(Install(r, p, id, addr).value)
  {}

  /** Installing a list on a node is installing, child by child, that child's part
      of the list. */
  lemma {:induction false} RouteAll(r: Recv, specs: seq<Spec>, addr: bool, addrs: seq<bool>)
    requires r.Node? && |addrs| == |r.kids|
    requires forall e | e in specs ::
               && Routes(r, e.path, addr)
               && var c := TargetOf(r, e.path[0]);
                  c.Some? ==> addrs[c.value] == KidAddr(r.kind, addr, |e.path| == 1)
    requires forall j | 0 <= j < |r.kids| ::
               InstallAll(r.kids[j], Sub(r.kind, r.labels, |r.kids|, specs, j), addrs[j]).Done?
    ensures var o := InstallAll(r, specs, addr);
            && o.Done? && SameShape(r, o.value)
            && forall j | 0 <= j < |r.kids| ::
                 InstallAll(r.kids[j], Sub(r.kind, r.labels, |r.kids|, specs, j), addrs[j]) == Done(o.value.kids[j])
    decreases |specs|
  {
    if specs != [] {
      var e := specs[0];
      RouteOne(r, e.path, e.id, addr);
      var c := TargetOf(r, e.path[0]);
      if c.None? {
        SubElse(r, specs);
        RouteAll(r, specs[1..], addr, addrs);
      } else {
        var o := RouteFirst(r, specs, c.value, addrs);
        var r' := WithKid(r, c.value, o);
        if IsIface(r.kids[c.value]) { InstallKeepsIface(r.kids[c.value], e.path[1..], e.id, addrs[c.value]); }
        RouteAll(r', specs[1..], addr, addrs);
      }
    }
  }

  lemma SubElse(r: Recv, specs: seq<Spec>)
    requires r.Node? && specs != [] && specs[0].path != [] && TargetOf(r, specs[0].path[0]).None?
    ensures forall j | 0 <= j < |r.kids| ::
              Sub(r.kind, r.labels, |r.kids|, specs, j) == Sub(r.kind, r.labels, |r.kids|, specs[1..], j)
  {}

  /** The first callback of the list goes to child i; the others are still to come. */
  lemma RouteFirst(r: Recv, specs: seq<Spec>, i: nat, addrs: seq<bool>) returns (x: Recv)
    requires r.Node? && |addrs| == |r.kids| && i < |r.kids|
    requires specs != [] && specs[0].path != [] && TargetOf(r, specs[0].path[0]) == Some(i)
    requires InstallAll(r.kids[i], Sub(r.kind, r.labels, |r.kids|, specs, i), addrs[i]).Done?
    ensures Install(r.kids[i], specs[0].path[1..], specs[0].id, addrs[i]) == Done(x)
    ensures forall j | 0 <= j < |r.kids| ::
              InstallAll(r.kids[j], Sub(r.kind, r.labels, |r.kids|, specs, j), addrs[j]) ==
              InstallAll(WithKid(r, i, x).kids[j], Sub(r.kind, r.labels, |r.kids|, specs[1..], j), addrs[j])
  {
    var n, first := |r.kids|, Spec(specs[0].path[1..], specs[0].id);
    var rest := Sub(r.kind, r.labels, n, specs[1..], i);
    assert Sub(r.kind, r.labels, n, specs, i) == [first] + rest && ([first] + rest)[1..] == rest;
    x := Install(r.kids[i], first.path, first.id, addrs[i]).value;
    forall j | 0 <= j < n && j != i
      ensures Sub(r.kind, r.labels, n, specs, j) == Sub(r.kind, r.labels, n, specs[1..], j) {}
  }

  // ------------------------------------------------------- maps that take keys

  /** e adds a key to a map that lacks it, or goes past the map. want holds the callers
      of the keys to be added. */
  predicate Adds(e: Spec, want: map<string, nat>)
  {
    && e.path != [] && e.path[0].Str? && (e.path[0].s in want <==> |e.path| == 1)
    && (|e.path| == 1 ==> e.id == want[e.path[0].s])
  }

  predicate Grows(r: Recv, e: Spec, addr: bool, addrs: seq<bool>, want: map<string, nat>)
    requires r.Node? && |addrs| == |r.kids|
  {
    && e.path != []
    && match TargetOf(r, e.path[0])
       case Some(j) => Routes(r, e.path, addr) && addrs[j] == KidAddr(r.kind, addr, |e.path| == 1)
       case None => Adds(e, want)
  }

  /** r with a key added. */
  function WithKey(r: Recv, s: string, id: nat): Recv
    requires r.Node?
  {
    r.(labels := r.labels + [s], kids := r.kids + [Boxed(id)])
  }

  lemma {:induction false} FindMore(labels: seq<string>, s: string, t: string)
    ensures Find(labels + [s], t) ==
            if Find(labels, t).Some? then Find(labels, t) else if s == t then Some(|labels|) else None
  {
    if labels != [] {
      FindMore(labels[1..], s, t);
      assert (labels + [s])[1..] == labels[1..] + [s];
    } else {
      assert [] + [s] == [s];
    }
  }

  /** Adding a key does not change where paths to other keys go. */
  lemma TargetMore(r: Recv, s: string, id: nat, h: Wire)
    requires TakesKeys(r) && |r.labels| == |r.kids| && s !in r.labels
    ensures TargetOf(WithKey(r, s, id), h) ==
            if TargetOf(r, h).Some? then TargetOf(r, h) else if h == Str(s) then Some(|r.kids|) else None
  {
    if h.Str? { FindMore(r.labels, s, h.s); }
  }

  lemma {:induction false} SubMore(r: Recv, s: string, id: nat, specs: seq<Spec>, j: nat)
    requires TakesKeys(r) && |r.labels| == |r.kids| && s !in r.labels && j < |r.kids|
    ensures Sub(r.kind, r.labels + [s], |r.kids| + 1, specs, j) == Sub(r.kind, r.labels, |r.kids|, specs, j)
  {
    if specs != [] {
      SubMore(r, s, id, specs[1..], j);
      if specs[0].path != [] { TargetMore(r, s, id, specs[0].path[0]); }
    }
  }

  lemma {:induction false} StaysBoxed(id: nat, specs: seq<Spec>)
    requires forall e | e in specs :: e == Spec([], id)
    ensures InstallAll(Boxed(id), specs, true) == Done(Boxed(id))
    decreases |specs|
  {
    if specs != [] {
      assert specs[0] in specs && Install(Boxed(id), [], id, true) == Done(Boxed(id));
      forall e | e in specs[1..] ensures e == Spec([], id) { assert e in specs; }
      StaysBoxed(id, specs[1..]);
    }
  }

  /** after is r with its children changed as their part of the list says, and with the
      keys that the list adds. */
  ghost predicate GrownBy(r: Recv, after: Recv, specs: seq<Spec>, addrs: seq<bool>, want: map<string, nat>)
    requires r.Node? && |addrs| == |r.kids| == |r.labels|
  {
    && after.Node? && after.kind == r.kind && |after.labels| == |after.kids| && r.labels <= after.labels
    && (forall j | 0 <= j < |r.kids| ::
          InstallAll(r.kids[j], Sub(r.kind, r.labels, |r.kids|, specs, j), addrs[j]) == Done(after.kids[j]))
    && (forall i, j | |r.labels| <= i < j < |after.labels| :: after.labels[i] != after.labels[j])
    && (forall j | |r.labels| <= j < |after.labels| ::
          after.labels[j] !in r.labels && after.labels[j] in want && after.kids[j] == Boxed(want[after.labels[j]]))
    && (forall e | e in specs && |e.path| == 1 && e.path[0].Str? :: e.path[0].s in after.labels)
  }

  /** The part of the list that goes to the key just added repeats its caller. */
  lemma AddedSub(r: Recv, specs: seq<Spec>, addr: bool, addrs: seq<bool>, want: map<string, nat>, s: string)
    requires TakesKeys(r) && |r.labels| == |r.kids| == |addrs| && s in want && s !in r.labels
    requires forall e | e in specs :: Grows(r, e, addr, addrs, want)
    ensures InstallAll(Boxed(want[s]), Sub(r.kind, r.labels + [s], |r.kids| + 1, specs, |r.kids|), true) == Done(Boxed(want[s]))
  {
    var sub := Sub(r.kind, r.labels + [s], |r.kids| + 1, specs, |r.kids|);
    forall e | e in sub ensures e == Spec([], want[s]) {
      var o := SubOrigin(r.kind, r.labels + [s], |r.kids| + 1, specs, |r.kids|, e);
      TargetMore(r, s, want[s], o.path[0]);
      assert Grows(r, o, addr, addrs, want);
    }
    StaysBoxed(want[s], sub);
  }

  lemma GrowsMore(r: Recv, e: Spec, addr: bool, addrs: seq<bool>, want: map<string, nat>, s: string)
    requires TakesKeys(r) && r.kind.made && |r.labels| == |r.kids| == |addrs| && s in want && s !in r.labels
    requires Grows(r, e, addr, addrs, want)
    ensures Grows(WithKey(r, s, want[s]), e, addr, addrs + [true], want - {s})
  {
    TargetMore(r, s, want[s], e.path[0]);
  }

  lemma GrowKey(r: Recv, specs: seq<Spec>, addrs: seq<bool>, want: map<string, nat>, after: Recv)
    requires TakesKeys(r) && |r.labels| == |r.kids| == |addrs| && specs != []
    requires |specs[0].path| == 1 && specs[0].path[0].Str?
    requires var s := specs[0].path[0].s;
             && s in want && s !in r.labels
             && GrownBy(WithKey(r, s, want[s]), after, specs[1..], addrs + [true], want - {s})
             && InstallAll(Boxed(want[s]), Sub(r.kind, r.labels + [s], |r.kids| + 1, specs[1..], |r.kids|), true) == Done(Boxed(want[s]))
    ensures GrownBy(r, after, specs, addrs, want)
  {
    var s := specs[0].path[0].s;
    var r1 := WithKey(r, s, want[s]);
    assert r.labels <= r1.labels <= after.labels && after.labels[|r.labels|] == r1.labels[|r.labels|] == s;
    assert after.kids[|r.kids|] == Boxed(want[s]);
    forall j | 0 <= j < |r.kids|
      ensures InstallAll(r.kids[j], Sub(r.kind, r.labels, |r.kids|, specs, j), addrs[j]) == Done(after.kids[j])
    {
      assert r1.kids[j] == r.kids[j];
      SubMore(r, s, want[s], specs[1..], j);
      SubElse(r, specs);
    }
    forall j | |r.labels| <= j < |after.labels|
      ensures after.labels[j] !in r.labels && after.labels[j] in want && after.kids[j] == Boxed(want[after.labels[j]])
    {
      if j > |r.labels| { assert after.labels[j] !in r1.labels; }
    }
    forall i, j | |r.labels| <= i < j < |after.labels| ensures after.labels[i] != after.labels[j] {
      if i == |r.labels| { assert after.labels[j] !in r1.labels && s in r1.labels; }
    }
    forall e | e in specs && |e.path| == 1 && e.path[0].Str? ensures e.path[0].s in after.labels {
      if e != specs[0] { assert e in specs[1..]; }
    }
  }

  lemma GrowKid(r: Recv, specs: seq<Spec>, addrs: seq<bool>, want: map<string, nat>, after: Recv, i: nat, x: Recv)
    requires TakesKeys(r) && |r.labels| == |r.kids| == |addrs| && i < |r.kids|
    requires specs != [] && specs[0].path != [] && TargetOf(r, specs[0].path[0]) == Some(i)
    requires GrownBy(WithKid(r, i, x), after, specs[1..], addrs, want)
    requires forall j | 0 <= j < |r.kids| ::
               InstallAll(r.kids[j], Sub(r.kind, r.labels, |r.kids|, specs, j), addrs[j]) ==
               InstallAll(WithKid(r, i, x).kids[j], Sub(r.kind, r.labels, |r.kids|, specs[1..], j), addrs[j])
    ensures GrownBy(r, after, specs, addrs, want)
  {
    assert r.labels[i] == specs[0].path[0].s && after.labels[i] == r.labels[i];
    forall e | e in specs && |e.path| == 1 && e.path[0].Str? ensures e.path[0].s in after.labels {
      if e != specs[0] { assert e in specs[1..]; }
    }
  }

  lemma GrowPast(r: Recv, specs: seq<Spec>, addrs: seq<bool>, want: map<string, nat>, after: Recv)
    requires TakesKeys(r) && |r.labels| == |r.kids| == |addrs|
    requires specs != [] && |specs[0].path| > 1 && TargetOf(r, specs[0].path[0]).None?
    requires GrownBy(r, after, specs[1..], addrs, want)
    ensures GrownBy(r, after, specs, addrs, want)
  {
    SubElse(r, specs);
    forall e | e in specs && |e.path| == 1 && e.path[0].Str? ensures e.path[0].s in after.labels {
      assert e in specs[1..];
    }
  }

  /** Installing a list on a map that takes keys is installing each child's part of the
      list and adding the keys that are missing. */
  lemma {:induction false} GrowAll(r: Recv, specs: seq<Spec>, addr: bool, addrs: seq<bool>, want: map<string, nat>)
    requires TakesKeys(r) && |r.labels| == |r.kids| == |addrs| && forall s | s in want :: s !in r.labels
    requires forall e | e in specs :: Grows(r, e, addr, addrs, want) && (|e.path| == 1 ==> r.kind.made)
    requires forall j | 0 <= j < |r.kids| ::
               InstallAll(r.kids[j], Sub(r.kind, r.labels, |r.kids|, specs, j), addrs[j]).Done?
    ensures exists after :: InstallAll(r, specs, addr) == Done(after) && GrownBy(r, after, specs, addrs, want)
    decreases |specs|
  {
    if specs == [] {
      assert GrownBy(r, r, specs, addrs, want);
    } else {
      var e := specs[0];
      HeadIn(specs);
      assert Grows(r, e, addr, addrs, want);
      var c := TargetOf(r, e.path[0]);
      if c.Some? {
        RouteOne(r, e.path, e.id, addr);
        var x := RouteFirst(r, specs, c.value, addrs);
        var r' := WithKid(r, c.value, x);
        if IsIface(r.kids[c.value]) { InstallKeepsIface(r.kids[c.value], e.path[1..], e.id, addrs[c.value]); }
        GrowAll(r', specs[1..], addr, addrs, want);
        GrowKid(r, specs, addrs, want, InstallAll(r', specs[1..], addr).value, c.value, x);
      } else if |e.path| > 1 {
        RouteOne(r, e.path, e.id, addr);
        SubElse(r, specs);
        GrowAll(r, specs[1..], addr, addrs, want);
        GrowPast(r, specs, addrs, want, InstallAll(r, specs[1..], addr).value);
      } else {
        GrowNew(r, specs, addr, addrs, want);
      }
    }
  }

  lemma {:induction false} GrowNew(r: Recv, specs: seq<Spec>, addr: bool, addrs: seq<bool>, want: map<string, nat>)
    requires TakesKeys(r) && |r.labels| == |r.kids| == |addrs| && forall s | s in want :: s !in r.labels
    requires forall e | e in specs :: Grows(r, e, addr, addrs, want) && (|e.path| == 1 ==> r.kind.made)
    requires forall j | 0 <= j < |r.kids| ::
               InstallAll(r.kids[j], Sub(r.kind, r.labels, |r.kids|, specs, j), addrs[j]).Done?
    requires specs != [] && |specs[0].path| == 1 && TargetOf(r, specs[0].path[0]).None?
    ensures exists after :: InstallAll(r, specs, addr) == Done(after) && GrownBy(r, after, specs, addrs, want)
    decreases |specs|, 0
  {
    HeadIn(specs);
    assert Grows(r, specs[0], addr, addrs, want);
    var s := specs[0].path[0].s;
    var r1 := WithKey(r, s, want[s]);
    assert Install(r, specs[0].path, specs[0].id, addr) == Done(r1);
    forall e | e in specs[1..] ensures Grows(r1, e, addr, addrs + [true], want - {s}) && (|e.path| == 1 ==> r1.kind.made) {
      GrowsMore(r, e, addr, addrs, want, s);
    }
    AddedSub(r, specs[1..], addr, addrs, want, s);
    forall j | 0 <= j < |r1.kids|
      ensures InstallAll(r1.kids[j], Sub(r1.kind, r1.labels, |r1.kids|, specs[1..], j), (addrs + [true])[j]).Done?
    {
      if j < |r.kids| {
        SubMore(r, s, want[s], specs[1..], j);
        SubElse(r, specs);
      }
    }
    GrowAll(r1, specs[1..], addr, addrs + [true], want - {s});
    GrowKey(r, specs, addrs, want, InstallAll(r1, specs[1..], addr).value);
  }

  /** Pointers and interfaces are seen through. */
  lemma {:induction false} PeelAll(t: Tree, r: Recv, specs: seq<Spec>, addr: bool)
    requires SeenThrough(t, r) && |r.kids| <= 1
    requires r.kind.KIface? ==> forall e | e in specs :: e.path != []
    ensures InstallAll(r, specs, addr) ==
            if r.kids == [] then Done(r) else Lift(r, 0, InstallAll(r.kids[0], specs, r.kind.KPtr?))
    decreases |specs|
  {
    if specs == [] {
      assert r.kids != [] ==> WithKid(r, 0, r.kids[0]) == r;
    } else {
      var e := specs[0];
      assert e.path[0..] == e.path;
      var o := Install(r, e.path, e.id, addr);
      if o.Done? {
        PeelAll(t, o.value, specs[1..], addr);
        if r.kids != [] {
          var rest := InstallAll(o.value.kids[0], specs[1..], r.kind.KPtr?);
          assert rest.Done? ==> o.value.kids[0 := rest.value] == r.kids[0 := rest.value];
        }
      }
    }
  }

  /** At the end of a path the last caller installed stays. */
  lemma {:induction false} LastWins(r: Recv, specs: seq<Spec>)
    requires r.Fn? || IsIface(r)
    requires specs != [] && forall e | e in specs :: e.path == []
    ensures var id := specs[|specs| - 1].id;
            InstallAll(r, specs, true) == Done(if r.Fn? then Fn(Some(id)) else Boxed(id))
    decreases |specs|
  {
    var e := specs[0];
    var o := Install(r, e.path, e.id, true);
    if |specs| > 1 {
      LastWins(o.value, specs[1..]);
      assert specs[1..][|specs| - 2] == specs[|specs| - 1];
    } else {
      assert specs[1..] == [];
    }
  }

  // ------------------------------------------------------- filling the tree

  lemma HeadIn<T>(s: seq<T>)
    requires s != []
    ensures s[0] in s
  {}

  /** A callback of the list that child j gets came from one whose path starts with
      an element that selects j. */
  lemma SubCovered(t: Tree, r: Recv, specs: seq<Spec>, ids: map<WirePath, nat>, at: WirePath, j: nat, s: Spec) returns (h: Wire)
    requires r.Node? && Covers(t, specs, ids, at) && s in Sub(r.kind, r.labels, |r.kids|, specs, j)
    ensures TargetOf(r, h) == Some(j) && WireAt(t, [h] + s.path).Some?
    ensures at + [h] + s.path in ids && s.id == ids[at + [h] + s.path]
  {
    var e := SubOrigin(r.kind, r.labels, |r.kids|, specs, j, s);
    h := e.path[0];
    assert [h] + s.path == e.path && at + [h] + s.path == at + e.path;
  }

  /** And a path of t that starts so is in that list. */
  lemma SubReaches(t: Tree, r: Recv, specs: seq<Spec>, ids: map<WirePath, nat>, at: WirePath, j: nat, h: Wire, p: WirePath)
    requires r.Node? && Covers(t, specs, ids, at) && TargetOf(r, h) == Some(j) && WireAt(t, [h] + p).Some?
    ensures exists s | s in Sub(r.kind, r.labels, |r.kids|, specs, j) :: s.path == p
  {
    var e :| e in specs && e.path == [h] + p;
    SubHas(r.kind, r.labels, |r.kids|, specs, j, e);
    assert Spec(e.path[1..], e.id).path == p;
  }

  lemma CoversItem(ks: seq<Tree>, r: Recv, specs: seq<Spec>, ids: map<WirePath, nat>, at: WirePath, i: nat)
    requires r.Node? && r.kind.KSlice? && |ks| <= |r.kids| && Covers(Items(ks), specs, ids, at)
    requires i < |r.kids|
    ensures var sub := Sub(r.kind, r.labels, |r.kids|, specs, i);
            if i < |ks| then Covers(ks[i], sub, ids, at + [Num(i as real)]) else sub == []
  {
    var sub := Sub(r.kind, r.labels, |r.kids|, specs, i);
    forall s | s in sub
      ensures i < |ks| && WireAt(ks[i], s.path).Some?
      ensures at + [Num(i as real)] + s.path in ids && s.id == ids[at + [Num(i as real)] + s.path]
    {
      var h := SubCovered(Items(ks), r, specs, ids, at, i, s);
      assert ([h] + s.path)[1..] == s.path;
    }
    if i < |ks| {
      forall p: WirePath | WireAt(ks[i], p).Some?
        ensures exists s | s in sub :: s.path == p
      {
        assert ([Num(i as real)] + p)[1..] == p;
        SubReaches(Items(ks), r, specs, ids, at, i, Num(i as real), p);
      }
    } else if sub != [] {
      HeadIn(sub);
      assert false;
    }
  }

  lemma {:induction false} FindMemberAt(ms: seq<Member>, k: nat)
    requires k < |ms| && DistinctNames(ms)
    ensures FindMember(ms, ms[k].name) == Some(k)
  {
    var j := FindMember(ms, ms[k].name).value;
  }

  /** The names are distinct for the receiver. */
  predicate Apart(ms: seq<Member>, r: Recv)
    requires r.Node?
  {
    (r.kind.KStruct? && DistinctFields(ms)) || (r.kind.KMap? && DistinctNames(ms))
  }

  /** Distinct names select distinct children. */
  lemma TargetInjective(ms: seq<Member>, r: Recv, a: nat, b: nat)
    requires r.Node? && Apart(ms, r) && a < |ms| && b < |ms|
    requires TargetOf(r, Str(ms[a].name)).Some? && TargetOf(r, Str(ms[a].name)) == TargetOf(r, Str(ms[b].name))
    ensures a == b
  {}

  lemma CoversMember(ms: seq<Member>, r: Recv, specs: seq<Spec>, ids: map<WirePath, nat>, at: WirePath, k: nat)
    requires r.Node? && DistinctNames(ms) && Apart(ms, r)
    requires Covers(Named(ms), specs, ids, at)
    requires k < |ms| && TargetOf(r, Str(ms[k].name)).Some?
    ensures Covers(ms[k].tree, Sub(r.kind, r.labels, |r.kids|, specs, TargetOf(r, Str(ms[k].name)).value), ids, at + [Str(ms[k].name)])
  {
    var j := TargetOf(r, Str(ms[k].name)).value;
    var sub := Sub(r.kind, r.labels, |r.kids|, specs, j);
    forall s | s in sub
      ensures WireAt(ms[k].tree, s.path).Some?
      ensures at + [Str(ms[k].name)] + s.path in ids && s.id == ids[at + [Str(ms[k].name)] + s.path]
    {
      var h := SubCovered(Named(ms), r, specs, ids, at, j, s);
      assert ([h] + s.path)[1..] == s.path;
      TargetInjective(ms, r, FindMember(ms, h.s).value, k);
    }
    forall p: WirePath | WireAt(ms[k].tree, p).Some?
      ensures exists s | s in sub :: s.path == p
    {
      assert ([Str(ms[k].name)] + p)[1..] == p;
      FindMemberAt(ms, k);
      SubReaches(Named(ms), r, specs, ids, at, j, Str(ms[k].name), p);
    }
  }

  lemma NoMemberNoSpecs(ms: seq<Member>, r: Recv, specs: seq<Spec>, ids: map<WirePath, nat>, at: WirePath, j: nat)
    requires r.Node? && Covers(Named(ms), specs, ids, at)
    requires forall k | 0 <= k < |ms| :: TargetOf(r, Str(ms[k].name)) != Some(j)
    ensures Sub(r.kind, r.labels, |r.kids|, specs, j) == []
  {
    var sub := Sub(r.kind, r.labels, |r.kids|, specs, j);
    if sub != [] {
      var e := SubOrigin(r.kind, r.labels, |r.kids|, specs, j, sub[0]);
      assert false;
    }
  }

  /** Whether the walk may write at child j itself. */
  ghost predicate MemberAddr(ms: seq<Member>, r: Recv, j: nat)
    requires r.Node?
  {
    || r.kind.KStruct?
    || (r.kind.KMap? && r.kind.ofInterface
        && exists k | 0 <= k < |ms| :: TargetOf(r, Str(ms[k].name)) == Some(j) && ms[k].tree.Call?)
  }

  /** Whatever the order of the pending callbacks, installing them all succeeds
      and fills the receiver with exactly the callers that belong there. */
  lemma {:induction false} FillAll(t: Tree, r: Recv, specs: seq<Spec>, addr: bool, ids: map<WirePath, nat>, at: WirePath)
    requires Fits(t, r, addr) && Covers(t, specs, ids, at)
    ensures FilledBy(InstallAll(r, specs, addr), t, r, ids, at)
    decreases t, r
  {
    if t.Quiet? {
      if specs != [] {
        HeadIn(specs);
        assert false;
      }
    } else if SeenThrough(t, r) {
      PeelAll(t, r, specs, addr);
      if r.kids != [] {
        FillAll(t, r.kids[0], specs, r.kind.KPtr?, ids, at);
      }
    } else {
      match t
      case Call(cb) =>
        assert WireAt(t, []).Some?;
        LastWins(r, specs);
        var e := specs[|specs| - 1];
        assert e in specs && at + e.path == at;
      case Items(ks) => FillItems(ks, r, specs, addr, ids, at);
      case Named(ms) => FillNamed(ms, r, specs, addr, ids, at);
    }
  }

  lemma {:induction false} FillItems(ks: seq<Tree>, r: Recv, specs: seq<Spec>, addr: bool, ids: map<WirePath, nat>, at: WirePath)
    requires Fits(Items(ks), r, addr) && !SeenThrough(Items(ks), r) && Covers(Items(ks), specs, ids, at)
    ensures FilledBy(InstallAll(r, specs, addr), Items(ks), r, ids, at)
    decreases ks, r, 0
  {
    var n := |r.kids|;
    forall j | 0 <= j < n
      ensures InstallAll(r.kids[j], Sub(r.kind, r.labels, n, specs, j), true).Done?
      ensures if j < |ks| then Filled(ks[j], r.kids[j], InstallAll(r.kids[j], Sub(r.kind, r.labels, n, specs, j), true).value, ids, at + [Num(j as real)])
              else InstallAll(r.kids[j], Sub(r.kind, r.labels, n, specs, j), true) == Done(r.kids[j])
    {
      CoversItem(ks, r, specs, ids, at, j);
      if j < |ks| {
        FillAll(ks[j], r.kids[j], Sub(r.kind, r.labels, n, specs, j), true, ids, at + [Num(j as real)]);
      }
    }
    RouteAll(r, specs, addr, seq(n, _ => true));
    assert Filled(Items(ks), r, InstallAll(r, specs, addr).value, ids, at);
  }

  lemma {:induction false} FillNamed(ms: seq<Member>, r: Recv, specs: seq<Spec>, addr: bool, ids: map<WirePath, nat>, at: WirePath)
    requires Fits(Named(ms), r, addr) && !SeenThrough(Named(ms), r) && Covers(Named(ms), specs, ids, at)
    ensures FilledBy(InstallAll(r, specs, addr), Named(ms), r, ids, at)
    decreases ms, r, 1
  {
    var n := |r.kids|;
    var addrs := seq(n, j requires 0 <= j => MemberAddr(ms, r, j));
    forall k | 0 <= k < |ms| && TargetOf(r, Str(ms[k].name)).Some?
      ensures var j := TargetOf(r, Str(ms[k].name)).value;
              var o := InstallAll(r.kids[j], Sub(r.kind, r.labels, n, specs, j), addrs[j]);
              o.Done? && Filled(ms[k].tree, r.kids[j], o.value, ids, at + [Str(ms[k].name)])
    {
      FillMember(ms, r, specs, addr, ids, at, k);
    }
    forall j | 0 <= j < n
      ensures InstallAll(r.kids[j], Sub(r.kind, r.labels, n, specs, j), addrs[j]).Done?
      ensures (forall k | 0 <= k < |ms| :: TargetOf(r, Str(ms[k].name)) != Some(j)) ==>
                InstallAll(r.kids[j], Sub(r.kind, r.labels, n, specs, j), addrs[j]) == Done(r.kids[j])
    {
      if k :| 0 <= k < |ms| && TargetOf(r, Str(ms[k].name)) == Some(j) {
      } else {
        NoMemberNoSpecs(ms, r, specs, ids, at, j);
      }
    }
    if TakesKeys(r) {
      FillGrown(ms, r, specs, addr, addrs, ids, at);
    } else {
      forall e | e in specs
        ensures Routes(r, e.path, addr)
        ensures var c := TargetOf(r, e.path[0]); c.Some? ==> addrs[c.value] == KidAddr(r.kind, addr, |e.path| == 1)
      {
        RouteMember(ms, r, e.path, addr);
      }
      RouteAll(r, specs, addr, addrs);
    }
    assert Filled(Named(ms), r, InstallAll(r, specs, addr).value, ids, at);
  }

  /** The callers of the keys that r lacks. */
  ghost function Wanted(ms: seq<Member>, r: Recv, ids: map<WirePath, nat>, at: WirePath): (want: map<string, nat>)
    requires r.Node? && forall k | 0 <= k < |ms| && ms[k].tree.Call? :: at + [Str(ms[k].name)] in ids
    ensures forall s :: s in want <==> s !in r.labels && exists k | 0 <= k < |ms| :: ms[k].name == s && ms[k].tree.Call?
    ensures forall s | s in want :: at + [Str(s)] in ids && want[s] == ids[at + [Str(s)]]
  {
    if ms == [] then map[]
    else
      var n := |ms| - 1;
      var rest := Wanted(ms[..n], r, ids, at);
      assert forall k | 0 <= k < n :: ms[..n][k] == ms[k];
      if ms[n].tree.Call? && ms[n].name !in r.labels then rest[ms[n].name := ids[at + [Str(ms[n].name)]]] else rest
  }

  lemma CallAssigned(ms: seq<Member>, specs: seq<Spec>, ids: map<WirePath, nat>, at: WirePath, k: nat) returns (e: Spec)
    requires Covers(Named(ms), specs, ids, at) && DistinctNames(ms) && k < |ms| && ms[k].tree.Call?
    ensures e in specs && e.path == [Str(ms[k].name)] && at + [Str(ms[k].name)] in ids
  {
    FindMemberAt(ms, k);
    var p := [Str(ms[k].name)];
    assert p[1..] == [];
    assert WireAt(Named(ms), p).Some?;
    e :| e in specs && e.path == p;
  }

  /** Every path to a member of a map that takes keys goes to its entry or adds it. */
  lemma MemberGrows(ms: seq<Member>, r: Recv, e: Spec, addr: bool, ids: map<WirePath, nat>, at: WirePath, addrs: seq<bool>, want: map<string, nat>)
    requires Fits(Named(ms), r, addr) && TakesKeys(r) && WireAt(Named(ms), e.path).Some?
    requires at + e.path in ids && e.id == ids[at + e.path]
    requires |addrs| == |r.kids| && forall j | 0 <= j < |addrs| :: addrs[j] == MemberAddr(ms, r, j)
    requires forall s :: s in want <==> s !in r.labels && exists k | 0 <= k < |ms| :: ms[k].name == s && ms[k].tree.Call?
    requires forall s | s in want :: at + [Str(s)] in ids && want[s] == ids[at + [Str(s)]]
    ensures Grows(r, e, addr, addrs, want) && (|e.path| == 1 ==> r.kind.made)
  {
    var k := FindMember(ms, e.path[0].s).value;
    assert ms[k].tree.Call? <==> |e.path| == 1;
    if TargetOf(r, e.path[0]).Some? {
      RouteMember(ms, r, e.path, addr);
    } else {
      assert e.path[0].s !in r.labels;
      if |e.path| == 1 { assert e.path == [Str(e.path[0].s)]; }
      forall i | 0 <= i < |ms| && ms[i].name == e.path[0].s ensures i == k {}
    }
  }

  lemma FillGrown(ms: seq<Member>, r: Recv, specs: seq<Spec>, addr: bool, addrs: seq<bool>, ids: map<WirePath, nat>, at: WirePath)
    requires Fits(Named(ms), r, addr) && TakesKeys(r) && Covers(Named(ms), specs, ids, at)
    requires |addrs| == |r.kids| && forall j | 0 <= j < |addrs| :: addrs[j] == MemberAddr(ms, r, j)
    requires forall j | 0 <= j < |r.kids| ::
               InstallAll(r.kids[j], Sub(r.kind, r.labels, |r.kids|, specs, j), addrs[j]).Done?
    ensures var o := InstallAll(r, specs, addr);
            && o.Done? && Grown(ms, r, o.value, ids, at)
            && forall j | 0 <= j < |r.kids| ::
                 InstallAll(r.kids[j], Sub(r.kind, r.labels, |r.kids|, specs, j), addrs[j]) == Done(o.value.kids[j])
  {
    forall k | 0 <= k < |ms| && ms[k].tree.Call? ensures at + [Str(ms[k].name)] in ids {
      var e := CallAssigned(ms, specs, ids, at, k);
    }
    var want := Wanted(ms, r, ids, at);
    forall e | e in specs ensures Grows(r, e, addr, addrs, want) && (|e.path| == 1 ==> r.kind.made) {
      MemberGrows(ms, r, e, addr, ids, at, addrs, want);
    }
    GrowAll(r, specs, addr, addrs, want);
    var after := InstallAll(r, specs, addr).value;
    forall k | 0 <= k < |ms| && ms[k].tree.Call? && ms[k].name !in r.labels ensures ms[k].name in after.labels {
      var e := CallAssigned(ms, specs, ids, at, k);
    }
  }

  lemma {:induction false} FillMember(ms: seq<Member>, r: Recv, specs: seq<Spec>, addr: bool, ids: map<WirePath, nat>, at: WirePath, k: nat)
    requires Fits(Named(ms), r, addr) && !SeenThrough(Named(ms), r) && Covers(Named(ms), specs, ids, at)
    requires k < |ms| && TargetOf(r, Str(ms[k].name)).Some?
    ensures var j := TargetOf(r, Str(ms[k].name)).value;
            FilledBy(InstallAll(r.kids[j], Sub(r.kind, r.labels, |r.kids|, specs, j), MemberAddr(ms, r, j)),
                     ms[k].tree, r.kids[j], ids, at + [Str(ms[k].name)])
    decreases ms, r, 0
  {
    var j := TargetOf(r, Str(ms[k].name)).value;
    CoversMember(ms, r, specs, ids, at, k);
    forall i | 0 <= i < |ms| && TargetOf(r, Str(ms[i].name)) == Some(j) ensures i == k {
      TargetInjective(ms, r, i, k);
    }
    assert ms[k] in ms;
    FillAll(ms[k].tree, r.kids[j], Sub(r.kind, r.labels, |r.kids|, specs, j), MemberAddr(ms, r, j), ids, at + [Str(ms[k].name)]);
  }

  lemma RouteMember(ms: seq<Member>, r: Recv, p: WirePath, addr: bool)
    requires Fits(Named(ms), r, addr) && !SeenThrough(Named(ms), r) && WireAt(Named(ms), p).Some?
    requires p != [] && (TakesKeys(r) ==> TargetOf(r, p[0]).Some?)
    ensures Routes(r, p, addr)
    ensures var c := TargetOf(r, p[0]); c.Some? ==> MemberAddr(ms, r, c.value) == KidAddr(r.kind, addr, |p| == 1)
  {
    var k := FindMember(ms, p[0].s).value;
    var c := TargetOf(r, p[0]);
    if c.Some? {
      forall i | 0 <= i < |ms| && TargetOf(r, Str(ms[i].name)) == c ensures i == k {
        TargetInjective(ms, r, i, k);
      }
    }
  }
}
