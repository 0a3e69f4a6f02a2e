/** Receiving side of dnode: walking a callback path through a decoded value and
    installing a remote caller at its end (dnode/unscrub.go, dnode/callback.go). */
module DnodeReceiver {
  import opened Wrappers
  import opened Text

  /** A path element after JSON decoding. */
  datatype Wire = Str(s: string) | Num(x: real) | Other

  type WirePath = seq<Wire>

  /** One pending callback: where it goes and which remote ID it calls. */
  datatype Spec = Spec(path: WirePath, id: nat)

  datatype Kind =
    | KSlice
    | KMap(ofInterface: bool, made: bool)
    | KPtr
    | KIface
    | KStruct

  /** A decoded Go value. A nil pointer or interface has no children, any other
      has one; the children of a map or struct are labelled with its keys or
      with its (promoted) field names. Installed stands for a caller stored in an
      interface, Partial for a value whose decoding is postponed: `inner` is what
      its raw bytes will decode to. */
  datatype Recv =
    | Leaf
    | GoFn
    | Installed(id: nat)
    | Fn(caller: Option<nat>)
    | Partial(inner: Recv, specs: seq<Spec>)
    | Node(kind: Kind, labels: seq<string>, kids: seq<Recv>)

  datatype Outcome = Done(value: Recv) | Failed | Panicked

  function Find(labels: seq<string>, s: string): (r: Option<nat>)
    ensures r.Some? ==> r.value < |labels| && labels[r.value] == s
    ensures r.None? ==> s !in labels
  {
    if labels == [] then None
    else if labels[0] == s then Some(0)
    else match Find(labels[1..], s)
      case None => None
      case Some(j) => Some(j + 1)
  }

  function ChildOf(r: Recv, s: string): (c: Option<nat>)
    requires r.Node?
    ensures c.Some? ==> c.value < |r.kids|
  {
    match Find(r.labels, s)
    case Some(j) => if j < |r.kids| then Some(j) else None
    case None => None
  }

  function Truncate(x: real): int { if x >= 0.0 then x.Floor else -((-x).Floor) }

  /** The interface value that holds the caller for id. */
  function Boxed(id: nat): Recv { Node(KIface, [], [Installed(id)]) }

  function WithKid(r: Recv, j: nat, x: Recv): Recv
    requires r.Node? && j < |r.kids|
  {
    r.(kids := r.kids[j := x])
  }

  function SetKey(r: Recv, s: string, x: Recv): Recv
    requires r.Node?
  {
    match ChildOf(r, s)
    case Some(j) => WithKid(r, j, x)
    case None => r.(labels := r.labels + [s], kids := r.kids + [x])
  }

  /** One turn of the loop in setCallback at value r with rest p of the path:
      overwrite r, leave it, stop with an error, panic, or go to a child after
      consuming some path elements. `addr` says whether r is addressable. */
  datatype Move =
    | Write(value: Recv)
    | Leave
    | Fail
    | Crash
    | Go(child: nat, consumed: nat, addr: bool)

  function Turn(r: Recv, p: WirePath, id: nat, addr: bool): (m: Move)
    ensures m.Go? ==> r.Node? && m.child < |r.kids| && m.consumed <= |p|
  {
    match r
    case Leaf => Fail
    case GoFn => Leave
    case Installed(_) => Leave
    case Fn(_) => if addr then Write(Fn(Some(id))) else Crash
    case Partial(inner, specs) => if addr then Write(Partial(inner, specs + [Spec(p, id)])) else Crash
    case Node(kind, _, kids) =>
      match kind
      case KSlice =>
        if p == [] then Fail
        else if p[0].Other? then Crash
        else
          var index := if p[0].Str? then Atoi(p[0].s) else Some(Truncate(p[0].x));
          if index == None then Fail
          else if 0 <= index.value < |kids| then Go(index.value, 1, true)
          else Crash
      case KMap(ofInterface, made) =>
        if p == [] then Fail
        else if !p[0].Str? then Crash
        else if |p| == 1 && ofInterface then (if made then Write(SetKey(r, p[0].s, Boxed(id))) else Crash)
        else (match ChildOf(r, p[0].s)
              case None => Leave
              case Some(j) => Go(j, 1, false))
      case KPtr => if kids == [] then Leave else Go(0, 0, true)
      case KIface =>
        if p == [] then (if addr then Write(Boxed(id)) else Crash)
        else if kids == [] then Leave
        else Go(0, 0, false)
      case KStruct =>
        if !addr || p == [] then Crash
        else if !p[0].Str? then Fail
        else if p[0].s == "" then Crash
        else (match ChildOf(r, UpperFirst(p[0].s))
              case None => Leave
              case Some(j) => Go(j, 1, addr))
  }

  /** The effect of a whole setCallback, by recursion on the receiver. */
  function Install(r: Recv, p: WirePath, id: nat, addr: bool): Outcome
    decreases r
  {
    match Turn(r, p, id, addr)
    case Write(x) => Done(x)
    case Leave => Done(r)
    case Fail => Failed
    case Crash => Panicked
    case Go(j, n, a) => Lift(r, j, Install(r.kids[j], p[n..], id, a))
  }

  function Lift(r: Recv, j: nat, o: Outcome): Outcome
    requires r.Node? && j < |r.kids|
  {
    if o.Done? then Done(WithKid(r, j, o.value)) else o
  }

  /** An index into a slice may come as a number, fractions cut off towards zero, or as
      a decimal string; either goes to that child and no other. */
  lemma SliceIndex(r: Recv, i: nat, x: real, p: WirePath, id: nat, addr: bool)
    requires r.Node? && r.kind.KSlice? && i < |r.kids| && i < 0x8000_0000_0000_0000
    requires i as real <= x < i as real + 1.0 || (i == 0 && -1.0 < x < 0.0)
    ensures Install(r, [Num(x)] + p, id, addr) == Lift(r, i, Install(r.kids[i], p, id, true))
    ensures Install(r, [Str(Format(i))] + p, id, addr) == Lift(r, i, Install(r.kids[i], p, id, true))
  {
    assert ([Num(x)] + p)[1..] == p && ([Str(Format(i))] + p)[1..] == p;
    assert if x < 0.0 then (-x).Floor == 0 else x.Floor == i;
    AtoiFormat(i);
  }

  /** What is no index of the slice: a string that is no decimal number is an error, an
      index outside the slice panics. */
  lemma SliceRefuses(r: Recv, h: Wire, p: WirePath, id: nat, addr: bool)
    requires r.Node? && r.kind.KSlice?
    ensures h.Str? && !Decimal(h.s) ==> Install(r, [h] + p, id, addr) == Failed
    ensures h.Num? && (h.x <= -1.0 || h.x >= |r.kids| as real) ==> Install(r, [h] + p, id, addr) == Panicked
    ensures h.Other? ==> Install(r, [h] + p, id, addr) == Panicked
    ensures Install(r, [], id, addr) == Failed
  {
    if h.Str? && !Decimal(h.s) { NotDecimal(h.s); }
    if h.Num? && h.x <= -1.0 { assert (-h.x).Floor >= 1; }
    if h.Num? && h.x >= |r.kids| as real { assert h.x.Floor >= |r.kids|; }
  }

  lemma SliceOutside(r: Recv, i: nat, p: WirePath, id: nat, addr: bool)
    requires r.Node? && r.kind.KSlice? && |r.kids| <= i < 0x8000_0000_0000_0000
    ensures Install(r, [Str(Format(i))] + p, id, addr) == Panicked
  {
    AtoiFormat(i);
  }

  /** A struct field is found under its name, or its name with a lower-case first letter. */
  lemma StructField(r: Recv, j: nat, c: char, rest: string, s: string, p: WirePath, id: nat)
    requires r.Node? && r.kind.KStruct? && j < |r.kids| && j < |r.labels| && 'A' <= c <= 'Z' && r.labels[j] == [c] + rest
    requires forall i | 0 <= i < j :: r.labels[i] != r.labels[j]
    requires s == [c] + rest || s == [('a' as int + (c as int - 'A' as int)) as char] + rest
    ensures Install(r, [Str(s)] + p, id, true) == Lift(r, j, Install(r.kids[j], p, id, true))
  {
    assert s[1..] == rest && UpperFirst(s) == [c] + rest;
    FindFirst(r.labels, j);
    assert ([Str(s)] + p)[1..] == p;
  }

  lemma {:induction false} FindFirst(labels: seq<string>, j: nat)
    requires j < |labels| && forall i | 0 <= i < j :: labels[i] != labels[j]
    ensures Find(labels, labels[j]) == Some(j)
  {
    if j > 0 {
      forall i | 0 <= i < j - 1 ensures labels[1..][i] != labels[1..][j - 1] { assert labels[i + 1] != labels[j]; }
      FindFirst(labels[1..], j - 1);
    }
  }

  /** Where there is nothing to set: values of other kinds are an error, plain functions
      and missing fields, keys and targets are left alone. */
  lemma NothingToSet(r: Recv, p: WirePath, id: nat, addr: bool)
    ensures r.Leaf? ==> Install(r, p, id, addr) == Failed
    ensures r.GoFn? || r.Installed? ==> Install(r, p, id, addr) == Done(r)
    ensures r.Node? && r.kind.KPtr? && r.kids == [] ==> Install(r, p, id, addr) == Done(r)
    ensures r.Node? && r.kind.KIface? && r.kids == [] && p != [] ==> Install(r, p, id, addr) == Done(r)
    ensures r.Node? && r.kind.KStruct? && addr && p != [] && p[0].Str? && p[0].s != "" && UpperFirst(p[0].s) !in r.labels ==>
              Install(r, p, id, addr) == Done(r)
    ensures r.Node? && r.kind.KMap? && |p| > 1 && p[0].Str? && p[0].s !in r.labels ==> Install(r, p, id, addr) == Done(r)
  {}

  /** What cannot be written panics: a Function or Partial that is not addressable, an
      interface that is not, a map of interfaces that was not made, a key that is no
      string. A path that ends at a map is an error. */
  lemma CannotWrite(r: Recv, p: WirePath, id: nat)
    ensures r.Fn? || r.Partial? ==> Install(r, p, id, false) == Panicked
    ensures r.Node? && r.kind.KIface? ==> Install(r, [], id, false) == Panicked
    ensures r.Node? && r.kind.KMap? && r.kind.ofInterface && !r.kind.made && |p| == 1 ==> Install(r, p, id, true) == Panicked
    ensures r.Node? && r.kind.KMap? && p != [] && !p[0].Str? ==> Install(r, p, id, true) == Panicked
    ensures r.Node? && r.kind.KMap? ==> Install(r, [], id, true) == Failed
  {}

  /** A struct takes no callback at its own path, none at an index, and none under an
      empty name. */
  lemma StructRefuses(r: Recv, p: WirePath, id: nat, addr: bool)
    requires r.Node? && r.kind.KStruct? && (p == [] || !p[0].Str? || p[0].s == "")
    ensures Install(r, p, id, addr) == if addr && p != [] && !p[0].Str? then Failed else Panicked
  {}

  function InstallAll(r: Recv, specs: seq<Spec>, addr: bool): Outcome
    decreases |specs|
  {
    if specs == [] then Done(r)
    else match Install(r, specs[0].path, specs[0].id, addr)
      case Done(x) => InstallAll(x, specs[1..], addr)
      case o => o
  }

  lemma {:induction false} InstallAllConcat(r: Recv, a: seq<Spec>, b: seq<Spec>, addr: bool)
    ensures InstallAll(r, a + b, addr) ==
            match InstallAll(r, a, addr) case Done(x) => InstallAll(x, b, addr) case o => o
    decreases |a|
  {
    if a == [] {
      assert a + b == b;
    } else {
      assert (a + b)[1..] == a[1..] + b;
      match Install(r, a[0].path, a[0].id, addr) {
        case Done(x) => InstallAllConcat(x, a[1..], b, addr);
        case o =>
      }
    }
  }

  // ------------------------------------- places, and the loop over them

  /** A reflect.Value is a place inside the receiver: the child indexes that lead
      to it from the root. */
  type Place = seq<nat>

  predicate HasPlace(r: Recv, at: Place)
  {
    at == [] || (r.Node? && at[0] < |r.kids| && HasPlace(r.kids[at[0]], at[1..]))
  }

  function Get(r: Recv, at: Place): Recv
    requires HasPlace(r, at)
  {
    if at == [] then r else Get(r.kids[at[0]], at[1..])
  }

  function Put(r: Recv, at: Place, x: Recv): Recv
    requires HasPlace(r, at)
  {
    if at == [] then x else WithKid(r, at[0], Put(r.kids[at[0]], at[1..], x))
  }

  lemma {:induction false} PlaceStep(r: Recv, at: Place, j: nat)
    requires HasPlace(r, at) && Get(r, at).Node? && j < |Get(r, at).kids|
    ensures HasPlace(r, at + [j]) && Get(r, at + [j]) == Get(r, at).kids[j]
    ensures forall x :: Put(r, at + [j], x) == Put(r, at, WithKid(Get(r, at), j, x))
  {
    if at == [] {
      assert ([] + [j])[1..] == [];
    } else {
      PlaceStep(r.kids[at[0]], at[1..], j);
      assert (at + [j])[1..] == at[1..] + [j];
    }
  }

  lemma {:induction false} PutGet(r: Recv, at: Place)
    requires HasPlace(r, at)
    ensures Put(r, at, Get(r, at)) == r
  {
    if at != [] {
      PutGet(r.kids[at[0]], at[1..]);
    }
  }

  /** What the loop still has to do at the place decides the outcome. */
  ghost predicate OnTheWay(root: Recv, o: Outcome, at: Place, rest: WirePath, id: nat, addr: bool)
  {
    && HasPlace(root, at)
    && var here := Install(Get(root, at), rest, id, addr);
       o == if here.Done? then Done(Put(root, at, here.value)) else here
  }

  lemma Onward(root: Recv, o: Outcome, at: Place, path: WirePath, i: nat, id: nat, addr: bool, j: nat, n: nat, a: bool)
    requires i <= |path| && OnTheWay(root, o, at, path[i..], id, addr)
    requires Turn(Get(root, at), path[i..], id, addr) == Go(j, n, a)
    ensures i + n <= |path| && OnTheWay(root, o, at + [j], path[i + n..], id, a)
    ensures Get(root, at + [j]) == Get(root, at).kids[j]
  {
    PlaceStep(root, at, j);
    assert path[i..][n..] == path[i + n..];
  }

  lemma Arrived(root: Recv, o: Outcome, at: Place, rest: WirePath, id: nat, addr: bool)
    requires OnTheWay(root, o, at, rest, id, addr)
    ensures var m := Turn(Get(root, at), rest, id, addr);
            && (m.Write? ==> o == Done(Put(root, at, m.value)))
            && (m.Leave? ==> o == Done(root))
            && (m.Fail? ==> o == Failed)
            && (m.Crash? ==> o == Panicked)
  {
    PutGet(root, at);
  }

  class Receiver {
    var root: Recv

    constructor (r: Recv)
      ensures root == r
    {
      root := r;
    }

    /** setCallback: the loop moves a place and an index along, then writes once. */
    method SetCallback(path: WirePath, id: nat, addressable: bool) returns (o: Outcome)
      modifies this
      ensures o == Install(old(root), path, id, addressable)
      ensures root == if o.Done? then o.value else old(root)
    {
      var at, i, addr := [], 0, addressable;
      ghost var whole := Install(root, path, id, addressable);
      var here := root;
      while true
        invariant root == old(root) && i <= |path|
        invariant OnTheWay(root, whole, at, path[i..], id, addr) && here == Get(root, at)
        decreases here
      {
        Arrived(root, whole, at, path[i..], id, addr);
        match Turn(here, path[i..], id, addr)
        case Write(x) =>
          root := Put(root, at, x);
          return Done(root);
        case Leave => return Done(root);
        case Fail => return Failed;
        case Crash => return Panicked;
        case Go(j, n, a) =>
          Onward(root, whole, at, path, i, id, addr, j, n, a);
          at, i, addr, here := at + [j], i + n, a, here.kids[j];
      }
    }

    /** Installing a list of pending callbacks one after the other, as Unmarshal
        does for the specs of a Partial. */
    method SetAll(specs: seq<Spec>, addressable: bool) returns (o: Outcome)
      modifies this
      ensures o == InstallAll(old(root), specs, addressable)
      ensures o.Done? ==> root == o.value
    {
      for k := 0 to |specs|
        invariant InstallAll(old(root), specs, addressable) == InstallAll(root, specs[k..], addressable)
      {
        assert specs[k..][1..] == specs[k + 1..];
        o := SetCallback(specs[k].path, specs[k].id, addressable);
        if !o.Done? { return; }
      }
      o := Done(root);
    }
  }
}
