/** Postponed decoding: a Partial on the way keeps the rest of the path and a later
    Unmarshal installs it (dnode/partial.go, dnode/unscrub.go). Decoding in stages
    gives what one walk through the fully typed value gives. */
module DnodePartial {
  import opened Wrappers
  import opened Text
  import opened DnodeScrub
  import opened DnodeReceiver
  import opened DnodeRoundTrip
  import opened DnodeMessage

  /** How deeply Partials are nested in r. */
  ghost function Height(r: Recv): nat
    decreases r
  {
    match r
    case Partial(inner, _) => 1 + Height(inner)
    case Node(_, _, kids) => MaxHeight(kids)
    case _ => 0
  }

  ghost function MaxHeight(rs: seq<Recv>): (h: nat)
    ensures forall i | 0 <= i < |rs| :: Height(rs[i]) <= h
    decreases rs
  {
    if rs == [] then 0
    else
      var a, b := Height(rs[0]), MaxHeight(rs[1..]);
      assert forall i | 0 < i < |rs| :: rs[i] == rs[1..][i - 1];
      if a > b then a else b
  }

  lemma {:induction false} MaxHeightBound(rs: seq<Recv>, h: nat)
    requires forall i | 0 <= i < |rs| :: Height(rs[i]) <= h
    ensures MaxHeight(rs) <= h
  {
    if rs != [] {
      MaxHeightBound(rs[1..], h);
    }
  }

  /** Whether the children of r are addressable. */
  predicate KidsAddr(r: Recv, addr: bool)
    requires r.Node?
  {
    r.kind.KSlice? || r.kind.KPtr? || (r.kind.KStruct? && addr)
  }

  /** Partials stand in addressable places, and there are none inside interfaces
      (JSON decoding never puts one there). */
  ghost predicate Placed(r: Recv, addr: bool)
    decreases r
  {
    match r
    case Partial(inner, _) => addr && Placed(inner, true)
    case Node(kind, _, kids) =>
      && (kind.KIface? || (kind.KMap? && kind.ofInterface) ==> Height(r) == 0)
      && forall i | 0 <= i < |kids| :: Placed(kids[i], KidsAddr(r, addr))
    case _ => true
  }

  /** Installing a callback neither deepens the nesting nor moves a Partial. */
  lemma {:induction false} InstallPlaced(r: Recv, p: WirePath, id: nat, addr: bool)
    requires Placed(r, addr) && Install(r, p, id, addr).Done?
    ensures var x := Install(r, p, id, addr).value; Placed(x, addr) && Height(x) <= Height(r)
    decreases r
  {
    var x := Install(r, p, id, addr).value;
    match Turn(r, p, id, addr)
    case Go(j, n, a) =>
      InstallPlaced(r.kids[j], p[n..], id, a);
      MaxHeightBound(x.kids, Height(r));
    case Write(_) =>
      if r.Node? {
        assert MaxHeight([Installed(id)]) == 0;
        assert Placed(Boxed(id), true) && Placed(Boxed(id), false) && Height(Boxed(id)) == 0;
        if r.kind.KMap? { MaxHeightBound(x.kids, 0); }
      }
    case _ =>
  }

  lemma {:induction false} InstallAllPlaced(r: Recv, specs: seq<Spec>, addr: bool)
    requires Placed(r, addr)
    ensures forall x | InstallAll(r, specs, addr) == Done(x) :: Placed(x, addr) && Height(x) <= Height(r)
    decreases |specs|
  {
    if specs != [] && Install(r, specs[0].path, specs[0].id, addr).Done? {
      InstallPlaced(r, specs[0].path, specs[0].id, addr);
      InstallAllPlaced(Install(r, specs[0].path, specs[0].id, addr).value, specs[1..], addr);
    }
  }

  // ----------------------------------------------------- unmarshalling it all

  function AsOption(o: Outcome): Option<Recv> { if o.Done? then Some(o.value) else None }

  /** Unmarshal every Partial in r, each into its own type, and then the Partials
      that these contain; nothing if some step fails. */
  ghost function Settle(r: Recv, addr: bool): Option<Recv>
    requires Placed(r, addr)
    decreases Height(r), r
  {
    match r
    case Partial(inner, specs) =>
      var o := InstallAll(inner, specs, true);
      if o.Done? then InstallAllPlaced(inner, specs, true); Settle(o.value, true) else None
    case Node(kind, labels, kids) =>
      (match SettleKids(kids, KidsAddr(r, addr))
       case Some(ks) => Some(Node(kind, labels, ks))
       case None => None)
    case _ => Some(r)
  }

  ghost function SettleKids(rs: seq<Recv>, addr: bool): (s: Option<seq<Recv>>)
    requires forall i | 0 <= i < |rs| :: Placed(rs[i], addr)
    ensures s.Some? <==> forall i | 0 <= i < |rs| :: Settle(rs[i], addr).Some?
    ensures s.Some? ==> |s.value| == |rs| && forall i | 0 <= i < |rs| :: Settle(rs[i], addr) == Some(s.value[i])
    decreases MaxHeight(rs), rs
  {
    if rs == [] then Some([])
    else
      assert forall i | 0 < i < |rs| :: rs[i] == rs[1..][i - 1];
      match (Settle(rs[0], addr), SettleKids(rs[1..], addr))
      case (Some(x), Some(xs)) => Some([x] + xs)
      case _ => None
  }

  /** First install, then settle. */
  ghost function Later(r: Recv, p: WirePath, id: nat, addr: bool): Option<Recv>
    requires Placed(r, addr)
  {
    var o := Install(r, p, id, addr);
    if o.Done? then InstallPlaced(r, p, id, addr); Settle(o.value, addr) else None
  }

  /** First settle, then install. */
  ghost function Sooner(r: Recv, p: WirePath, id: nat, addr: bool): Option<Recv>
    requires Placed(r, addr)
  {
    match Settle(r, addr)
    case Some(x) => AsOption(Install(x, p, id, addr))
    case None => None
  }

  lemma {:induction false} PlainSettles(r: Recv, addr: bool)
    requires Placed(r, addr) && Height(r) == 0
    ensures Settle(r, addr) == Some(r)
    decreases r
  {
    if r.Node? {
      var a := KidsAddr(r, addr);
      forall i | 0 <= i < |r.kids| ensures Settle(r.kids[i], a) == Some(r.kids[i]) {
        PlainSettles(r.kids[i], a);
      }
      assert SettleKids(r.kids, a).value == r.kids;
    }
  }

  /** Postponing a callback does not change where it ends up. */
  lemma {:induction false} Commute(r: Recv, p: WirePath, id: nat, addr: bool)
    requires Placed(r, addr)
    ensures Later(r, p, id, addr) == Sooner(r, p, id, addr)
    decreases Height(r), r
  {
    match r
    case Partial(inner, specs) =>
      var e := Spec(p, id);
      InstallAllConcat(inner, specs, [e], true);
      var o := InstallAll(inner, specs, true);
      if o.Done? {
        InstallAllPlaced(inner, specs, true);
        assert [e][1..] == [];
        Commute(o.value, p, id, true);
      }
    case Node(kind, labels, kids) => CommuteNode(r, p, id, addr);
    case _ =>
  }

  /** all is r with its children replaced by ks, or nothing if one of these is. */
  ghost predicate Pointwise(r: Recv, ks: seq<Option<Recv>>, all: Option<Recv>)
    requires r.Node? && |ks| == |r.kids|
  {
    && (all.Some? <==> forall i | 0 <= i < |ks| :: ks[i].Some?)
    && (all.Some? ==> SameShape(r, all.value) && forall i | 0 <= i < |ks| :: ks[i] == Some(all.value.kids[i]))
  }

  ghost function SettledKids(r: Recv, addr: bool): (ks: seq<Option<Recv>>)
    requires r.Node? && Placed(r, addr)
    ensures |ks| == |r.kids| && forall i | 0 <= i < |ks| :: ks[i] == Settle(r.kids[i], KidsAddr(r, addr))
  {
    seq(|r.kids|, i requires 0 <= i < |r.kids| => Settle(r.kids[i], KidsAddr(r, addr)))
  }

  /** Children settle one by one. */
  lemma SettleNode(r: Recv, addr: bool)
    requires r.Node? && Placed(r, addr)
    ensures Pointwise(r, SettledKids(r, addr), Settle(r, addr))
  {
    assert Settle(r, addr) == match SettleKids(r.kids, KidsAddr(r, addr))
                              case Some(ks) => Some(Node(r.kind, r.labels, ks))
                              case None => None;
  }

  lemma PointwiseWith(r: Recv, ks: seq<Option<Recv>>, all: Option<Recv>, j: nat, x: Recv, one: Option<Recv>, after: Option<Recv>)
    requires r.Node? && |ks| == |r.kids| && j < |ks|
    requires Pointwise(r, ks, all) && Pointwise(WithKid(r, j, x), ks[j := one], after)
    ensures one.None? ==> after.None?
    ensures all.None? && ks[j].Some? ==> after.None?
    ensures all.Some? && one.Some? ==> after == Some(WithKid(all.value, j, one.value))
  {
    var ks' := ks[j := one];
    assert ks'[j] == one && forall i | 0 <= i < |ks| && i != j :: ks'[i] == ks[i];
    if all.Some? && one.Some? {
      assert after.value.kids == all.value.kids[j := one.value];
    }
  }

  lemma SettledWith(r: Recv, j: nat, x: Recv, addr: bool)
    requires r.Node? && j < |r.kids| && Placed(r, addr)
    requires Placed(x, KidsAddr(r, addr)) && Placed(WithKid(r, j, x), addr)
    ensures SettledKids(WithKid(r, j, x), addr) == SettledKids(r, addr)[j := Settle(x, KidsAddr(r, addr))]
  {}

  /** Settling after replacing a child is settling that child on its own. */
  lemma SettleWithKid(r: Recv, j: nat, x: Recv, addr: bool)
    requires r.Node? && j < |r.kids| && Placed(r, addr)
    requires Placed(x, KidsAddr(r, addr)) && Placed(WithKid(r, j, x), addr)
    ensures var all, one := Settle(r, addr), Settle(x, KidsAddr(r, addr));
            var after := Settle(WithKid(r, j, x), addr);
            && (one.None? ==> after.None?)
            && (all.None? && Settle(r.kids[j], KidsAddr(r, addr)).Some? ==> after.None?)
            && (all.Some? && one.Some? ==> after == Some(WithKid(all.value, j, one.value)))
  {
    var r' := WithKid(r, j, x);
    SettleNode(r, addr);
    SettleNode(r', addr);
    var one := Settle(x, KidsAddr(r, addr));
    SettledWith(r, j, x, addr);
    PointwiseWith(r, SettledKids(r, addr), Settle(r, addr), j, x, one, Settle(r', addr));
  }

  lemma {:induction false} CommuteNode(r: Recv, p: WirePath, id: nat, addr: bool)
    requires Placed(r, addr) && r.Node?
    ensures Later(r, p, id, addr) == Sooner(r, p, id, addr)
    decreases Height(r), r, 0
  {
    match Turn(r, p, id, addr)
    case Write(x) =>
      InstallPlaced(r, p, id, addr);
      PlainSettles(r, addr);
      PlainSettles(x, addr);
    case Go(j, n, a) =>
      Commute(r.kids[j], p[n..], id, a);
      CommuteGo(r, p, id, addr, j, n);
    case _ =>
  }

  lemma CommuteGo(r: Recv, p: WirePath, id: nat, addr: bool, j: nat, n: nat)
    requires Placed(r, addr) && r.Node? && Turn(r, p, id, addr).Go?
    requires j == Turn(r, p, id, addr).child && n == Turn(r, p, id, addr).consumed
    requires Later(r.kids[j], p[n..], id, KidsAddr(r, addr)) == Sooner(r.kids[j], p[n..], id, KidsAddr(r, addr))
    ensures Later(r, p, id, addr) == Sooner(r, p, id, addr)
  {
    var a := KidsAddr(r, addr);
    assert Turn(r, p, id, addr).addr == a;
    var o, all := Install(r.kids[j], p[n..], id, a), Settle(r, addr);
    SettleNode(r, addr);
    if all.Some? { SameTurn(r, all.value, p, id, addr); }
    if o.Done? {
      InstallPlaced(r.kids[j], p[n..], id, a);
      InstallPlaced(r, p, id, addr);
      SettleWithKid(r, j, o.value, addr);
    }
  }

  /** Which child a path goes to depends on the shape alone. */
  lemma SameTurn(r: Recv, x: Recv, p: WirePath, id: nat, addr: bool)
    requires SameShape(r, x) && Turn(r, p, id, addr).Go?
    ensures Turn(x, p, id, addr) == Turn(r, p, id, addr)
  {}

  /** The same for any list of callbacks: installing them on a value that still
      holds Partials and unmarshalling those afterwards gives exactly what
      installing them on the unmarshalled value gives, and fails iff that fails. */
  lemma {:induction false} Staged(r: Recv, specs: seq<Spec>, addr: bool)
    requires Placed(r, addr)
    ensures forall x | InstallAll(r, specs, addr) == Done(x) :: Placed(x, addr)
    ensures (var o := InstallAll(r, specs, addr); if o.Done? then Settle(o.value, addr) else None) ==
            match Settle(r, addr)
            case Some(x) => AsOption(InstallAll(x, specs, addr))
            case None => None
    decreases |specs|
  {
    if specs != [] {
      var e := specs[0];
      Commute(r, e.path, e.id, addr);
      var o := Install(r, e.path, e.id, addr);
      if o.Done? {
        InstallPlaced(r, e.path, e.id, addr);
        Staged(o.value, specs[1..], addr);
      }
    }
  }

  // ------------------------------------------------------- a whole message

  /** No Partial in r has callbacks waiting, as after decoding. */
  ghost predicate Fresh(r: Recv)
  {
    match r
    case Partial(inner, specs) => specs == [] && Fresh(inner)
    case Node(_, _, kids) => forall i | 0 <= i < |kids| :: Fresh(kids[i])
    case _ => true
  }

  /** r with the typed value in the place of each Partial. */
  function Typed(r: Recv): Recv
  {
    match r
    case Partial(inner, _) => Typed(inner)
    case Node(kind, labels, kids) => Node(kind, labels, seq(|kids|, i requires 0 <= i < |kids| => Typed(kids[i])))
    case _ => r
  }

  lemma {:induction false} FreshSettles(r: Recv, addr: bool)
    requires Placed(r, addr) && Fresh(r)
    ensures Settle(r, addr) == Some(Typed(r))
    decreases Height(r), r
  {
    match r
    case Partial(inner, _) => FreshSettles(inner, true);
    case Node(kind, labels, kids) =>
      var a := KidsAddr(r, addr);
      forall i | 0 <= i < |kids| ensures Settle(kids[i], a) == Some(Typed(kids[i])) {
        FreshSettles(kids[i], a);
      }
      assert SettleKids(kids, a).value == Typed(r).kids;
    case _ =>
  }

  /** Settling a Partial fills the typed value it stands for. */
  lemma StagedFill(t: Tree, args: Recv, specs: seq<Spec>, ids: map<WirePath, nat>)
    requires Placed(args, true) && Fresh(args) && Fits(t, Typed(args), true) && Covers(t, specs, ids, [])
    ensures exists x :: Settle(Partial(args, specs), true) == Some(x) && Filled(t, Typed(args), x, ids, [])
  {
    FreshSettles(args, true);
    Staged(args, specs, true);
    FillAll(t, Typed(args), specs, true, ids, []);
  }

  /** The arguments of a message are one Partial that gets all callbacks. However
      the handler then takes it apart, through any nesting of Partials, it ends
      with the fully typed arguments filled with exactly the sender's callbacks. */
  lemma StagedRoundTrip(v: Value, next: nat, table: map<nat, Cb>, args: Recv, order: seq<string>)
    requires Sendable(v) && Sent(v, next, table).next <= UINT64_LIMIT
    requires forall s :: s in order <==> s in Sent(v, next, table).msg
    requires Placed(args, true) && Fresh(args) && Fits(Skeleton(v), Typed(args), true)
    ensures forall s | s in order :: ParseUint(s).Some?
    ensures var r := Settle(Partial(args, Specs(WireMsg(Sent(v, next, table).msg), order)), true);
            && Assigns(IdsOf(v, next), Skeleton(v), Sent(v, next, table), next)
            && r.Some? && Filled(Skeleton(v), Typed(args), r.value, IdsOf(v, next), [])
  {
    var slots, sender := Collected(v, []).slots, Record(next, table, map[]);
    WalkLists(v);
    Assignment(Skeleton(v), slots, sender);
    SentCovers(Skeleton(v), slots, sender, order);
    StagedFill(Skeleton(v), args, Specs(WireMsg(Sent(v, next, table).msg), order), IdsOf(v, next));
  }
}
