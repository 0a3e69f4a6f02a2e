/** The hierarchical kite index: registered kites as leaves of a tree of path
    components, and prefix lookup by query key (kontrol/etcd.go, kontrol/node.go). */
module KiteIndex {
  import opened Wrappers
  import opened Text
  import opened KiteName

  /** A query has the fields of a kite; an empty field is not set. */
  type Query = Kite

  datatype RegisterValue = RegisterValue(url: string, keyId: string)

  // ------------------------------------------------------------- query keys

  /** Set fields come before unset ones. */
  predicate NoGap(q: Query)
  {
    forall i, j | 0 <= i < j < 7 && Values(q)[j] != "" :: Values(q)[i] != ""
  }

  /** Number of leading set fields. */
  function Leading(vs: seq<string>): (n: nat)
    ensures n <= |vs|
    ensures forall i | 0 <= i < n :: vs[i] != ""
    ensures n < |vs| ==> vs[n] == ""
  {
    if vs == [] || vs[0] == "" then 0
    else
      assert forall i | 0 < i < |vs| :: vs[i] == vs[1..][i - 1];
      1 + Leading(vs[1..])
  }

  function SetFields(q: Query): seq<string> { Values(q)[..Leading(Values(q))] }

  function TrimSuffix(s: string, c: char): string
  {
    if s != "" && s[|s| - 1] == c then s[..|s| - 1] else s
  }

  lemma {:induction false} JoinSnoc(vs: seq<string>, v: string, c: char)
    requires vs != []
    ensures Join(vs + [v], c) == Join(vs, c) + [c] + v
  {
    if |vs| > 1 {
      JoinSnoc(vs[1..], v, c);
      assert (vs + [v])[1..] == vs[1..] + [v];
    }
  }

  /** Fields each followed by a slash, after a first slash. */
  function Slashed(vs: seq<string>): string
  {
    if vs == [] then "/" else "/" + Join(vs, '/') + "/"
  }

  lemma SlashedSnoc(vs: seq<string>, v: string)
    ensures Slashed(vs + [v]) == Slashed(vs) + v + "/"
  {
    if vs != [] { JoinSnoc(vs, v, '/'); }
  }

  /** GetQueryKey: fails iff the username is missing or a set field follows an
      unset one; otherwise the key is the set fields, joined. */
  method GetQueryKey(q: Query) returns (r: Result<string>)
    ensures r.Ok? <==> q.username != "" && NoGap(q)
    ensures r.Ok? ==> SetFields(q) != [] && r.value == "/" + Join(SetFields(q), '/')
  {
    var vs := Values(q);
    if vs[0] == "" { return Err; }
    var path, empty := "/", false;
    ghost var n := Leading(vs);
    for i := 0 to 7
      invariant empty <==> n < i
      invariant forall j | n <= j < i :: vs[j] == ""
      invariant path == Slashed(vs[..if n < i then n else i])
    {
      if vs[i] == "" {
        empty := true;
      } else if empty {
        assert vs[n] == "";
        return Err;
      } else {
        SlashedSnoc(vs[..i], vs[i]);
        assert vs[..i + 1] == vs[..i] + [vs[i]];
        path := path + vs[i] + "/";
      }
    }
    TrimmedKey(vs[..n]);
    r := Ok(TrimSuffix(path, '/'));
  }

  lemma TrimmedKey(vs: seq<string>)
    requires vs != []
    ensures TrimSuffix(Slashed(vs), '/') == "/" + Join(vs, '/')
  {
    var s := "/" + Join(vs, '/');
    assert (s + "/")[..|s|] == s;
  }

  /** The components of a slash-separated key; etcd ignores empty ones. */
  function Components(key: string): seq<string> { NonEmpty(Split(key, '/')) }

  function NonEmpty(parts: seq<string>): seq<string>
  {
    if parts == [] then []
    else (if parts[0] == "" then [] else [parts[0]]) + NonEmpty(parts[1..])
  }

  lemma {:induction false} NonEmptySame(vs: seq<string>)
    requires forall i | 0 <= i < |vs| :: vs[i] != ""
    ensures NonEmpty(vs) == vs
  {
    if vs != [] { NonEmptySame(vs[1..]); }
  }

  lemma ComponentsOfJoin(vs: seq<string>)
    requires vs != [] && Free(vs, '/') && forall i | 0 <= i < |vs| :: vs[i] != ""
    ensures Components("/" + Join(vs, '/')) == vs
  {
    var all := [""] + vs;
    assert all[1..] == vs;
    assert Join(all, '/') == "/" + Join(vs, '/');
    assert Free(all, '/');
    SplitJoin(all);
    NonEmptySame(vs);
    assert NonEmpty(all) == [] + NonEmpty(vs);
  }

  lemma SplitJoin(parts: seq<string>)
    requires parts != [] && Free(parts, '/')
    ensures Split(Join(parts, '/'), '/') == parts
  {
    CountJoin(parts, '/');
    SplitIsSplitN(Join(parts, '/'), '/', |parts|);
    SplitNJoin(parts, '/', |parts|);
  }

  // ------------------------------------------------------------------ trees

  datatype Node = Leaf(value: RegisterValue) | Dir(kids: seq<Child>)

  datatype Child = Child(name: string, node: Node)

  datatype Entry = Entry(path: seq<string>, value: RegisterValue)

  predicate Wf(n: Node)
  {
    n.Dir? ==>
      && (forall i, j | 0 <= i < j < |n.kids| :: n.kids[i].name != n.kids[j].name)
      && forall i | 0 <= i < |n.kids| :: Wf(n.kids[i].node)
  }

  function Find(kids: seq<Child>, name: string): (r: Option<nat>)
    ensures r.Some? ==> r.value < |kids| && kids[r.value].name == name
    ensures r.None? ==> forall i | 0 <= i < |kids| :: kids[i].name != name
  {
    if kids == [] then None
    else if kids[0].name == name then Some(0)
    else match Find(kids[1..], name)
      case None => None
      case Some(j) => Some(j + 1)
  }

  function Lookup(n: Node, p: seq<string>): Option<Node>
    decreases p
  {
    if p == [] then Some(n)
    else if n.Leaf? || Find(n.kids, p[0]).None? then None
    else Lookup(n.kids[Find(n.kids, p[0]).value].node, p[1..])
  }

  /** All leaves below n, whose own path is at. */
  function Flatten(n: Node, at: seq<string>): seq<Entry>
    decreases n, 1
  {
    match n
    case Leaf(v) => [Entry(at, v)]
    case Dir(kids) => FlattenKids(kids, 0, at)
  }

  function FlattenKids(kids: seq<Child>, i: nat, at: seq<string>): seq<Entry>
    requires i <= |kids|
    decreases kids, |kids| - i
  {
    if i == |kids| then []
    else Flatten(kids[i].node, at + [kids[i].name]) + FlattenKids(kids, i + 1, at)
  }

  /** Node.Flatten: leaves are appended, directories flattened in turn. */
  method FlattenNode(n: Node, at: seq<string>) returns (nodes: seq<Entry>)
    ensures nodes == if n.Leaf? then [] else Flatten(n, at)
    decreases n
  {
    nodes := [];
    if n.Leaf? { return; }
    for i := 0 to |n.kids|
      invariant nodes + FlattenKids(n.kids, i, at) == Flatten(n, at)
    {
      var kid := n.kids[i];
      var below := at + [kid.name];
      ConcatAssoc(nodes, Flatten(kid.node, below), FlattenKids(n.kids, i + 1, at));
      if kid.node.Dir? {
        var inner := FlattenNode(kid.node, below);
        nodes := nodes + inner;
      } else {
        nodes := nodes + [Entry(below, kid.node.value)];
      }
    }
  }

  // ------------------------------------------------ lookup is prefix filtering

  function Below(es: seq<Entry>, p: seq<string>): seq<Entry>
  {
    if es == [] then []
    else (if p <= es[0].path then [es[0]] else []) + Below(es[1..], p)
  }

  lemma {:induction false} BelowConcat(a: seq<Entry>, b: seq<Entry>, p: seq<string>)
    ensures Below(a + b, p) == Below(a, p) + Below(b, p)
  {
    if a == [] {
      assert a + b == b;
    } else {
      BelowConcat(a[1..], b, p);
      BelowHead(a, b, p);
      ConcatAssoc(if p <= a[0].path then [a[0]] else [], Below(a[1..], p), Below(b, p));
    }
  }

  lemma BelowHead(a: seq<Entry>, b: seq<Entry>, p: seq<string>)
    requires a != []
    ensures Below(a + b, p) == (if p <= a[0].path then [a[0]] else []) + Below(a[1..] + b, p)
  {
    assert (a + b)[1..] == a[1..] + b;
  }

  predicate AllBelow(es: seq<Entry>, p: seq<string>)
  {
    forall i | 0 <= i < |es| :: p <= es[i].path
  }

  lemma {:induction false} BelowAll(es: seq<Entry>, p: seq<string>)
    requires AllBelow(es, p)
    ensures Below(es, p) == es
  {
    if es != [] { BelowAll(es[1..], p); }
  }

  lemma {:induction false} BelowNone(es: seq<Entry>, p: seq<string>)
    requires forall i | 0 <= i < |es| :: !(p <= es[i].path)
    ensures Below(es, p) == []
  {
    if es != [] { BelowNone(es[1..], p); }
  }

  lemma {:induction false} FlattenBelow(n: Node, at: seq<string>)
    ensures AllBelow(Flatten(n, at), at)
    decreases n, 1
  {
    if n.Dir? { FlattenKidsBelow(n.kids, 0, at); }
  }

  lemma {:induction false} FlattenKidsBelow(kids: seq<Child>, i: nat, at: seq<string>)
    requires i <= |kids|
    ensures AllBelow(FlattenKids(kids, i, at), at)
    decreases kids, |kids| - i
  {
    if i < |kids| {
      FlattenBelow(kids[i].node, at + [kids[i].name]);
      FlattenKidsBelow(kids, i + 1, at);
      assert at <= at + [kids[i].name];
    }
  }

  /** The leaves under a key are exactly the leaves of the whole tree whose path
      starts with that key, in the same order. */
  lemma {:induction false} LookupIsPrefix(n: Node, at: seq<string>, p: seq<string>)
    requires Wf(n)
    ensures Below(Flatten(n, at), at + p) ==
            match Lookup(n, p) case Some(m) => Flatten(m, at + p) case None => []
    decreases p
  {
    if p == [] {
      assert at + p == at;
      FlattenBelow(n, at);
      BelowAll(Flatten(n, at), at);
    } else if n.Leaf? {
      assert !(at + p <= at);
      BelowNone(Flatten(n, at), at + p);
    } else {
      PrefixKids(n.kids, 0, at, p);
    }
  }

  lemma {:induction false} PrefixKids(kids: seq<Child>, i: nat, at: seq<string>, p: seq<string>)
    requires i <= |kids| && p != [] && Wf(Dir(kids))
    ensures Below(FlattenKids(kids, i, at), at + p) ==
            var k := Find(kids, p[0]);
            if k.None? || k.value < i then []
            else match Lookup(kids[k.value].node, p[1..]) case Some(m) => Flatten(m, at + p) case None => []
    decreases p, |kids| - i
  {
    if i < |kids| {
      var kid, k := kids[i], Find(kids, p[0]);
      BelowKids(kids, i, at, at + p);
      PrefixKids(kids, i + 1, at, p);
      if kid.name == p[0] {
        assert k == Some(i);
        SameKid(kid, at, p);
      } else {
        assert k != Some(i);
        OtherKid(kid, at, p);
      }
    }
  }

  lemma BelowKids(kids: seq<Child>, i: nat, at: seq<string>, q: seq<string>)
    requires i < |kids|
    ensures var here, rest := Below(Flatten(kids[i].node, at + [kids[i].name]), q), Below(FlattenKids(kids, i + 1, at), q);
            && Below(FlattenKids(kids, i, at), q) == here + rest
            && (here == [] ==> here + rest == rest) && (rest == [] ==> here + rest == here)
  {
    BelowConcat(Flatten(kids[i].node, at + [kids[i].name]), FlattenKids(kids, i + 1, at), q);
  }

  lemma {:induction false} SameKid(kid: Child, at: seq<string>, p: seq<string>)
    requires p != [] && kid.name == p[0] && Wf(kid.node)
    ensures Below(Flatten(kid.node, at + [kid.name]), at + p) ==
            match Lookup(kid.node, p[1..]) case Some(m) => Flatten(m, at + p) case None => []
    decreases p, 0
  {
    Respell(at, p);
    LookupIsPrefix(kid.node, at + [kid.name], p[1..]);
  }

  lemma Respell(at: seq<string>, p: seq<string>)
    requires p != []
    ensures at + p == at + [p[0]] + p[1..]
  {}

  /** Nothing below a child of another name has the path as prefix. */
  lemma OtherKid(kid: Child, at: seq<string>, p: seq<string>)
    requires p != [] && kid.name != p[0]
    ensures Below(Flatten(kid.node, at + [kid.name]), at + p) == []
  {
    var here := Flatten(kid.node, at + [kid.name]);
    FlattenBelow(kid.node, at + [kid.name]);
    forall j | 0 <= j < |here| ensures !(at + p <= here[j].path) {
      assert here[j].path[|at|] == (at + [kid.name])[|at|] == kid.name;
      assert (at + p)[|at|] == p[0];
    }
    BelowNone(here, at + p);
  }

  /** A path and value occur among the leaves iff looking the path up finds them. */
  lemma LeafIffLookup(n: Node, e: Entry)
    requires Wf(n)
    ensures e in Flatten(n, []) <==> Lookup(n, e.path) == Some(Leaf(e.value))
  {
    LookupIsPrefix(n, [], e.path);
    assert [] + e.path == e.path;
    BelowIn(Flatten(n, []), e.path, e);
    match Lookup(n, e.path)
    case Some(m) => if m.Dir? { NotSelf(m.kids, 0, e.path, e); }
    case None =>
  }

  lemma {:induction false} BelowIn(es: seq<Entry>, p: seq<string>, e: Entry)
    ensures e in Below(es, p) <==> e in es && p <= e.path
  {
    if es != [] { BelowIn(es[1..], p, e); }
  }

  lemma {:induction false} NotSelf(kids: seq<Child>, i: nat, at: seq<string>, e: Entry)
    requires i <= |kids| && e.path == at
    ensures e !in FlattenKids(kids, i, at)
    decreases |kids| - i
  {
    if i < |kids| {
      FlattenBelow(kids[i].node, at + [kids[i].name]);
      NotSelf(kids, i + 1, at, e);
    }
  }
}
