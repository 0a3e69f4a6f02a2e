/** The etcd-backed kite storage: what it stores, and which kites a query returns
    (kontrol/etcd.go, kontrol/node.go), against the conjunction of field tests that
    the SQL backend uses (kontrol/postgres.go). */
module KiteStore {
  import opened Wrappers
  import opened Text
  import opened KiteName
  import opened KiteIndex

  // -------------------------------------------------------- changing a tree

  function Chain(p: seq<string>, v: RegisterValue): Node
  {
    if p == [] then Leaf(v) else Dir([Child(p[0], Chain(p[1..], v))])
  }

  /** Sets a leaf, creating directories on the way; fails when the path runs
      through a leaf or names a directory. */
  function Put(n: Node, p: seq<string>, v: RegisterValue): Option<Node>
    decreases p
  {
    if p == [] then (if n.Leaf? then Some(Leaf(v)) else None)
    else if n.Leaf? then None
    else match Find(n.kids, p[0])
      case None => Some(Dir(n.kids + [Child(p[0], Chain(p[1..], v))]))
      case Some(j) =>
        match Put(n.kids[j].node, p[1..], v)
        case Some(m) => Some(Dir(n.kids[j := Child(p[0], m)]))
        case None => None
  }

  /** Deletes whatever is stored at or below p. */
  function Remove(n: Node, p: seq<string>): Node
    requires p != []
    decreases p
  {
    if n.Leaf? then n
    else match Find(n.kids, p[0])
      case None => n
      case Some(j) =>
        if |p| == 1 then Dir(n.kids[..j] + n.kids[j + 1..])
        else Dir(n.kids[j := Child(p[0], Remove(n.kids[j].node, p[1..]))])
  }

  function LeafAt(n: Node, p: seq<string>): Option<RegisterValue>
  {
    match Lookup(n, p) case Some(Leaf(v)) => Some(v) case _ => None
  }

  lemma {:induction false} ChainLeaf(p: seq<string>, v: RegisterValue, q: seq<string>)
    ensures Wf(Chain(p, v))
    ensures LeafAt(Chain(p, v), q) == if q == p then Some(v) else None
  {
    if p != [] {
      if q != [] { ChainLeaf(p[1..], v, q[1..]); } else { ChainLeaf(p[1..], v, []); }
      if q != [] && q[0] == p[0] {
        assert q == [q[0]] + q[1..] && p == [p[0]] + p[1..];
      }
    }
  }

  lemma {:induction false} FindUnique(kids: seq<Child>, j: nat)
    requires j < |kids| && DistinctKids(kids)
    ensures KiteIndex.Find(kids, kids[j].name) == Some(j)
  {
    var i := KiteIndex.Find(kids, kids[j].name).value;
  }

  lemma SamePath(p: seq<string>, q: seq<string>)
    requires p != [] && q != []
    ensures q == p <==> q[0] == p[0] && q[1..] == p[1..]
    ensures p <= q <==> q[0] == p[0] && p[1..] <= q[1..]
  {
    assert q == [q[0]] + q[1..] && p == [p[0]] + p[1..];
  }

  predicate DistinctKids(kids: seq<Child>)
  {
    forall a, b | 0 <= a < b < |kids| :: kids[a].name != kids[b].name
  }

  /** Setting a leaf changes that leaf and no other. */
  lemma {:induction false} PutLeaf(n: Node, p: seq<string>, v: RegisterValue, q: seq<string>)
    requires Wf(n) && Put(n, p, v).Some?
    ensures Wf(Put(n, p, v).value)
    ensures LeafAt(Put(n, p, v).value, q) == if q == p then Some(v) else LeafAt(n, q)
    decreases p
  {
    if p != [] {
      var tail := if q == [] then [] else q[1..];
      match KiteIndex.Find(n.kids, p[0]) {
        case None => ChainLeaf(p[1..], v, tail);
        case Some(j) => PutLeaf(n.kids[j].node, p[1..], v, tail);
      }
      assert DistinctKids(Put(n, p, v).value.kids);
      if q != [] {
        SamePath(p, q);
        if q[0] == p[0] { PutHere(n, p, v, q); } else { PutBeside(n, p, v, q); }
      }
    }
  }

  /** Below the child that changes. */
  lemma PutHere(n: Node, p: seq<string>, v: RegisterValue, q: seq<string>)
    requires Wf(n) && p != [] && q != [] && q[0] == p[0] && Put(n, p, v).Some?
    requires DistinctKids(Put(n, p, v).value.kids)
    ensures LeafAt(Put(n, p, v).value, q) ==
            match KiteIndex.Find(n.kids, p[0])
            case None => LeafAt(Chain(p[1..], v), q[1..])
            case Some(j) => LeafAt(Put(n.kids[j].node, p[1..], v).value, q[1..])
  {
    var kids := Put(n, p, v).value.kids;
    match KiteIndex.Find(n.kids, p[0]) {
      case None => FindUnique(kids, |n.kids|);
      case Some(j) => FindUnique(kids, j);
    }
  }

  /** Below any other child. */
  lemma PutBeside(n: Node, p: seq<string>, v: RegisterValue, q: seq<string>)
    requires Wf(n) && p != [] && q != [] && q[0] != p[0] && Put(n, p, v).Some?
    requires DistinctKids(Put(n, p, v).value.kids)
    ensures LeafAt(Put(n, p, v).value, q) == LeafAt(n, q)
  {
    SameFind(n.kids, Put(n, p, v).value.kids, p[0], q[0]);
  }

  /** Lists that differ only at one name find every other name the same way. */
  lemma SameFind(a: seq<Child>, b: seq<Child>, changed: string, name: string)
    requires |a| <= |b| <= |a| + 1
    requires forall i | 0 <= i < |a| :: b[i].name == a[i].name && (a[i].name != changed ==> b[i] == a[i])
    requires |b| == |a| + 1 ==> b[|a|].name == changed
    requires DistinctKids(b)
    ensures name != changed ==> KiteIndex.Find(a, name) == KiteIndex.Find(b, name)
    ensures name != changed && KiteIndex.Find(a, name).Some? ==>
              b[KiteIndex.Find(a, name).value] == a[KiteIndex.Find(a, name).value]
  {
    if name != changed {
      if KiteIndex.Find(a, name).Some? { FindUnique(b, KiteIndex.Find(a, name).value); }
    }
  }

  /** Deleting removes the leaves at or below the path and no other. */
  lemma {:induction false} RemoveLeaf(n: Node, p: seq<string>, q: seq<string>)
    requires Wf(n) && p != []
    ensures Wf(Remove(n, p)) && Remove(n, p).Dir? == n.Dir?
    ensures LeafAt(Remove(n, p), q) == if p <= q then None else LeafAt(n, q)
    decreases p
  {
    if q != [] { SamePath(p, q); }
    if n.Dir? && KiteIndex.Find(n.kids, p[0]).Some? {
      var j := KiteIndex.Find(n.kids, p[0]).value;
      if |p| == 1 {
        RemoveKid(n, p, q, j);
      } else {
        RemoveLeaf(n.kids[j].node, p[1..], if q == [] then [] else q[1..]);
        assert DistinctKids(Remove(n, p).kids);
        if q != [] { RemoveBelow(n, p, q, j); }
      }
    }
  }

  lemma RemoveKid(n: Node, p: seq<string>, q: seq<string>, j: nat)
    requires Wf(n) && n.Dir? && |p| == 1 && KiteIndex.Find(n.kids, p[0]) == Some(j)
    ensures Wf(Remove(n, p))
    ensures LeafAt(Remove(n, p), q) == if q != [] && q[0] == p[0] then None else LeafAt(n, q)
  {
    if q != [] { FindWithout(n.kids, j, q[0]); }
  }

  lemma RemoveBelow(n: Node, p: seq<string>, q: seq<string>, j: nat)
    requires Wf(n) && n.Dir? && |p| > 1 && q != [] && KiteIndex.Find(n.kids, p[0]) == Some(j)
    requires DistinctKids(Remove(n, p).kids)
    ensures LeafAt(Remove(n, p), q) ==
            if q[0] == p[0] then LeafAt(Remove(n.kids[j].node, p[1..]), q[1..]) else LeafAt(n, q)
  {
    var kids := Remove(n, p).kids;
    FindUnique(kids, j);
    SameFind(n.kids, kids, p[0], q[0]);
  }

  // ------------------------------------------------------------ directories

  predicate DirAt(n: Node, p: seq<string>) { Lookup(n, p).Some? && Lookup(n, p).value.Dir? }

  /** Setting a leaf fails exactly when the path runs through a leaf or names a
      directory. */
  lemma {:induction false} PutExactly(n: Node, p: seq<string>, v: RegisterValue)
    ensures Put(n, p, v).Some? <==> !DirAt(n, p) && forall i | 0 <= i < |p| :: LeafAt(n, p[..i]).None?
    decreases p
  {
    if p == [] {
    } else if n.Leaf? {
      assert p[..0] == [] && LeafAt(n, p[..0]).Some?;
    } else {
      match KiteIndex.Find(n.kids, p[0])
      case None => forall i | 0 <= i < |p| ensures LeafAt(n, p[..i]).None? { HeadLookup(n, p, i); }
      case Some(j) =>
        PutExactly(n.kids[j].node, p[1..], v);
        forall i | 0 <= i < |p| ensures LeafAt(n, p[..i]) == if i == 0 then None else LeafAt(n.kids[j].node, p[1..][..i - 1]) {
          HeadLookup(n, p, i);
        }
        if forall i | 0 <= i < |p| :: LeafAt(n, p[..i]).None? {
          forall i | 0 <= i < |p[1..]| ensures LeafAt(n.kids[j].node, p[1..][..i]).None? {
            assert LeafAt(n, p[..i + 1]).None?;
          }
        }
    }
  }

  lemma HeadLookup(n: Node, p: seq<string>, i: nat)
    requires n.Dir? && p != [] && i <= |p|
    ensures Lookup(n, p[..i]) ==
            if i == 0 then Some(n)
            else match KiteIndex.Find(n.kids, p[0])
              case None => None
              case Some(j) => Lookup(n.kids[j].node, p[1..][..i - 1])
  {
    if i > 0 { assert p[..i][0] == p[0] && p[..i][1..] == p[1..][..i - 1]; }
  }

  lemma {:induction false} ChainDir(p: seq<string>, v: RegisterValue, q: seq<string>)
    requires DirAt(Chain(p, v), q)
    ensures |q| < |p| && q <= p
  {
    if p != [] && q != [] {
      ChainDir(p[1..], v, q[1..]);
      SamePath(q, p);
    }
  }

  /** Setting a leaf makes no directories but those on its path. */
  lemma {:induction false} PutDir(n: Node, p: seq<string>, v: RegisterValue, q: seq<string>)
    requires Wf(n) && Put(n, p, v).Some? && DirAt(Put(n, p, v).value, q)
    ensures DirAt(n, q) || (|q| < |p| && q <= p)
    decreases p
  {
    if p != [] && q != [] {
      PutLeaf(n, p, v, q);
      assert DistinctKids(Put(n, p, v).value.kids);
      SamePath(q, p);
      if q[0] == p[0] { PutDirHere(n, p, v, q); } else { SameFind(n.kids, Put(n, p, v).value.kids, p[0], q[0]); }
    }
  }

  lemma {:induction false} PutDirHere(n: Node, p: seq<string>, v: RegisterValue, q: seq<string>)
    requires Wf(n) && p != [] && q != [] && q[0] == p[0] && Put(n, p, v).Some? && DirAt(Put(n, p, v).value, q)
    requires DistinctKids(Put(n, p, v).value.kids)
    ensures DirAt(n, q) || (|q| < |p| && q <= p)
    decreases p, 0
  {
    var kids := Put(n, p, v).value.kids;
    SamePath(q, p);
    match KiteIndex.Find(n.kids, p[0]) {
      case None =>
        FindUnique(kids, |n.kids|);
        ChainDir(p[1..], v, q[1..]);
      case Some(j) =>
        FindUnique(kids, j);
        PutDir(n.kids[j].node, p[1..], v, q[1..]);
    }
  }

  /** Deleting makes none. */
  lemma {:induction false} RemoveDir(n: Node, p: seq<string>, q: seq<string>)
    requires Wf(n) && p != [] && DirAt(Remove(n, p), q)
    ensures DirAt(n, q)
    decreases p
  {
    if q != [] && n.Dir? && KiteIndex.Find(n.kids, p[0]).Some? {
      var j := KiteIndex.Find(n.kids, p[0]).value;
      if |p| == 1 {
        FindWithout(n.kids, j, q[0]);
      } else {
        var kids := Remove(n, p).kids;
        RemoveLeaf(n, p, q);
        FindUnique(kids, j);
        SameFind(n.kids, kids, p[0], q[0]);
        if q[0] == p[0] { RemoveDir(n.kids[j].node, p[1..], q[1..]); }
      }
    }
  }

  lemma FindWithout(kids: seq<Child>, j: nat, name: string)
    requires j < |kids| && DistinctKids(kids)
    ensures var rest := kids[..j] + kids[j + 1..];
            if name == kids[j].name then KiteIndex.Find(rest, name).None?
            else match KiteIndex.Find(kids, name)
              case None => KiteIndex.Find(rest, name).None?
              case Some(i) => KiteIndex.Find(rest, name).Some? && rest[KiteIndex.Find(rest, name).value] == kids[i]
  {
    var rest := kids[..j] + kids[j + 1..];
    if name != kids[j].name && KiteIndex.Find(kids, name).Some? {
      var i := KiteIndex.Find(kids, name).value;
      var m := if i < j then i else i - 1;
      assert rest[m] == kids[i];
      FindUnique(rest, m);
    }
  }

  // ----------------------------------------------- each leaf is listed once

  predicate DistinctPaths(es: seq<Entry>)
  {
    forall i, j | 0 <= i < j < |es| :: es[i].path != es[j].path
  }

  lemma {:induction false} FlattenDistinct(n: Node, at: seq<string>)
    requires Wf(n)
    ensures DistinctPaths(Flatten(n, at))
    decreases n, 1
  {
    if n.Dir? { FlattenKidsDistinct(n.kids, 0, at); }
  }

  lemma {:induction false} FlattenKidsDistinct(kids: seq<Child>, i: nat, at: seq<string>)
    requires Wf(Dir(kids)) && i <= |kids|
    ensures DistinctPaths(FlattenKids(kids, i, at))
    ensures forall e | e in FlattenKids(kids, i, at) ::
              |at| < |e.path| && exists k | i <= k < |kids| :: e.path[|at|] == kids[k].name
    decreases kids, |kids| - i
  {
    if i < |kids| {
      var head := Flatten(kids[i].node, at + [kids[i].name]);
      FlattenDistinct(kids[i].node, at + [kids[i].name]);
      FlattenBelow(kids[i].node, at + [kids[i].name]);
      FlattenKidsDistinct(kids, i + 1, at);
      forall a | 0 <= a < |head| ensures |at| < |head[a].path| && head[a].path[|at|] == kids[i].name {
        assert head[a].path[|at|] == (at + [kids[i].name])[|at|];
      }
      var rest := FlattenKids(kids, i + 1, at);
      forall a, b | 0 <= a < |head| && 0 <= b < |rest| ensures head[a].path != rest[b].path {
        assert rest[b] in rest;
      }
    }
  }

  // ----------------------------------------------------------------- matching

  /** Every set field of the query equals the kite's. */
  predicate Matches(k: Kite, q: Query)
  {
    forall i | 0 <= i < 7 && Values(q)[i] != "" :: Values(k)[i] == Values(q)[i]
  }

  datatype Equal = Equal(column: nat, value: string)

  predicate Satisfies(k: Kite, preds: seq<Equal>)
  {
    forall i | 0 <= i < |preds| :: preds[i].column < 7 && Values(k)[preds[i].column] == preds[i].value
  }

  /** selectQuery of the SQL backend: the conjunction of one equality per set
      field, refused when no field is set. A kite satisfies it iff it matches. */
  method SelectQuery(q: Query) returns (r: Result<seq<Equal>>)
    ensures r.Ok? <==> exists i | 0 <= i < 7 :: Values(q)[i] != ""
    ensures r.Ok? ==> forall k :: Satisfies(k, r.value) <==> Matches(k, q)
  {
    var vs, preds := Values(q), [];
    for i := 0 to 7
      invariant preds != [] <==> exists j | 0 <= j < i :: vs[j] != ""
      invariant forall k :: Satisfies(k, preds) <==> forall j | 0 <= j < i && vs[j] != "" :: Values(k)[j] == vs[j]
    {
      if vs[i] != "" {
        forall k ensures Satisfies(k, preds + [Equal(i, vs[i])]) <==> Satisfies(k, preds) && Values(k)[i] == vs[i] {
          var more := preds + [Equal(i, vs[i])];
          if Satisfies(k, more) {
            assert forall j | 0 <= j < |preds| :: more[j] == preds[j];
            assert more[|preds|] == Equal(i, vs[i]);
          }
        }
        preds := preds + [Equal(i, vs[i])];
      }
    }
    if preds == [] { return Err; }
    r := Ok(preds);
  }

  /** For a query without gaps, matching is having the set fields as prefix. */
  lemma MatchIsPrefix(k: Kite, q: Query)
    requires NoGap(q)
    ensures Matches(k, q) <==> SetFields(q) <= Values(k)
  {
    var n := Leading(Values(q));
    if SetFields(q) <= Values(k) {
      forall i | 0 <= i < 7 && Values(q)[i] != "" ensures Values(k)[i] == Values(q)[i] {
        assert i < n;
        assert Values(k)[i] == SetFields(q)[i];
      }
    }
  }

  // ---------------------------------------------------------------- the store

  datatype Found = Found(kite: Kite, value: RegisterValue)

  function NodeKey(p: seq<string>): string
    requires p != []
  {
    KITES_PREFIX + "/" + Join(p, '/')
  }

  function StoredIn(kites: map<Kite, RegisterValue>, ids: map<string, RegisterValue>, p: seq<string>): Option<RegisterValue>
  {
    if |p| == 7 && FromValues(p) in kites then Some(kites[FromValues(p)])
    else if |p| == 1 && p[0] in ids then Some(ids[p[0]])
    else None
  }

  /** The leaves are the registered kites under their seven fields, and one more
      leaf per kite under its ID alone. */
  ghost predicate Represents(root: Node, kites: map<Kite, RegisterValue>, ids: map<string, RegisterValue>)
  {
    && root.Dir? && Wf(root)
    && (forall k | k in kites :: ValidKey(k)) && (forall id | id in ids :: '/' !in id)
    && forall p :: LeafAt(root, p) == StoredIn(kites, ids, p)
  }

  /** Directories stand above the last field. */
  ghost predicate Shallow(root: Node) { forall p | DirAt(root, p) :: |p| < 7 }

  lemma ShallowPut(root: Node, p: seq<string>, v: RegisterValue)
    requires Wf(root) && Shallow(root) && |p| <= 7 && Put(root, p, v).Some?
    ensures Shallow(Put(root, p, v).value)
  {
    forall q | DirAt(Put(root, p, v).value, q) ensures |q| < 7 { PutDir(root, p, v, q); }
  }

  lemma ShallowRemove(root: Node, p: seq<string>)
    requires Wf(root) && Shallow(root) && p != []
    ensures Shallow(Remove(root, p))
  {
    forall q | DirAt(Remove(root, p), q) ensures |q| < 7 { RemoveDir(root, p, q); }
  }

  /** No ID key lies at or below p, or above it. */
  predicate Apart(p: seq<string>, ids: map<string, RegisterValue>)
  {
    if p == [] then ids == map[] else p[0] !in ids
  }

  /** Prefix lookup finds exactly the stored kites that have the prefix. */
  lemma BelowKey(root: Node, kites: map<Kite, RegisterValue>, ids: map<string, RegisterValue>, p: seq<string>, e: Entry)
    requires Represents(root, kites, ids) && Apart(p, ids)
    ensures (Lookup(root, p).Some? && e in Flatten(Lookup(root, p).value, p)) <==>
            (|e.path| == 7 && p <= e.path && FromValues(e.path) in kites && e.value == kites[FromValues(e.path)])
  {
    LookupIsPrefix(root, [], p);
    assert [] + p == p;
    BelowIn(Flatten(root, []), p, e);
    LeafIffLookup(root, e);
    assert LeafAt(root, e.path) == StoredIn(kites, ids, e.path);
  }

  /** The key of a leaf of a stored kite reads back as that kite. */
  lemma KeyOfKite(k: Kite)
    requires ValidKey(k)
    ensures KiteFromKey(NodeKey(Values(k))) == Ok(k)
  {
    StringIsJoin(k);
    ConcatAssoc(KITES_PREFIX, "/", Join(Values(k), '/'));
    KeyCodec(k);
  }

  /** The kites found are the stored kites whose fields begin with p, each once, with
      its value. */
  ghost predicate Under(found: seq<Found>, kites: map<Kite, RegisterValue>, p: seq<string>)
  {
    && (forall k, v :: Found(k, v) in found <==> k in kites && v == kites[k] && p <= Values(k))
    && (forall i, j | 0 <= i < j < |found| :: found[i].kite != found[j].kite)
  }

  ghost predicate AsFound(es: seq<Entry>, found: seq<Found>)
  {
    |found| == |es| && forall i | 0 <= i < |es| :: es[i] == Entry(Values(found[i].kite), found[i].value)
  }

  /** Entries under a key, read as kites, are exactly the stored kites that have its
      components as prefix. */
  lemma EntriesExact(root: Node, kites: map<Kite, RegisterValue>, ids: map<string, RegisterValue>, p: seq<string>, es: seq<Entry>, found: seq<Found>)
    requires Represents(root, kites, ids) && Apart(p, ids)
    requires Lookup(root, p).Some? && es == Flatten(Lookup(root, p).value, p) && AsFound(es, found)
    ensures Under(found, kites, p)
  {
    forall k, v ensures Found(k, v) in found <==> k in kites && v == kites[k] && p <= Values(k) {
      var e := Entry(Values(k), v);
      BelowKey(root, kites, ids, p, e);
      assert FromValues(Values(k)) == k;
      if Found(k, v) in found {
        var i :| 0 <= i < |found| && found[i] == Found(k, v);
        assert es[i] in es;
      }
      if e in es {
        var i :| 0 <= i < |es| && es[i] == e;
        ValuesInjective(found[i].kite, k);
        assert found[i] in found;
      }
    }
    DistinctUnder(root, p);
  }

  lemma DistinctUnder(root: Node, p: seq<string>)
    requires Wf(root) && Lookup(root, p).Some?
    ensures DistinctPaths(Flatten(Lookup(root, p).value, p))
  {
    WfLookup(root, p);
    FlattenDistinct(Lookup(root, p).value, p);
  }

  lemma {:induction false} WfLookup(n: Node, p: seq<string>)
    requires Wf(n) && Lookup(n, p).Some?
    ensures Wf(Lookup(n, p).value)
    decreases p
  {
    if p != [] { WfLookup(n.kids[KiteIndex.Find(n.kids, p[0]).value].node, p[1..]); }
  }

  lemma PutKite(root: Node, kites: map<Kite, RegisterValue>, ids: map<string, RegisterValue>, k: Kite, v: RegisterValue)
    requires Represents(root, kites, ids) && ValidKey(k) && Put(root, Values(k), v).Some?
    ensures Represents(Put(root, Values(k), v).value, kites[k := v], ids)
  {
    var p := Values(k);
    PutLeaf(root, p, v, p);
    forall q ensures LeafAt(Put(root, p, v).value, q) == StoredIn(kites[k := v], ids, q) {
      PutLeaf(root, p, v, q);
      if |q| == 7 { SameValues(q, k); }
    }
  }

  lemma PutId(root: Node, kites: map<Kite, RegisterValue>, ids: map<string, RegisterValue>, id: string, v: RegisterValue)
    requires Represents(root, kites, ids) && '/' !in id && Put(root, [id], v).Some?
    ensures Represents(Put(root, [id], v).value, kites, ids[id := v])
  {
    PutLeaf(root, [id], v, [id]);
    forall q ensures LeafAt(Put(root, [id], v).value, q) == StoredIn(kites, ids[id := v], q) {
      PutLeaf(root, [id], v, q);
    }
  }

  lemma RemoveKite(root: Node, kites: map<Kite, RegisterValue>, ids: map<string, RegisterValue>, k: Kite)
    requires Represents(root, kites, ids) && ValidKey(k)
    ensures Represents(Remove(root, Values(k)), kites - {k}, ids)
  {
    var p := Values(k);
    RemoveLeaf(root, p, p);
    forall q ensures LeafAt(Remove(root, p), q) == StoredIn(kites - {k}, ids, q) {
      RemoveLeaf(root, p, q);
      if |q| == 7 { SameValues(q, k); }
      assert p <= q && |q| <= 7 ==> q == p;
    }
  }

  /** The stored kites of all usernames but one. */
  ghost function OtherUsers(kites: map<Kite, RegisterValue>, user: string): map<Kite, RegisterValue>
  {
    map k | k in kites && k.username != user :: kites[k]
  }

  lemma RemoveId(root: Node, kites: map<Kite, RegisterValue>, ids: map<string, RegisterValue>, id: string)
    requires Represents(root, kites, ids)
    ensures Represents(Remove(root, [id]), OtherUsers(kites, id), ids - {id})
  {
    RemoveLeaf(root, [id], [id]);
    forall q ensures LeafAt(Remove(root, [id]), q) == StoredIn(OtherUsers(kites, id), ids - {id}, q) {
      RemoveLeaf(root, [id], q);
      if q != [] { SamePath([id], q); }
    }
  }

  /** A kite's own key can be set exactly when its username is not the ID key of a
      stored kite. */
  lemma KiteFits(root: Node, kites: map<Kite, RegisterValue>, ids: map<string, RegisterValue>, k: Kite, v: RegisterValue)
    requires Represents(root, kites, ids) && Shallow(root)
    ensures Put(root, Values(k), v).Some? <==> k.username !in ids
  {
    var p := Values(k);
    PutExactly(root, p, v);
    forall i | 0 <= i < 7 ensures LeafAt(root, p[..i]).Some? <==> i == 1 && k.username in ids {
      assert LeafAt(root, p[..i]) == StoredIn(kites, ids, p[..i]);
    }
    if k.username in ids { assert LeafAt(root, p[..1]).Some?; }
  }

  /** Its ID key can be set exactly when the ID names no directory. */
  lemma IdFits(root: Node, id: string, v: RegisterValue)
    requires root.Dir?
    ensures Put(root, [id], v).Some? <==> !DirAt(root, [id])
  {
    PutExactly(root, [id], v);
    assert [id][..0] == [];
  }

  /** After the kite's key has been set its username names a directory. */
  lemma UserDir(root: Node, k: Kite, v: RegisterValue, id: string)
    requires Wf(root) && Put(root, Values(k), v).Some?
    ensures DirAt(Put(root, Values(k), v).value, [id]) <==> id == k.username || DirAt(root, [id])
  {
    var p := Values(k);
    var after := Put(root, p, v).value;
    PutLeaf(root, p, v, [id]);
    assert DistinctKids(after.kids);
    if id == k.username {
      UserChild(root, p, v);
    } else {
      SameFind(root.kids, after.kids, k.username, id);
    }
  }

  lemma UserChild(n: Node, p: seq<string>, v: RegisterValue)
    requires Wf(n) && |p| > 1 && Put(n, p, v).Some? && DistinctKids(Put(n, p, v).value.kids)
    ensures DirAt(Put(n, p, v).value, [p[0]])
  {
    var kids := Put(n, p, v).value.kids;
    match KiteIndex.Find(n.kids, p[0]) {
      case None => FindUnique(kids, |n.kids|);
      case Some(j) => FindUnique(kids, j);
    }
  }

  /** A username that is the ID key of a stored kite has no kites. */
  lemma IdIsNoUser(root: Node, kites: map<Kite, RegisterValue>, ids: map<string, RegisterValue>, u: string)
    requires Represents(root, kites, ids) && u in ids
    ensures forall k | k in kites :: k.username != u
    ensures forall p | p != [] && p[0] == u && Lookup(root, p).Some? :: p == [u] && Lookup(root, p).value.Leaf?
  {
    assert LeafAt(root, [u]) == StoredIn(kites, ids, [u]) == Some(ids[u]);
    forall k | k in kites ensures k.username != u {
      var p := Values(k);
      SameValues(p, k);
      assert LeafAt(root, p) == StoredIn(kites, ids, p) == Some(kites[k]);
      if p[0] == u { UnderLeaf(root, u, p); }
    }
    forall p | p != [] && p[0] == u && Lookup(root, p).Some? ensures p == [u] && Lookup(root, p).value.Leaf? {
      UnderLeaf(root, u, p);
    }
  }

  /** Nothing lies below a leaf. */
  lemma UnderLeaf(n: Node, u: string, p: seq<string>)
    requires LeafAt(n, [u]).Some? && p != [] && p[0] == u && Lookup(n, p).Some?
    ensures p == [u] && Lookup(n, p).value.Leaf?
  {
    assert [u][1..] == [];
    var kid := n.kids[KiteIndex.Find(n.kids, u).value].node;
    assert Lookup(n, [u]) == Lookup(kid, []) == Some(kid);
    assert Lookup(n, p) == Lookup(kid, p[1..]);
    assert p == [p[0]] + p[1..];
  }

  /** The ID key reads as no kite. */
  lemma IdUnreadable(u: string)
    requires '/' !in u
    ensures forall v :: !Readable(Entry([u], v))
  {
    var key := NodeKey([u]);
    var parts := ["kites", u];
    assert parts[1..] == [u];
    assert Join(parts, '/') == "kites" + "/" + Join([u], '/');
    assert key[0] == '/' && "/" <= key && key[1..] == Join(parts, '/');
    CountJoin(parts, '/');
    SplitIsSplitN(key[1..], '/', 2);
  }

  /** A stored kite makes every prefix of its fields exist. */
  lemma MatchFound(root: Node, kites: map<Kite, RegisterValue>, ids: map<string, RegisterValue>, p: seq<string>, k: Kite)
    requires Represents(root, kites, ids) && k in kites && p <= Values(k)
    ensures Lookup(root, p).Some?
  {
    SameValues(Values(k), k);
    if p != [] {
      assert p[0] == Values(k)[0];
      if p[0] in ids { IdIsNoUser(root, kites, ids, p[0]); }
      BelowKey(root, kites, ids, p, Entry(Values(k), kites[k]));
    }
  }

  predicate Readable(e: Entry) { e.path != [] && KiteFromKey(NodeKey(e.path)).Ok? }

  /** r is the list of kites that the nodes name, or an error iff one names none. */
  ghost predicate ReadAs(es: seq<Entry>, r: Result<seq<Found>>)
  {
    && (r.Ok? <==> forall i | 0 <= i < |es| :: Readable(es[i]))
    && (r.Ok? ==>
          |r.value| == |es| &&
          forall i | 0 <= i < |es| ::
            Readable(es[i]) && r.value[i] == Found(KiteFromKey(NodeKey(es[i].path)).value, es[i].value))
  }

  /** Reads nodes as kites; fails iff one of them has no kite's key. */
  method KitesOf(es: seq<Entry>) returns (r: Result<seq<Found>>)
    ensures ReadAs(es, r)
  {
    var found := [];
    for i := 0 to |es|
      invariant |found| == i
      invariant forall j | 0 <= j < i ::
                  Readable(es[j]) && found[j] == Found(KiteFromKey(NodeKey(es[j].path)).value, es[j].value)
    {
      if !Readable(es[i]) { return Err; }
      found := found + [Found(KiteFromKey(NodeKey(es[i].path)).value, es[i].value)];
    }
    r := Ok(found);
  }

  class Etcd {
    var root: Node
    ghost var kites: map<Kite, RegisterValue>
    ghost var ids: map<string, RegisterValue>

    ghost predicate Valid()
      reads this
    {
      Represents(root, kites, ids) && Shallow(root)
    }

    constructor ()
      ensures Valid() && kites == map[] && ids == map[]
    {
      root, kites, ids := Dir([]), map[], map[];
    }

    /** Sets the kite's own key, then its ID key; stops at the first error. */
    method Add(k: Kite, v: RegisterValue) returns (ok: bool)
      requires Valid() && ValidKey(k)
      modifies this
      ensures Valid()
      ensures ok <==> k.username !in old(ids) && k.id != k.username && !DirAt(old(root), [k.id])
      ensures kites == if k.username in old(ids) then old(kites) else old(kites)[k := v]
      ensures ids == if ok then old(ids)[k.id := v] else old(ids)
    {
      var first := Put(root, Values(k), v);
      KiteFits(root, kites, ids, k, v);
      if first.None? { return false; }
      PutKite(root, kites, ids, k, v);
      ShallowPut(root, Values(k), v);
      UserDir(root, k, v, k.id);
      IdFits(first.value, k.id, v);
      root, kites := first.value, kites[k := v];
      var second := Put(root, [k.id], v);
      if second.None? { return false; }
      assert Values(k)[6] == k.id;
      PutId(root, kites, ids, k.id, v);
      ShallowPut(root, [k.id], v);
      root, ids := second.value, ids[k.id := v];
      ok := true;
    }

    /** The kite's key disappears, by deletion or because its TTL ran out. */
    method Drop(k: Kite)
      requires Valid() && ValidKey(k)
      modifies this
      ensures Valid() && kites == old(kites) - {k} && ids == old(ids)
    {
      RemoveKite(root, kites, ids, k);
      ShallowRemove(root, Values(k));
      root, kites := Remove(root, Values(k)), kites - {k};
    }

    /** The kite's ID key disappears, and with it all kites whose username it is: the
        deletion is recursive. */
    method DropId(id: string)
      requires Valid()
      modifies this
      ensures Valid() && ids == old(ids) - {id}
      ensures kites == OtherUsers(old(kites), id)
    {
      RemoveId(root, kites, ids, id);
      ShallowRemove(root, [id]);
      root, kites, ids := Remove(root, [id]), OtherUsers(kites, id), ids - {id};
    }

    /** The kites under the query's key: one leaf, or the leaves of a directory. An
        unknown key is an error, and so is a key with an ID key at or below it. */
    method Fetch(q: Query) returns (r: Result<seq<Found>>, single: bool)
      requires Valid()
      ensures q.username == "" || !NoGap(q) ==> r.Err?
      ensures q.username != "" && NoGap(q) ==> Answers(r, single, kites, ids, QueryPath(q))
    {
      single := false;
      var key := GetQueryKey(q);
      if key.Err? { return Err, false; }
      var p := Components(key.value);
      var node := Lookup(root, p);
      forall k | k in kites && p <= Values(k) ensures node.Some? { MatchFound(root, kites, ids, p, k); }
      if node.None? { return Err, false; }
      var es;
      if node.value.Leaf? {
        single := true;
        es := [Entry(p, node.value.value)];
      } else {
        es := FlattenNode(node.value, p);
      }
      r := KitesOf(es);
      QueryAnswered(root, kites, ids, p, es, r);
    }
  }

  /** The components of the query's key. */
  function QueryPath(q: Query): seq<string>
    requires q.username != ""
  {
    SetFieldsSome(q);
    Components("/" + Join(SetFields(q), '/'))
  }

  lemma SetFieldsSome(q: Query)
    requires q.username != ""
    ensures SetFields(q) != []
  {
    assert Values(q)[0] == q.username;
  }

  /** r is the stored kites below p, or an error: there are none, or p is the root and
      there are ID keys. One leaf has been read iff p has seven components. */
  ghost predicate Answers(r: Result<seq<Found>>, single: bool, kites: map<Kite, RegisterValue>, ids: map<string, RegisterValue>, p: seq<string>)
  {
    if r.Ok? then Under(r.value, kites, p) && (single <==> |p| == 7)
    else (p == [] && ids != map[]) || forall k | k in kites :: !(p <= Values(k))
  }

  /** Reading the leaves under a key answers the query. */
  lemma QueryAnswered(root: Node, kites: map<Kite, RegisterValue>, ids: map<string, RegisterValue>, p: seq<string>,
                      es: seq<Entry>, r: Result<seq<Found>>)
    requires Represents(root, kites, ids) && Shallow(root)
    requires Lookup(root, p).Some? && es == Flatten(Lookup(root, p).value, p) && ReadAs(es, r)
    ensures Answers(r, Lookup(root, p).value.Leaf?, kites, ids, p)
  {
    if Apart(p, ids) {
      forall i | 0 <= i < |es| ensures Readable(es[i]) && KiteReads(es[i]) {
        LeafReads(root, kites, ids, p, es[i]);
      }
      EntriesExact(root, kites, ids, p, es, r.value);
      if Lookup(root, p).value.Dir? { assert DirAt(root, p); } else { assert es[0].path == p; }
    } else {
      IdSpoils(root, kites, ids, p, es);
      if p != [] { IdIsNoUser(root, kites, ids, p[0]); }
      assert forall k | k in kites :: Values(k)[0] == k.username;
    }
  }

  /** An ID key among the leaves makes them unreadable. */
  lemma IdSpoils(root: Node, kites: map<Kite, RegisterValue>, ids: map<string, RegisterValue>, p: seq<string>, es: seq<Entry>)
    requires Represents(root, kites, ids) && !Apart(p, ids)
    requires Lookup(root, p).Some? && es == Flatten(Lookup(root, p).value, p)
    ensures exists i | 0 <= i < |es| :: !Readable(es[i])
  {
    if p == [] {
      var u :| u in ids;
      var e := Entry([u], ids[u]);
      IdUnreadable(u);
      assert LeafAt(root, [u]) == StoredIn(kites, ids, [u]);
      LeafIffLookup(root, e);
      var i :| 0 <= i < |es| && es[i] == e;
    } else {
      IdIsNoUser(root, kites, ids, p[0]);
      IdUnreadable(p[0]);
      assert !Readable(es[0]);
    }
  }

  /** Without slashes in the query, the stored kites below its key are those that match. */
  lemma PathMatches(k: Kite, q: Query)
    requires Free(Values(q), '/') && q.username != "" && NoGap(q)
    ensures QueryPath(q) == SetFields(q)
    ensures QueryPath(q) <= Values(k) <==> Matches(k, q)
  {
    SetFieldsSome(q);
    ComponentsOfJoin(SetFields(q));
    MatchIsPrefix(k, q);
  }

  predicate KiteReads(e: Entry)
  {
    |e.path| == 7 && Values(FromValues(e.path)) == e.path && KiteFromKey(NodeKey(e.path)) == Ok(FromValues(e.path))
  }

  /** Apart from ID keys every leaf reads as a kite whose fields are its path. */
  lemma LeafReads(root: Node, kites: map<Kite, RegisterValue>, ids: map<string, RegisterValue>, p: seq<string>, e: Entry)
    requires Represents(root, kites, ids) && Apart(p, ids)
    requires Lookup(root, p).Some? && e in Flatten(Lookup(root, p).value, p)
    ensures Readable(e) && KiteReads(e)
  {
    BelowKey(root, kites, ids, p, e);
    assert Values(FromValues(e.path)) == e.path;
    KeyOfKite(FromValues(e.path));
  }
}
