/** Key pairs cached in memory in front of a database with soft deletion
    (kontrol/keypair.go, kontrol/postgres.go, kontrol/002-table.sql). */
module KeyCache {
  import opened Wrappers

  datatype KeyPair = KeyPair(id: string, public: string, private: string)

  predicate Validate(k: KeyPair) { k.id != "" && k.public != "" && k.private != "" }

  datatype Error = Invalid | NotFound | Deleted | Conflict

  datatype Found = Key(key: KeyPair) | Fail(error: Error)

  // ------------------------------------------------------------ the backend

  datatype Row = Row(key: KeyPair, deleted: bool)

  /** The key table: rows by primary key. */
  type Rows = map<string, Row>

  /** id, public and private are unique over all rows, deleted ones included. */
  ghost predicate RowsOk(rows: Rows)
  {
    && (forall id | id in rows :: rows[id].key.id == id && Validate(rows[id].key))
    && (forall a, b | a in rows && b in rows && a != b ::
          rows[a].key.public != rows[b].key.public && rows[a].key.private != rows[b].key.private)
  }

  predicate Clashes(rows: Rows, k: KeyPair)
  {
    exists id | id in rows :: id == k.id || rows[id].key.public == k.public || rows[id].key.private == k.private
  }

  function Selected(r: Row): Found { if r.deleted then Fail(Deleted) else Key(r.key) }

  function ById(rows: Rows, id: string): Found
  {
    if id in rows then Selected(rows[id]) else Fail(NotFound)
  }

  ghost function ByPublic(rows: Rows, public: string): Found
  {
    if id :| id in rows && rows[id].key.public == public then Selected(rows[id]) else Fail(NotFound)
  }

  // --------------------------------------------------------------- the cache

  datatype Mem = Mem(ids: map<string, KeyPair>, publics: map<string, KeyPair>)

  /** What the two caches hold agrees with live rows, for ids; for public keys it
      may be stale. */
  ghost predicate IdsAgree(rows: Rows, m: Mem)
  {
    forall id | id in m.ids :: id in rows && !rows[id].deleted && m.ids[id] == rows[id].key
  }

  /** The public cache holds live rows only, and an id is cached iff its public key is. */
  ghost predicate PublicsAgree(rows: Rows, m: Mem)
  {
    && (forall p | p in m.publics :: LiveEntry(rows, m, p))
    && (forall id | id in m.ids :: m.ids[id].public in m.publics)
  }

  predicate LiveEntry(rows: Rows, m: Mem, p: string)
    requires p in m.publics
  {
    var k := m.publics[p];
    k.public == p && k.id in rows && rows[k.id] == Row(k, false) && k.id in m.ids
  }

  // ---------------------------------------------------------- the operations

  datatype Op =
    | Add(k: KeyPair)
    | Delete(k: KeyPair)
    | LookupId(id: string)
    | LookupPublic(public: string)
    | Check(public: string)
    | Lose(anId: Option<string>, aPublic: Option<string>)

  datatype Outcome = Added(error: Option<Error>) | Removed(ok: bool) | Looked(found: Found) | Checked(valid: bool) | Lost

  function Refused(rows: Rows, k: KeyPair): Option<Error>
  {
    if !Validate(k) then Some(Invalid) else if Clashes(rows, k) then Some(Conflict) else None
  }

  function DeletedRow(rows: Rows, id: string): Rows
  {
    if id in rows then rows[id := rows[id].(deleted := true)] else rows
  }

  /** The key table after an operation. */
  function RowsAfter(rows: Rows, op: Op): Rows
  {
    match op
    case Add(k) => if Refused(rows, k) == None then rows[k.id := Row(k, false)] else rows
    case Delete(k) => DeletedRow(rows, k.id)
    case _ => rows
  }

  function RowsAll(rows: Rows, ops: seq<Op>): Rows
  {
    if ops == [] then rows else RowsAfter(RowsAll(rows, ops[..|ops| - 1]), ops[|ops| - 1])
  }

  /** What the key table alone answers. */
  ghost function Backend(rows: Rows, op: Op): Outcome
  {
    match op
    case Add(k) => Added(Refused(rows, k))
    case Delete(_) => Removed(true)
    case LookupId(id) => Looked(ById(rows, id))
    case LookupPublic(p) => Looked(ByPublic(rows, p))
    case Check(p) => Checked(ByPublic(rows, p).Key?)
    case Lose(_, _) => Lost
  }

  datatype Store = Store(rows: Rows, mem: Mem)

  function Filled(m: Mem, k: KeyPair): Mem { Mem(m.ids[k.id := k], m.publics[k.public := k]) }

  function Dropped(m: Mem, k: KeyPair): Mem
  {
    Mem(m.ids - {k.id}, if k.public == "" && k.id in m.ids then m.publics - {m.ids[k.id].public} else m.publics)
  }

  /** A lookup that misses the cache puts what the table gives into it. */
  function Fetched(m: Mem, cached: bool, found: Found): Mem
  {
    if !cached && found.Key? then Filled(m, found.key) else m
  }

  /** The caches after an operation on table and caches. */
  ghost function MemAfter(s: Store, op: Op): Mem
  {
    match op
    case Add(k) => if Refused(s.rows, k) == None then Filled(s.mem, k) else s.mem
    case Delete(k) => Dropped(s.mem, k)
    case LookupId(id) => Fetched(s.mem, id in s.mem.ids, ById(s.rows, id))
    case LookupPublic(p) => Fetched(s.mem, p in s.mem.publics, ByPublic(s.rows, p))
    case Check(_) => s.mem
    case Lose(anId, aPublic) =>
      Mem(if anId.Some? then s.mem.ids - {anId.value} else s.mem.ids,
          if aPublic.Some? then s.mem.publics - {aPublic.value} else s.mem.publics)
  }

  ghost function After(s: Store, op: Op): Store { Store(RowsAfter(s.rows, op), MemAfter(s, op)) }

  ghost function AfterAll(s: Store, ops: seq<Op>): Store
  {
    if ops == [] then s else After(AfterAll(s, ops[..|ops| - 1]), ops[|ops| - 1])
  }

  /** The table does not depend on what is cached. */
  lemma {:induction false} RowsAlone(s: Store, ops: seq<Op>)
    ensures AfterAll(s, ops).rows == RowsAll(s.rows, ops)
  {
    if ops != [] { RowsAlone(s, ops[..|ops| - 1]); }
  }

  // ------------------------------------------------- what every operation keeps

  ghost predicate Sound(s: Store) { RowsOk(s.rows) && IdsAgree(s.rows, s.mem) }

  lemma PublicUnique(rows: Rows, id: string)
    requires RowsOk(rows) && id in rows
    ensures ByPublic(rows, rows[id].key.public) == Selected(rows[id])
  {}

  lemma PublicKey(rows: Rows, p: string)
    requires RowsOk(rows) && ByPublic(rows, p).Key?
    ensures var k := ByPublic(rows, p).key; k.public == p && k.id in rows && rows[k.id] == Row(k, false)
  {}

  /** What the table answers: a live row its key, a deleted row and a missing one errors. */
  lemma TableAnswers(rows: Rows, id: string, public: string)
    requires RowsOk(rows)
    ensures ById(rows, id) ==
            if id !in rows then Fail(NotFound) else if rows[id].deleted then Fail(Deleted) else Key(rows[id].key)
    ensures id in rows && rows[id].key.public == public ==> ByPublic(rows, public) == ById(rows, id)
    ensures (forall i | i in rows :: rows[i].key.public != public) ==> ByPublic(rows, public) == Fail(NotFound)
  {
    if id in rows { PublicUnique(rows, id); }
  }

  /** A key is added exactly when its three parts are there and none of them is in any
      row, deleted ones included. */
  lemma AddExactly(rows: Rows, k: KeyPair)
    requires RowsOk(rows)
    ensures k.id == "" || k.public == "" || k.private == "" ==> RowsAfter(rows, Add(k)) == rows && Refused(rows, k) == Some(Invalid)
    ensures k.id != "" && k.public != "" && k.private != "" ==>
              (Refused(rows, k) == None <==>
                 k.id !in rows && forall i | i in rows :: rows[i].key.public != k.public && rows[i].key.private != k.private)
    ensures Refused(rows, k) == None ==> ById(RowsAfter(rows, Add(k)), k.id) == Key(k)
  {}

  /** The table keeps its constraints. */
  lemma RowsOkStep(rows: Rows, op: Op)
    requires RowsOk(rows)
    ensures RowsOk(RowsAfter(rows, op))
  {}

  /** What is cached by ID stays right, whatever is evicted and however keys are
      deleted. */
  lemma SoundStep(s: Store, op: Op)
    requires Sound(s)
    ensures Sound(After(s, op))
  {
    RowsOkStep(s.rows, op);
    if op.LookupPublic? && ByPublic(s.rows, op.public).Key? { PublicKey(s.rows, op.public); }
  }

  /** All public-key lookups through the cache give what the table gives. */
  ghost predicate PublicLookupsAgree(rows: Rows, m: Mem)
  {
    forall p | p in m.publics :: Key(m.publics[p]) == ByPublic(rows, p)
  }

  /** The key is live and cached by public key, and the deletion does not clear that
      entry: a public key was given, or the ID is not cached. */
  ghost predicate LeavesStale(rows: Rows, m: Mem, k: KeyPair)
  {
    && k.id in rows && !rows[k.id].deleted && rows[k.id].key.public in m.publics
    && (k.public != "" || k.id !in m.ids)
  }

  lemma DeletedPublic(rows: Rows, id: string, p: string)
    requires RowsOk(rows)
    ensures ByPublic(DeletedRow(rows, id), p) ==
            if id in rows && rows[id].key.public == p then Fail(Deleted) else ByPublic(rows, p)
  {
    var rows' := DeletedRow(rows, id);
    assert RowsOk(rows');
    if i :| i in rows && rows[i].key.public == p {
      PublicUnique(rows, i);
      PublicUnique(rows', i);
    }
  }

  /** Deleting a key keeps public-key lookups right exactly when it clears the
      public entry of a live key or there is none. */
  lemma DeleteExactly(rows: Rows, m: Mem, k: KeyPair)
    requires RowsOk(rows) && IdsAgree(rows, m) && PublicLookupsAgree(rows, m)
    ensures PublicLookupsAgree(DeletedRow(rows, k.id), Dropped(m, k)) <==> !LeavesStale(rows, m, k)
  {
    var rows', m' := DeletedRow(rows, k.id), Dropped(m, k);
    if LeavesStale(rows, m, k) {
      var p := rows[k.id].key.public;
      DeletedPublic(rows, k.id, p);
      assert p in m'.publics;
    } else {
      forall p | p in m'.publics ensures Key(m'.publics[p]) == ByPublic(rows', p) {
        assert Key(m.publics[p]) == ByPublic(rows, p);
        DeletedPublic(rows, k.id, p);
        if k.id in rows && rows[k.id].key.public == p { PublicUnique(rows, k.id); }
      }
    }
  }

  lemma AddAgrees(s: Store, k: KeyPair)
    requires Sound(s) && PublicLookupsAgree(s.rows, s.mem) && Refused(s.rows, k) == None
    ensures PublicLookupsAgree(RowsAfter(s.rows, Add(k)), Filled(s.mem, k))
  {
    var rows', m' := RowsAfter(s.rows, Add(k)), Filled(s.mem, k);
    RowsOkStep(s.rows, Add(k));
    forall p | p in m'.publics ensures Key(m'.publics[p]) == ByPublic(rows', p) {
      if p == k.public {
        PublicUnique(rows', k.id);
      } else {
        PublicKey(s.rows, p);
        PublicUnique(rows', m'.publics[p].id);
      }
    }
  }

  /** Every operation keeps public-key lookups right, exactly unless it is a deletion
      that leaves a stale entry. */
  lemma LookupsStep(s: Store, op: Op)
    requires Sound(s) && PublicLookupsAgree(s.rows, s.mem)
    ensures PublicLookupsAgree(After(s, op).rows, After(s, op).mem) <==> !(op.Delete? && LeavesStale(s.rows, s.mem, op.k))
  {
    match op
    case Delete(k) => DeleteExactly(s.rows, s.mem, k);
    case Add(k) => if Refused(s.rows, k) == None { AddAgrees(s, k); }
    case LookupId(id) => if id in s.rows { PublicUnique(s.rows, id); }
    case LookupPublic(p) => if ByPublic(s.rows, p).Key? { PublicKey(s.rows, p); }
    case _ =>
  }

  /** No deletion of the run leaves a stale entry. */
  ghost predicate StaleFree(s: Store, ops: seq<Op>)
  {
    forall i | 0 <= i < |ops| && ops[i].Delete? ::
      var t := AfterAll(s, ops[..i]); !LeavesStale(t.rows, t.mem, ops[i].k)
  }

  lemma {:induction false} SoundRun(s: Store, ops: seq<Op>, n: nat)
    requires Sound(s) && n <= |ops|
    ensures Sound(AfterAll(s, ops[..n]))
  {
    if n > 0 {
      SoundRun(s, ops, n - 1);
      SoundStep(AfterAll(s, ops[..n - 1]), ops[n - 1]);
      assert ops[..n][..n - 1] == ops[..n - 1];
    }
  }

  /** Over any run without stale deletions, evictions included, public-key lookups are
      right throughout. */
  lemma {:induction false} LookupsRun(s: Store, ops: seq<Op>, n: nat)
    requires Sound(s) && PublicLookupsAgree(s.rows, s.mem) && StaleFree(s, ops) && n <= |ops|
    ensures var t := AfterAll(s, ops[..n]); PublicLookupsAgree(t.rows, t.mem)
  {
    if n > 0 {
      LookupsRun(s, ops, n - 1);
      SoundRun(s, ops, n - 1);
      LookupsStep(AfterAll(s, ops[..n - 1]), ops[n - 1]);
      assert ops[..n][..n - 1] == ops[..n - 1];
    }
  }

  // ------------------------------------------------------------- careful runs

  /** Nothing is evicted and deletions give only the ID. */
  predicate Careful(op: Op) { !op.Lose? && (op.Delete? ==> op.k.public == "") }

  lemma AgreementImpliesLookups(rows: Rows, m: Mem)
    requires RowsOk(rows) && PublicsAgree(rows, m)
    ensures PublicLookupsAgree(rows, m)
  {
    forall p | p in m.publics ensures Key(m.publics[p]) == ByPublic(rows, p) {
      PublicUnique(rows, m.publics[p].id);
    }
  }

  lemma FilledAgrees(rows: Rows, m: Mem, k: KeyPair)
    requires RowsOk(rows) && IdsAgree(rows, m) && PublicsAgree(rows, m)
    requires k.id in rows && rows[k.id] == Row(k, false)
    ensures PublicsAgree(rows, Filled(m, k))
  {}

  /** A cached public key other than that of the deleted key stays live. */
  lemma DroppedLive(rows: Rows, m: Mem, id: string, p: string)
    requires IdsAgree(rows, m) && PublicsAgree(rows, m) && p in Dropped(m, KeyPair(id, "", "")).publics
    ensures LiveEntry(DeletedRow(rows, id), Dropped(m, KeyPair(id, "", "")), p)
  {
    assert LiveEntry(rows, m, p);
  }

  lemma DroppedListed(rows: Rows, m: Mem, id: string, i: string)
    requires RowsOk(rows) && IdsAgree(rows, m) && PublicsAgree(rows, m) && i in m.ids && i != id
    ensures m.ids[i].public in Dropped(m, KeyPair(id, "", "")).publics
  {
    if id in m.ids { DifferentKeys(rows, i, id); }
  }

  lemma DroppedAgrees(rows: Rows, m: Mem, id: string)
    requires RowsOk(rows) && IdsAgree(rows, m) && PublicsAgree(rows, m)
    ensures PublicsAgree(DeletedRow(rows, id), Dropped(m, KeyPair(id, "", "")))
  {
    var rows', m' := DeletedRow(rows, id), Dropped(m, KeyPair(id, "", ""));
    forall p | p in m'.publics ensures LiveEntry(rows', m', p) {
      DroppedLive(rows, m, id, p);
    }
    forall i | i in m'.ids ensures m'.ids[i].public in m'.publics {
      DroppedListed(rows, m, id, i);
    }
  }

  lemma DifferentKeys(rows: Rows, a: string, b: string)
    requires RowsOk(rows) && a in rows && b in rows && a != b
    ensures rows[a].key.public != rows[b].key.public
  {}

  lemma AddedRow(rows: Rows, m: Mem, k: KeyPair)
    requires RowsOk(rows) && IdsAgree(rows, m) && PublicsAgree(rows, m) && Refused(rows, k) == None
    ensures var rows' := RowsAfter(rows, Add(k)); IdsAgree(rows', m) && PublicsAgree(rows', m)
  {}

  /** Careful operations keep the two caches in step with the table. */
  lemma CarefulStep(s: Store, op: Op)
    requires Sound(s) && PublicsAgree(s.rows, s.mem) && Careful(op)
    ensures PublicsAgree(After(s, op).rows, After(s, op).mem)
  {
    match op
    case Add(k) =>
      if Refused(s.rows, k) == None {
        RowsOkStep(s.rows, op);
        AddedRow(s.rows, s.mem, k);
        FilledAgrees(RowsAfter(s.rows, op), s.mem, k);
      }
    case Delete(k) => DroppedAgrees(s.rows, s.mem, k.id);
    case LookupId(id) => if ById(s.rows, id).Key? { FilledAgrees(s.rows, s.mem, ById(s.rows, id).key); }
    case LookupPublic(p) =>
      if ByPublic(s.rows, p).Key? {
        PublicKey(s.rows, p);
        FilledAgrees(s.rows, s.mem, ByPublic(s.rows, p).key);
      }
    case Check(_) =>
  }

  lemma {:induction false} CarefulRun(s: Store, ops: seq<Op>, n: nat)
    requires Sound(s) && PublicsAgree(s.rows, s.mem) && n <= |ops|
    requires forall i | 0 <= i < |ops| :: Careful(ops[i])
    ensures var t := AfterAll(s, ops[..n]); PublicsAgree(t.rows, t.mem)
  {
    if n > 0 {
      CarefulRun(s, ops, n - 1);
      SoundRun(s, ops, n - 1);
      CarefulStep(AfterAll(s, ops[..n - 1]), ops[n - 1]);
      assert ops[..n][..n - 1] == ops[..n - 1];
    }
  }

  /** Careful runs leave nothing stale. */
  lemma CarefulIsStaleFree(s: Store, ops: seq<Op>)
    requires Sound(s) && PublicsAgree(s.rows, s.mem) && forall i | 0 <= i < |ops| :: Careful(ops[i])
    ensures StaleFree(s, ops)
  {
    forall i | 0 <= i < |ops| && ops[i].Delete?
      ensures var t := AfterAll(s, ops[..i]); !LeavesStale(t.rows, t.mem, ops[i].k)
    {
      CarefulRun(s, ops, i);
      SoundRun(s, ops, i);
      var t := AfterAll(s, ops[..i]);
      var id := ops[i].k.id;
      if id in t.rows && !t.rows[id].deleted && t.rows[id].key.public in t.mem.publics {
        AgreementImpliesLookups(t.rows, t.mem);
        PublicUnique(t.rows, id);
        assert t.mem.publics[t.rows[id].key.public] == t.rows[id].key;
      }
    }
  }

  // ----------------------------------------------------------------- the class

  /** CachedStorage over a memory cache and the key table. */
  class CachedStorage {
    var rows: Rows
    var ids: map<string, KeyPair>
    var publics: map<string, KeyPair>

    ghost function Abs(): Store
      reads this
    {
      Store(rows, Mem(ids, publics))
    }

    ghost predicate Valid()
      reads this
    {
      Sound(Abs())
    }

    constructor ()
      ensures Valid() && rows == map[] && PublicsAgree(rows, Abs().mem)
    {
      rows, ids, publics := map[], map[], map[];
    }

    // the memory cache

    method MemAdd(k: KeyPair) returns (ok: bool)
      modifies this`ids, this`publics
      ensures ok <==> Validate(k)
      ensures Abs().mem == if ok then Filled(old(Abs().mem), k) else old(Abs().mem)
    {
      if !Validate(k) { return false; }
      ids := ids[k.id := k];
      publics := publics[k.public := k];
      ok := true;
    }

    /** Deletes by ID; the public entry goes only when no public key is given. */
    method MemDelete(k: KeyPair) returns (ok: bool)
      modifies this`ids, this`publics
      ensures ok <==> k.public != "" || k.id in old(ids)
      ensures Abs().mem == Dropped(old(Abs().mem), k)
    {
      if k.public == "" {
        if k.id !in ids {
          assert ids - {k.id} == ids;
          return false;
        }
        publics := publics - {ids[k.id].public};
      }
      ids := ids - {k.id};
      ok := true;
    }

    // the storage

    method AddKey(k: KeyPair) returns (r: Option<Error>)
      requires Valid()
      modifies this
      ensures Valid() && Abs() == After(old(Abs()), Add(k))
      ensures r == if !Validate(k) then Some(Invalid) else if Clashes(old(rows), k) then Some(Conflict) else None
    {
      SoundStep(Abs(), Add(k));
      if !Validate(k) { return Some(Invalid); }
      if Clashes(rows, k) { return Some(Conflict); }
      rows := rows[k.id := Row(k, false)];
      var ok := MemAdd(k);
      r := None;
    }

    /** Soft deletion of the row, then of the cached key; an ID that is not cached
        is reported as an error although the row has been deleted. */
    method DeleteKey(k: KeyPair) returns (ok: bool)
      requires Valid()
      modifies this
      ensures Valid() && Abs() == After(old(Abs()), Delete(k))
      ensures ok <==> k.public != "" || k.id in old(ids)
    {
      SoundStep(Abs(), Delete(k));
      if k.id in rows {
        rows := rows[k.id := rows[k.id].(deleted := true)];
      }
      ok := MemDelete(k);
    }

    /** An ID lookup through the cache gives what the table gives, error included. */
    method GetKeyFromID(id: string) returns (r: Found)
      requires Valid()
      modifies this
      ensures Valid() && Abs() == After(old(Abs()), LookupId(id))
      ensures r == ById(old(rows), id)
    {
      SoundStep(Abs(), LookupId(id));
      if id in ids { return Key(ids[id]); }
      r := ById(rows, id);
      if r.Fail? { return; }
      var ok := MemAdd(r.key);
    }

    /** The row of a public key in the table. */
    method Find(public: string) returns (r: Found)
      requires Valid()
      ensures r == ByPublic(rows, public)
    {
      r := Fail(NotFound);
      if id :| id in rows && rows[id].key.public == public {
        r := Selected(rows[id]);
        PublicUnique(rows, id);
      }
    }

    /** A public-key lookup gives the cached key, else what the table gives. */
    method GetKeyFromPublic(public: string) returns (r: Found)
      requires Valid()
      modifies this
      ensures Valid() && Abs() == After(old(Abs()), LookupPublic(public))
      ensures r == if public in old(publics) then Key(old(publics)[public]) else ByPublic(old(rows), public)
    {
      SoundStep(Abs(), LookupPublic(public));
      if public in publics { return Key(publics[public]); }
      r := Find(public);
      if r.Fail? { return; }
      PublicKey(rows, public);
      var ok := MemAdd(r.key);
    }

    method IsValid(public: string) returns (ok: bool)
      requires Valid()
      modifies this
      ensures Valid() && Abs() == old(Abs())
      ensures ok <==> public in publics || ByPublic(rows, public).Key?
    {
      if public in publics { return true; }
      var r := Find(public);
      ok := r.Key?;
    }

    /** The memory cache may lose any of its entries at any time. */
    method Evict(anId: Option<string>, aPublic: Option<string>)
      requires Valid()
      modifies this
      ensures Valid() && Abs() == After(old(Abs()), Lose(anId, aPublic))
    {
      SoundStep(Abs(), Lose(anId, aPublic));
      if anId.Some? { ids := ids - {anId.value}; }
      if aPublic.Some? { publics := publics - {aPublic.value}; }
    }

    /** One operation. By ID the answer is the table's; by public key it is when
        lookups agree, and for a deletion exactly when a public key is given or the ID
        is cached. */
    method Perform(op: Op) returns (out: Outcome)
      requires Valid()
      modifies this
      ensures Valid() && Abs() == After(old(Abs()), op)
      ensures op.Delete? ==> out == Removed(op.k.public != "" || op.k.id in old(ids))
      ensures op.Delete? ==> (out == Backend(old(rows), op) <==> op.k.public != "" || op.k.id in old(ids))
      ensures op.Add? || op.LookupId? || op.Lose? ==> out == Backend(old(rows), op)
      ensures (op.LookupPublic? || op.Check?) && old(PublicLookupsAgree(rows, Abs().mem)) ==> out == Backend(old(rows), op)
    {
      match op
      case Add(k) => var r := AddKey(k); out := Added(r);
      case Delete(k) => var ok := DeleteKey(k); out := Removed(ok);
      case LookupId(id) => var r := GetKeyFromID(id); out := Looked(r);
      case LookupPublic(p) => var r := GetKeyFromPublic(p); out := Looked(r);
      case Check(p) => var ok := IsValid(p); out := Checked(ok);
      case Lose(a, p) => Evict(a, p); out := Lost;
    }
  }

  /** The answer the run gave at i is the one the table alone gives there. */
  ghost predicate RightAt(rows: Rows, ops: seq<Op>, outs: seq<Outcome>, i: nat)
    requires i < |ops| && i < |outs|
  {
    outs[i] == Backend(RowsAll(rows, ops[..i]), ops[i])
  }

  /** The operations whose answer does not depend on what is cached. */
  predicate Unaided(op: Op) { op.Add? || op.LookupId? || op.Lose? }

  ghost predicate Right(rows: Rows, ops: seq<Op>, outs: seq<Outcome>, publicToo: bool)
    requires |outs| <= |ops|
  {
    forall i | 0 <= i < |outs| && (Unaided(ops[i]) || (publicToo && !ops[i].Delete?)) :: RightAt(rows, ops, outs, i)
  }

  lemma RightSnoc(rows: Rows, ops: seq<Op>, outs: seq<Outcome>, out: Outcome, publicToo: bool)
    requires |outs| < |ops| && Right(rows, ops, outs, publicToo)
    requires var n := |outs|;
             Unaided(ops[n]) || (publicToo && !ops[n].Delete?) ==> out == Backend(RowsAll(rows, ops[..n]), ops[n])
    ensures Right(rows, ops, outs + [out], publicToo)
  {
    forall i | 0 <= i < |outs + [out]| && (Unaided(ops[i]) || (publicToo && !ops[i].Delete?))
      ensures RightAt(rows, ops, outs + [out], i)
    {
      if i < |outs| { assert RightAt(rows, ops, outs, i); }
    }
  }

  /** Any run of operations refines the table: additions and ID lookups are answered
      as the table alone would, whatever is evicted and however keys are deleted;
      public-key lookups and validity checks are too when no deletion leaves a stale
      entry, in particular when the run is careful. */
  method Drive(c: CachedStorage, ops: seq<Op>) returns (outs: seq<Outcome>)
    requires c.Valid()
    modifies c
    ensures c.Valid() && c.Abs() == AfterAll(old(c.Abs()), ops) && c.rows == RowsAll(old(c.rows), ops)
    ensures |outs| == |ops| && Right(old(c.rows), ops, outs, false)
    ensures StaleFree(old(c.Abs()), ops) && PublicLookupsAgree(old(c.rows), old(c.Abs().mem)) ==>
              Right(old(c.rows), ops, outs, true)
    ensures (forall i | 0 <= i < |ops| :: Careful(ops[i])) && PublicsAgree(old(c.rows), old(c.Abs().mem)) ==>
              Right(old(c.rows), ops, outs, true)
  {
    outs := [];
    ghost var start := c.Abs();
    if (forall i | 0 <= i < |ops| :: Careful(ops[i])) && PublicsAgree(start.rows, start.mem) {
      CarefulIsStaleFree(start, ops);
      AgreementImpliesLookups(start.rows, start.mem);
    }
    ghost var clean := StaleFree(start, ops) && PublicLookupsAgree(start.rows, start.mem);
    for n := 0 to |ops|
      invariant c.Valid() && c.Abs() == AfterAll(start, ops[..n]) && |outs| == n
      invariant Right(start.rows, ops, outs, false) && (clean ==> Right(start.rows, ops, outs, true))
    {
      var out := Advance(c, start, ops, n);
      RightSnoc(start.rows, ops, outs, out, false);
      if clean { RightSnoc(start.rows, ops, outs, out, true); }
      outs := outs + [out];
    }
    assert ops[..|ops|] == ops;
    RowsAlone(start, ops);
  }

  /** One operation of a run. */
  method Advance(c: CachedStorage, ghost start: Store, ops: seq<Op>, n: nat) returns (out: Outcome)
    requires c.Valid() && n < |ops| && Sound(start) && c.Abs() == AfterAll(start, ops[..n])
    modifies c
    ensures c.Valid() && c.Abs() == AfterAll(start, ops[..n + 1])
    ensures var want := Backend(RowsAll(start.rows, ops[..n]), ops[n]);
            && (Unaided(ops[n]) ==> out == want)
            && (StaleFree(start, ops) && PublicLookupsAgree(start.rows, start.mem) && !ops[n].Delete? ==> out == want)
  {
    RowsAlone(start, ops[..n]);
    if StaleFree(start, ops) && PublicLookupsAgree(start.rows, start.mem) { LookupsRun(start, ops, n); }
    assert ops[..n + 1][..n] == ops[..n];
    out := c.Perform(ops[n]);
  }
}
