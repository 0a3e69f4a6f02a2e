/** The key pair cache under concurrent operations: between reading a key from the
    table and caching it, or deleting its row and dropping it from the cache, other
    operations may run (kontrol/keypair.go). */
module KeyRace {
  import opened Wrappers
  import opened KeyCache

  /** Table and caches, keys that are yet to be put into the caches, and deletions that
      are yet to reach them. */
  datatype Flight = Flight(store: Store, fills: seq<KeyPair>, drops: seq<KeyPair>)

  datatype Step =
    | Read(id: string)
    | ReadPublic(public: string)
    | AddRow(k: KeyPair)
    | Fill(i: nat)
    | DeleteRow(k: KeyPair)
    | Drop(i: nat)
    | Evict(anId: Option<string>, aPublic: Option<string>)

  /** Lookups that hit the cache or fail in the table change nothing and are left out. */
  ghost predicate Enabled(s: Flight, step: Step)
  {
    match step
    case Read(id) => id !in s.store.mem.ids && ById(s.store.rows, id).Key?
    case ReadPublic(p) => p !in s.store.mem.publics && ByPublic(s.store.rows, p).Key?
    case AddRow(k) => KeyCache.Refused(s.store.rows, k) == None
    case Fill(i) => i < |s.fills|
    case DeleteRow(_) => true
    case Drop(i) => i < |s.drops|
    case Evict(_, _) => true
  }

  function Without<T>(s: seq<T>, i: nat): seq<T>
    requires i < |s|
  {
    s[..i] + s[i + 1..]
  }

  ghost function Next(s: Flight, step: Step): Flight
    requires Enabled(s, step)
  {
    var rows, mem := s.store.rows, s.store.mem;
    match step
    case Read(id) => s.(fills := s.fills + [ById(rows, id).key])
    case ReadPublic(p) => s.(fills := s.fills + [ByPublic(rows, p).key])
    case AddRow(k) => s.(store := Store(RowsAfter(rows, Add(k)), mem), fills := s.fills + [k])
    case Fill(i) => s.(store := Store(rows, Filled(mem, s.fills[i])), fills := Without(s.fills, i))
    case DeleteRow(k) => s.(store := Store(DeletedRow(rows, k.id), mem), drops := s.drops + [k])
    case Drop(i) => s.(store := Store(rows, Dropped(mem, s.drops[i])), drops := Without(s.drops, i))
    case Evict(anId, aPublic) => s.(store := After(s.store, Lose(anId, aPublic)))
  }

  /** Operations whose parts are not interrupted are those of the cache one by one. */
  lemma UninterruptedIsOneByOne(s: Flight, step: Step)
    requires Enabled(s, step) && s.fills == [] && s.drops == [] && !step.Fill? && !step.Drop?
    ensures var s' := Next(s, step);
            match step
            case Read(id) => Next(s', Fill(0)).store == After(s.store, LookupId(id))
            case ReadPublic(p) => Next(s', Fill(0)).store == After(s.store, LookupPublic(p))
            case AddRow(k) => Next(s', Fill(0)).store == After(s.store, Add(k))
            case DeleteRow(k) => Next(s', Drop(0)).store == After(s.store, Delete(k))
            case Evict(anId, aPublic) => s'.store == After(s.store, Lose(anId, aPublic))
            case _ => true
  {}

  /** What is under way may land at any time and in any order: a fill caches its key
      under both names, a drop takes its ID out of the cache. */
  lemma LandsAtAnyTime(s: Flight, i: nat)
    ensures i < |s.fills| ==>
              Enabled(s, Fill(i)) && var k, m := s.fills[i], Next(s, Fill(i)).store.mem;
              k.id in m.ids && m.ids[k.id] == k && k.public in m.publics && m.publics[k.public] == k
    ensures i < |s.drops| ==> Enabled(s, Drop(i)) && s.drops[i].id !in Next(s, Drop(i)).store.mem.ids
  {}

  /** An operation may begin whatever is under way, unless on its own it would change
      nothing; a deletion always may. */
  lemma BeginsUnlessIdle(s: Flight, id: string, public: string, k: KeyPair)
    requires RowsOk(s.store.rows)
    ensures Enabled(s, Read(id)) <==> After(s.store, LookupId(id)) != s.store
    ensures Enabled(s, ReadPublic(public)) <==> After(s.store, LookupPublic(public)) != s.store
    ensures Enabled(s, AddRow(k)) <==> After(s.store, Add(k)) != s.store
    ensures Enabled(s, DeleteRow(k))
  {
    if Enabled(s, ReadPublic(public)) {
      PublicKey(s.store.rows, public);
      assert public in After(s.store, LookupPublic(public)).mem.publics;
    }
    if Enabled(s, Read(id)) { assert id in After(s.store, LookupId(id)).mem.ids; }
    if Enabled(s, AddRow(k)) { assert k.id !in s.store.rows && k.id in RowsAfter(s.store.rows, Add(k)); }
  }

  /** Cached keys and keys on their way into the caches are those of their rows. */
  ghost predicate Inv(s: Flight)
  {
    && RowsOk(s.store.rows)
    && (forall id | id in s.store.mem.ids :: id in s.store.rows && s.store.rows[id].key == s.store.mem.ids[id])
    && (forall i | 0 <= i < |s.fills| :: s.fills[i].id in s.store.rows && s.store.rows[s.fills[i].id].key == s.fills[i])
  }

  lemma InvAdd(s: Flight, k: KeyPair)
    requires Inv(s) && Enabled(s, AddRow(k))
    ensures Inv(Next(s, AddRow(k)))
  {
    RowsOkStep(s.store.rows, Add(k));
  }

  lemma InvDelete(s: Flight, k: KeyPair)
    requires Inv(s)
    ensures Inv(Next(s, DeleteRow(k)))
  {
    RowsOkStep(s.store.rows, Delete(k));
  }

  lemma InvFill(s: Flight, i: nat)
    requires Inv(s) && Enabled(s, Fill(i))
    ensures Inv(Next(s, Fill(i)))
  {}

  lemma InvStep(s: Flight, step: Step)
    requires Inv(s) && Enabled(s, step)
    ensures Inv(Next(s, step))
  {
    match step
    case ReadPublic(p) => PublicKey(s.store.rows, p);
    case AddRow(k) => InvAdd(s, k);
    case DeleteRow(k) => InvDelete(s, k);
    case Fill(i) => InvFill(s, i);
    case _ =>
  }

  predicate Dropping(s: Flight, id: string) { exists i | 0 <= i < |s.drops| :: s.drops[i].id == id }

  /** A deleted key is cached by ID only as long as its deletion is under way. */
  ghost predicate Fleeting(s: Flight)
    requires Inv(s)
  {
    forall id | id in s.store.mem.ids :: !s.store.rows[id].deleted || Dropping(s, id)
  }

  /** The key was deleted, and the deletion done with, before it is cached. */
  ghost predicate Late(s: Flight, step: Step)
    requires Inv(s) && Enabled(s, step)
  {
    step.Fill? && var id := s.fills[step.i].id; s.store.rows[id].deleted && !Dropping(s, id)
  }

  lemma StillDropping(s: Flight, i: nat, id: string)
    requires i < |s.drops| && Dropping(s, id) && s.drops[i].id != id
    ensures exists j | 0 <= j < |Without(s.drops, i)| :: Without(s.drops, i)[j].id == id
  {
    var j :| 0 <= j < |s.drops| && s.drops[j].id == id;
    var d := if j < i then j else j - 1;
    assert Without(s.drops, i)[d] == s.drops[j];
  }

  lemma FleetingDelete(s: Flight, k: KeyPair)
    requires Inv(s) && Fleeting(s)
    ensures Inv(Next(s, DeleteRow(k))) && Fleeting(Next(s, DeleteRow(k)))
  {
    var s' := Next(s, DeleteRow(k));
    InvStep(s, DeleteRow(k));
    assert s'.drops[|s.drops|] == k;
    forall id | id in s'.store.mem.ids ensures !s'.store.rows[id].deleted || Dropping(s', id) {
      if Dropping(s, id) {
        var j :| 0 <= j < |s.drops| && s.drops[j].id == id;
        assert s'.drops[j] == s.drops[j];
      }
    }
  }

  /** Every step keeps deleted keys fleeting, exactly unless it caches a key late. */
  lemma FleetingStep(s: Flight, step: Step)
    requires Inv(s) && Fleeting(s) && Enabled(s, step)
    ensures Inv(Next(s, step)) && (Fleeting(Next(s, step)) <==> !Late(s, step))
  {
    var s' := Next(s, step);
    InvStep(s, step);
    match step
    case DeleteRow(k) => FleetingDelete(s, k);
    case Drop(i) =>
      forall id | id in s'.store.mem.ids ensures !s'.store.rows[id].deleted || Dropping(s', id) {
        if Dropping(s, id) { StillDropping(s, i, id); }
      }
    case Fill(i) => assert s'.drops == s.drops;
    case _ =>
      assert s'.drops == s.drops;
      forall id | id in s'.store.mem.ids ensures !s'.store.rows[id].deleted || Dropping(s', id) {
        assert id in s.store.mem.ids;
      }
  }

  /** A step that is not late. */
  ghost predicate LinkedAt(run: seq<Flight>, i: nat)
    requires i < |run| - 1
  {
    Inv(run[i]) && exists step :: Enabled(run[i], step) && !Late(run[i], step) && run[i + 1] == Next(run[i], step)
  }

  /** Over every interleaving in which no key is cached late, ID lookups are right
      whenever no deletion is under way. */
  lemma RightBetweenDeletions(run: seq<Flight>)
    requires run != [] && Inv(run[0]) && Fleeting(run[0]) && forall i | 0 <= i < |run| - 1 :: LinkedAt(run, i)
    ensures forall i | 0 <= i < |run| && run[i].drops == [] :: Sound(run[i].store)
  {
    for i := 1 to |run|
      invariant Inv(run[i - 1]) && Fleeting(run[i - 1])
      invariant forall k | 0 <= k < i && run[k].drops == [] :: Sound(run[k].store)
    {
      assert LinkedAt(run, i - 1);
      var step :| Enabled(run[i - 1], step) && !Late(run[i - 1], step) && run[i] == Next(run[i - 1], step);
      FleetingStep(run[i - 1], step);
    }
  }

  /** Nothing is under way, and a deleted key is cached by ID. */
  ghost predicate Stuck(s: Flight, id: string)
  {
    s.fills == [] && s.drops == [] && id in s.store.rows && s.store.rows[id].deleted && id in s.store.mem.ids
  }

  /** Late caching does occur: a lookup that has read the row of any live key that is not
      cached can be overtaken by its deletion. */
  lemma LookupOvertaken(s: Flight, id: string)
    requires Inv(s) && s.fills == [] && s.drops == [] && Enabled(s, Read(id))
    ensures exists s1, s2, s3, s4 ::
              && s1 == Next(s, Read(id)) && s2 == Next(s1, DeleteRow(KeyPair(id, "", "")))
              && Enabled(s2, Drop(0)) && s3 == Next(s2, Drop(0))
              && Enabled(s3, Fill(0)) && s4 == Next(s3, Fill(0)) && Stuck(s4, id)
  {
    var s1 := Next(s, Read(id));
    var s2 := Next(s1, DeleteRow(KeyPair(id, "", "")));
    var s3 := Next(s2, Drop(0));
    var s4 := Next(s3, Fill(0));
    assert s4.fills == [] && s4.drops == [];
    assert Stuck(s4, id);
  }
}
