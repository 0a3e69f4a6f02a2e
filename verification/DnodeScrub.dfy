/** Sending side of dnode: the walk that finds, numbers and stores the callbacks
    held in an argument tree (dnode/scrub.go, dnode/scrubber.go). */
module DnodeScrub {
  import opened Wrappers
  import opened Text

  /** Identity of a local func(*Partial). */
  type Cb = nat

  datatype PathElem = Idx(i: nat) | Key(s: string)

  type Path = seq<PathElem>

  /** The interface value inside a Function: absent, a wrapped local function
      (possibly nil), or a function received from the other side. */
  datatype Caller = NoCaller | Local(cb: Option<Cb>) | Remote(id: nat)

  /** A finite Go value as seen through reflection. The entries of a map come in
      the order in which MapKeys happens to return its (string) keys. */
  datatype Value =
    | Scalar
    | GoFunc
    | Nil
    | Iface(elem: Value)
    | Ptr(target: Value)
    | List(elems: seq<Value>)
    | Dict(entries: seq<Entry>)
    | Fun(caller: Caller)
    | Struct(fields: seq<Field>, methods: seq<Method>)

  datatype Entry = Entry(key: string, value: Value)

  datatype Field = Field(name: string, jsonTag: string, dnodeTag: string,
                         exported: bool, embedded: bool, value: Value)

  /** An exported method of type func(*Partial). */
  datatype Method = Method(name: string, cb: Cb, onPointer: bool)

  /** The JSON tag without its comma-separated options. */
  function TagName(f: Field): string { f.jsonTag[..Index(f.jsonTag, ',')] }

  predicate Skipped(f: Field)
  {
    (!f.exported && !f.embedded) || TagName(f) == "-" || f.dnodeTag == "-"
  }

  function FieldName(f: Field): string
  {
    if TagName(f) == "" then f.name else TagName(f)
  }

  /** The kinds that Scrub walks: at the top, pointers and interfaces are not. */
  predicate Walked(v: Value) { v.List? || v.Struct? || v.Dict? || v.Fun? }

  // ----------------------------------------------------- what a walk finds

  datatype Slot = Slot(path: Path, cb: Cb)

  /** Callbacks found, in order, and whether the walk ended in a panic. */
  datatype Walk = Walk(slots: seq<Slot>, panics: bool)

  function Then(a: Walk, b: Walk): Walk
  {
    if a.panics then a else Walk(a.slots + b.slots, b.panics)
  }

  const NOTHING := Walk([], false)

  lemma ThenAssoc(a: Walk, b: Walk, c: Walk)
    ensures Then(Then(a, b), c) == Then(a, Then(b, c))
  {
    assert (a.slots + b.slots) + c.slots == a.slots + (b.slots + c.slots);
  }

  lemma ThenNothing(a: Walk)
    ensures Then(a, NOTHING) == a
  {
    assert a.slots + [] == a.slots;
  }

  ghost function Collected(v: Value, at: Path): Walk
    decreases v, 0
  {
    match v
    case Scalar => NOTHING
    case Nil => NOTHING
    case GoFunc => Walk([], true)
    case Iface(e) => Collected(e, at)
    case Ptr(e) =>
      if e.Struct? then Then(CollectedFields(e.fields, 0, at), CollectedMethods(e.methods, 0, true, at))
      else if e.Fun? then Walk([], e.caller != NoCaller)
      else Collected(e, at)
    case List(es) => CollectedElems(es, 0, at)
    case Dict(es) => CollectedEntries(es, 0, at)
    case Fun(c) =>
      (match c
       case NoCaller => NOTHING
       case Local(None) => NOTHING
       case Local(Some(cb)) => Walk([Slot(at, cb)], false)
       case Remote(_) => Walk([], true))
    case Struct(fs, ms) => Then(CollectedFields(fs, 0, at), CollectedMethods(ms, 0, false, at))
  }

  ghost function CollectedElems(es: seq<Value>, i: nat, at: Path): Walk
    requires i <= |es|
    decreases es, |es| - i
  {
    if i == |es| then NOTHING
    else Then(Collected(es[i], at + [Idx(i)]), CollectedElems(es, i + 1, at))
  }

  ghost function CollectedEntries(es: seq<Entry>, i: nat, at: Path): Walk
    requires i <= |es|
    decreases es, |es| - i
  {
    if i == |es| then NOTHING
    else Then(Collected(es[i].value, at + [Key(es[i].key)]), CollectedEntries(es, i + 1, at))
  }

  ghost function CollectedFields(fs: seq<Field>, i: nat, at: Path): Walk
    requires i <= |fs|
    decreases fs, |fs| - i
  {
    if i == |fs| then NOTHING
    else
      var f := fs[i];
      var after := CollectedFields(fs, i + 1, at);
      if Skipped(f) then after
      else Then(Collected(f.value, if f.embedded then at else at + [Key(FieldName(f))]), after)
  }

  ghost function CollectedMethods(ms: seq<Method>, i: nat, viaPointer: bool, at: Path): (w: Walk)
    requires i <= |ms|
    ensures !w.panics
    decreases |ms| - i
  {
    if i == |ms| then NOTHING
    else
      var m := ms[i];
      var after := CollectedMethods(ms, i + 1, viaPointer, at);
      if m.onPointer && !viaPointer then after
      else Then(Walk([Slot(at + [Key(LowerFirst(m.name))], m.cb)], false), after)
  }

  // ------------------------------------------ numbering and storing the slots

  /** Counter, table of sent callbacks, and "callbacks" field of the message. */
  datatype Record = Record(next: nat, table: map<nat, Cb>, msg: map<string, Path>)

  function Recorded(r: Record, slots: seq<Slot>): Record
  {
    if slots == [] then r
    else
      var k := |slots| - 1;
      var p := Recorded(r, slots[..k]);
      Record(p.next + 1, p.table[p.next := slots[k].cb], p.msg[Format(p.next) := slots[k].path])
  }

  lemma {:induction false} RecordedConcat(r: Record, a: seq<Slot>, b: seq<Slot>)
    ensures Recorded(r, a + b) == Recorded(Recorded(r, a), b)
  {
    if b == [] {
      assert a + b == a;
    } else {
      var k := |b| - 1;
      RecordedConcat(r, a, b[..k]);
      RecordedLast(r, a, b);
      RecordedSnoc(Recorded(r, a), b[..k], b[k]);
      assert b == b[..k] + [b[k]];
    }
  }

  lemma RecordedSnoc(r: Record, slots: seq<Slot>, s: Slot)
    ensures Recorded(r, slots + [s]) == Recorded(Recorded(r, slots), [s])
  {
    assert (slots + [s])[..|slots|] == slots;
    assert [s][..0] == [];
  }

  lemma RecordedLast(r: Record, a: seq<Slot>, b: seq<Slot>)
    requires b != []
    ensures Recorded(r, a + b) == Recorded(Recorded(r, a + b[..|b| - 1]), [b[|b| - 1]])
  {
    var k := |b| - 1;
    assert a + b == a + b[..k] + [b[k]];
    RecordedSnoc(r, a + b[..k], b[k]);
  }

  /** The new table: IDs form the next consecutive block, each holding its own
      slot's callback; every earlier entry stays as it was. */
  lemma {:induction false} RecordedTable(r: Record, slots: seq<Slot>)
    ensures var q := Recorded(r, slots);
            && q.next == r.next + |slots|
            && (forall id | r.next <= id < q.next :: id in q.table && q.table[id] == slots[id - r.next].cb)
            && (forall id | !(r.next <= id < q.next) ::
                  (id in q.table <==> id in r.table) && (id in r.table ==> q.table[id] == r.table[id]))
  {
    if slots != [] {
      RecordedTable(r, slots[..|slots| - 1]);
    }
  }

  /** The message names every ID of the block, with the path of its own slot. */
  lemma {:induction false} RecordedMsg(r: Record, slots: seq<Slot>, id: nat)
    requires r.next <= id < r.next + |slots|
    ensures var q := Recorded(r, slots);
            Format(id) in q.msg && q.msg[Format(id)] == slots[id - r.next].path
  {
    var k := |slots| - 1;
    RecordedTable(r, slots[..k]);
    if id != r.next + k {
      RecordedMsg(r, slots[..k], id);
      if Format(id) == Format(r.next + k) { FormatInjective(id, r.next + k); }
    }
  }

  /** The message names nothing else. */
  lemma {:induction false} RecordedMsgOnly(r: Record, slots: seq<Slot>, s: string) returns (id: nat)
    requires s in Recorded(r, slots).msg && s !in r.msg
    ensures r.next <= id < r.next + |slots| && s == Format(id)
  {
    var k := |slots| - 1;
    RecordedTable(r, slots[..k]);
    id := r.next + k;
    if s != Format(id) {
      id := RecordedMsgOnly(r, slots[..k], s);
    }
  }

  // ------------------------------------------------------------ the scrubber

  /** The "callbacks" map under construction; Go passes it by reference. */
  class CallbackMap {
    var m: map<string, Path>
    constructor ()
      ensures m == map[]
    {
      m := map[];
    }
  }

  /** Go's append on a slice of length n over the whole of buf: it writes in
      place while there is room and moves to a larger array otherwise. */
  method Append(buf: array<PathElem>, n: nat, x: PathElem) returns (b: array<PathElem>)
    requires n <= buf.Length
    modifies buf
    ensures n < b.Length && b[..n + 1] == old(buf[..n]) + [x]
    ensures buf[..n] == old(buf[..n])
    ensures b == buf || fresh(b)
  {
    if n < buf.Length {
      b := buf;
      b[n] := x;
    } else {
      var room: nat :| n < room;
      b := new PathElem[room](_ => x);
      forall i | 0 <= i < n { b[i] := buf[i]; }
      assert b[..n + 1] == buf[..n] + [x];
    }
  }

  class Scrubber {
    var next: nat
    var callbacks: map<nat, Cb>

    constructor ()
      ensures next == 0 && callbacks == map[]
    {
      next, callbacks := 0, map[];
    }

    ghost function State(out: CallbackMap): Record
      reads this, out
    {
      Record(next, callbacks, out.m)
    }

    /** Numbers one callback and copies its path out of the shared buffer. */
    method Register(cb: Option<Cb>, buf: array<PathElem>, n: nat, out: CallbackMap)
      requires n <= buf.Length
      modifies this, out
      ensures State(out) == if cb == None then old(State(out)) else Recorded(old(State(out)), [Slot(buf[..n], cb.value)])
    {
      if cb == None { return; }
      var id := next;
      next := next + 1;
      callbacks := callbacks[id := cb.value];
      out.m := out.m[Format(id) := buf[..n]];
      ghost var one := [Slot(buf[..n], cb.value)];
      assert one[..0] == [];
    }

    /** Numbers the callback of a method, under its name. */
    method RegisterAt(cb: Cb, buf: array<PathElem>, n: nat, x: PathElem, out: CallbackMap)
      requires n <= buf.Length
      modifies this, out, buf
      ensures buf[..n] == old(buf[..n])
      ensures State(out) == Recorded(old(State(out)), [Slot(old(buf[..n]) + [x], cb)])
    {
      var b := Append(buf, n, x);
      Register(Some(cb), b, n + 1, out);
    }

    method Collect(v: Value, buf: array<PathElem>, n: nat, out: CallbackMap) returns (panicked: bool)
      requires n <= buf.Length
      modifies this, out, buf
      ensures buf[..n] == old(buf[..n])
      ensures var w := Collected(v, old(buf[..n]));
              panicked == w.panics && State(out) == Recorded(old(State(out)), w.slots)
      decreases v, 0
    {
      match v
      case Scalar => panicked := false;
      case Nil => panicked := false;
      case GoFunc => panicked := true;
      case Iface(e) => panicked := Collect(e, buf, n, out);
      case Ptr(e) =>
        if e.Struct? {
          panicked := Members(e.fields, e.methods, true, buf, n, out);
        } else if e.Fun? {
          panicked := e.caller != NoCaller;
        } else {
          panicked := Collect(e, buf, n, out);
        }
      case List(es) => panicked := Elems(es, buf, n, out);
      case Dict(es) => panicked := Entries(es, buf, n, out);
      case Fun(c) =>
        if c.Local? { Register(c.cb, buf, n, out); }
        panicked := c.Remote?;
      case Struct(fs, ms) => panicked := Members(fs, ms, false, buf, n, out);
    }

    method Members(fs: seq<Field>, ms: seq<Method>, viaPointer: bool, buf: array<PathElem>, n: nat, out: CallbackMap)
      returns (panicked: bool)
      requires n <= buf.Length
      modifies this, out, buf
      ensures buf[..n] == old(buf[..n])
      ensures var at := old(buf[..n]);
              var w := Then(CollectedFields(fs, 0, at), CollectedMethods(ms, 0, viaPointer, at));
              panicked == w.panics && State(out) == Recorded(old(State(out)), w.slots)
      decreases fs, |fs| + 1
    {
      panicked := Fields(fs, buf, n, out);
      if !panicked {
        Methods(ms, viaPointer, buf, n, out);
        ghost var at := old(buf[..n]);
        RecordedConcat(old(State(out)), CollectedFields(fs, 0, at).slots, CollectedMethods(ms, 0, viaPointer, at).slots);
      }
    }

    /** The recursive call on a child: append its path element, then walk it. */
    method Descend(v: Value, buf: array<PathElem>, n: nat, x: PathElem, out: CallbackMap) returns (panicked: bool)
      requires n <= buf.Length
      modifies this, out, buf
      ensures buf[..n] == old(buf[..n])
      ensures var w := Collected(v, old(buf[..n]) + [x]);
              panicked == w.panics && State(out) == Recorded(old(State(out)), w.slots)
      decreases v, 1
    {
      var b := Append(buf, n, x);
      ghost var at := b[..n + 1];
      panicked := Collect(v, b, n + 1, out);
      assert b == buf ==> buf[..n] == at[..n];
    }

    method Elems(es: seq<Value>, buf: array<PathElem>, n: nat, out: CallbackMap) returns (panicked: bool)
      requires n <= buf.Length
      modifies this, out, buf
      ensures buf[..n] == old(buf[..n])
      ensures var w := CollectedElems(es, 0, old(buf[..n]));
              panicked == w.panics && State(out) == Recorded(old(State(out)), w.slots)
      decreases es, |es|
    {
      ghost var at, was, done := buf[..n], State(out), NOTHING;
      for i := 0 to |es|
        invariant buf[..n] == at
        invariant !done.panics && State(out) == Recorded(was, done.slots)
        invariant Then(done, CollectedElems(es, i, at)) == CollectedElems(es, 0, at)
      {
        panicked := Descend(es[i], buf, n, Idx(i), out);
        ghost var w := Collected(es[i], at + [Idx(i)]);
        RecordedConcat(was, done.slots, w.slots);
        ThenAssoc(done, w, CollectedElems(es, i + 1, at));
        done := Then(done, w);
        if panicked { return; }
      }
      ThenNothing(done);
      panicked := false;
    }

    method Entries(es: seq<Entry>, buf: array<PathElem>, n: nat, out: CallbackMap) returns (panicked: bool)
      requires n <= buf.Length
      modifies this, out, buf
      ensures buf[..n] == old(buf[..n])
      ensures var w := CollectedEntries(es, 0, old(buf[..n]));
              panicked == w.panics && State(out) == Recorded(old(State(out)), w.slots)
      decreases es, |es|
    {
      ghost var at, was, done := buf[..n], State(out), NOTHING;
      for i := 0 to |es|
        invariant buf[..n] == at
        invariant !done.panics && State(out) == Recorded(was, done.slots)
        invariant Then(done, CollectedEntries(es, i, at)) == CollectedEntries(es, 0, at)
      {
        panicked := Descend(es[i].value, buf, n, Key(es[i].key), out);
        ghost var w := Collected(es[i].value, at + [Key(es[i].key)]);
        RecordedConcat(was, done.slots, w.slots);
        ThenAssoc(done, w, CollectedEntries(es, i + 1, at));
        done := Then(done, w);
        if panicked { return; }
      }
      ThenNothing(done);
      panicked := false;
    }

    method Fields(fs: seq<Field>, buf: array<PathElem>, n: nat, out: CallbackMap) returns (panicked: bool)
      requires n <= buf.Length
      modifies this, out, buf
      ensures buf[..n] == old(buf[..n])
      ensures var w := CollectedFields(fs, 0, old(buf[..n]));
              panicked == w.panics && State(out) == Recorded(old(State(out)), w.slots)
      decreases fs, |fs|
    {
      ghost var at, was, done := buf[..n], State(out), NOTHING;
      for i := 0 to |fs|
        invariant buf[..n] == at
        invariant !done.panics && State(out) == Recorded(was, done.slots)
        invariant Then(done, CollectedFields(fs, i, at)) == CollectedFields(fs, 0, at)
      {
        if Skipped(fs[i]) { continue; }
        ghost var w := Collected(fs[i].value, if fs[i].embedded then at else at + [Key(FieldName(fs[i]))]);
        if fs[i].embedded {
          panicked := Collect(fs[i].value, buf, n, out);
        } else {
          panicked := Descend(fs[i].value, buf, n, Key(FieldName(fs[i])), out);
        }
        RecordedConcat(was, done.slots, w.slots);
        ThenAssoc(done, w, CollectedFields(fs, i + 1, at));
        done := Then(done, w);
        if panicked { return; }
      }
      ThenNothing(done);
      panicked := false;
    }

    method Methods(ms: seq<Method>, viaPointer: bool, buf: array<PathElem>, n: nat, out: CallbackMap)
      requires n <= buf.Length
      modifies this, out, buf
      ensures buf[..n] == old(buf[..n])
      ensures State(out) == Recorded(old(State(out)), CollectedMethods(ms, 0, viaPointer, old(buf[..n])).slots)
    {
      ghost var at, was, done := buf[..n], State(out), NOTHING;
      for i := 0 to |ms|
        invariant buf[..n] == at
        invariant !done.panics && State(out) == Recorded(was, done.slots)
        invariant Then(done, CollectedMethods(ms, i, viaPointer, at)) == CollectedMethods(ms, 0, viaPointer, at)
      {
        if ms[i].onPointer && !viaPointer { continue; }
        var x := Key(LowerFirst(ms[i].name));
        RegisterAt(ms[i].cb, buf, n, x, out);
        ghost var w := Walk([Slot(at + [x], ms[i].cb)], false);
        RecordedConcat(was, done.slots, w.slots);
        ThenAssoc(done, w, CollectedMethods(ms, i + 1, viaPointer, at));
        done := Then(done, w);
      }
      ThenNothing(done);
    }

    /** Scrubs an argument. Only arrays, slices, structs and maps are walked. */
    method Scrub(v: Value) returns (res: Option<map<string, Path>>, panicked: bool)
      modifies this
      ensures !Walked(v) ==> !panicked && res == None && next == old(next) && callbacks == old(callbacks)
      ensures Walked(v) ==>
                var w := Collected(v, []);
                var r := Recorded(Record(old(next), old(callbacks), map[]), w.slots);
                && panicked == w.panics
                && next == r.next && callbacks == r.table
                && (!panicked ==> res == Some(r.msg))
    {
      if !Walked(v) {
        return None, false;
      }
      var out := new CallbackMap();
      var buf := new PathElem[0];
      assert buf[..0] == [];
      panicked := Collect(v, buf, 0, out);
      res := if panicked then None else Some(out.m);
    }
  }
}
