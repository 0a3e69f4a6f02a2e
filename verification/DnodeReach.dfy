/** An independent account of which callbacks an argument tree holds and where,
    and the proof that the scrubbing walk records exactly those. */
module DnodeReach {
  import opened Wrappers
  import opened Text
  import opened DnodeScrub

  /** Following path p from v ends at callback cb. */
  ghost predicate Holds(v: Value, p: Path, cb: Cb)
    decreases v
  {
    match v
    case Scalar => false
    case Nil => false
    case GoFunc => false
    case Iface(e) => Holds(e, p, cb)
    case Ptr(e) =>
      if e.Struct? then FieldHolds(e.fields, 0, p, cb) || MethodHolds(e.methods, true, p, cb)
      else !e.Fun? && Holds(e, p, cb)
    case List(es) => p != [] && p[0].Idx? && p[0].i < |es| && Holds(es[p[0].i], p[1..], cb)
    case Dict(es) => p != [] && exists k | 0 <= k < |es| :: p[0] == Key(es[k].key) && Holds(es[k].value, p[1..], cb)
    case Fun(c) => p == [] && c == Local(Some(cb))
    case Struct(fs, ms) => FieldHolds(fs, 0, p, cb) || MethodHolds(ms, false, p, cb)
  }

  /** For the fields from i on: an embedded field adds nothing to the path; any other
      adds its name. */
  ghost predicate FieldHolds(fs: seq<Field>, i: nat, p: Path, cb: Cb)
    decreases fs
  {
    exists k | i <= k < |fs| ::
      && !Skipped(fs[k])
      && if fs[k].embedded then Holds(fs[k].value, p, cb)
         else p != [] && p[0] == Key(FieldName(fs[k])) && Holds(fs[k].value, p[1..], cb)
  }

  ghost predicate MethodHolds(ms: seq<Method>, viaPointer: bool, p: Path, cb: Cb)
  {
    exists k | 0 <= k < |ms| ::
      (viaPointer || !ms[k].onPointer) && p == [Key(LowerFirst(ms[k].name))] && ms[k].cb == cb
  }

  /** v holds something that cannot be sent: a bare function, a function received
      from the other side, or a pointer to a Function that is set. */
  ghost predicate Unsendable(v: Value)
    decreases v
  {
    match v
    case Scalar => false
    case Nil => false
    case GoFunc => true
    case Iface(e) => Unsendable(e)
    case Ptr(e) => if e.Fun? then e.caller != NoCaller else Unsendable(e)
    case List(es) => exists k | 0 <= k < |es| :: Unsendable(es[k])
    case Dict(es) => exists k | 0 <= k < |es| :: Unsendable(es[k].value)
    case Fun(c) => c.Remote?
    case Struct(fs, _) => exists k | 0 <= k < |fs| :: !Skipped(fs[k]) && Unsendable(fs[k].value)
  }

  // ----------------------------------------------------------------- panics

  /** Scrubbing panics exactly on trees that hold something unsendable. */
  lemma {:induction false} PanicsExactly(v: Value, at: Path)
    ensures Collected(v, at).panics <==> Unsendable(v)
    decreases v, 0
  {
    match v
    case Iface(e) => PanicsExactly(e, at);
    case Ptr(e) =>
      if e.Struct? { PanicsFields(e.fields, 0, at); }
      else if !e.Fun? { PanicsExactly(e, at); }
    case List(es) => PanicsElems(es, 0, at);
    case Dict(es) => PanicsEntries(es, 0, at);
    case Struct(fs, _) => PanicsFields(fs, 0, at);
    case _ =>
  }

  lemma {:induction false} PanicsElems(es: seq<Value>, i: nat, at: Path)
    requires i <= |es|
    ensures CollectedElems(es, i, at).panics <==> exists k | i <= k < |es| :: Unsendable(es[k])
    decreases es, |es| - i
  {
    if i < |es| {
      PanicsExactly(es[i], at + [Idx(i)]);
      PanicsElems(es, i + 1, at);
    }
  }

  lemma {:induction false} PanicsEntries(es: seq<Entry>, i: nat, at: Path)
    requires i <= |es|
    ensures CollectedEntries(es, i, at).panics <==> exists k | i <= k < |es| :: Unsendable(es[k].value)
    decreases es, |es| - i
  {
    if i < |es| {
      PanicsExactly(es[i].value, at + [Key(es[i].key)]);
      PanicsEntries(es, i + 1, at);
    }
  }

  lemma {:induction false} PanicsFields(fs: seq<Field>, i: nat, at: Path)
    requires i <= |fs|
    ensures CollectedFields(fs, i, at).panics <==> exists k | i <= k < |fs| :: !Skipped(fs[k]) && Unsendable(fs[k].value)
    decreases fs, |fs| - i
  {
    if i < |fs| {
      PanicsExactly(fs[i].value, if fs[i].embedded then at else at + [Key(FieldName(fs[i]))]);
      PanicsFields(fs, i + 1, at);
    }
  }

  // -------------------------------------------------------------- exactness

  /** The walk from `at` records a slot iff the callback is reachable from there
      along the rest of the slot's path. */
  lemma {:induction false} CollectedExactly(v: Value, at: Path, p: Path, cb: Cb)
    requires !Collected(v, at).panics
    ensures Slot(p, cb) in Collected(v, at).slots <==> at <= p && Holds(v, p[|at|..], cb)
    decreases v, 0
  {
    match v
    case Iface(e) => CollectedExactly(e, at, p, cb);
    case Ptr(e) =>
      if e.Struct? {
        ExactFields(e.fields, 0, at, p, cb);
        ExactMethods(e.methods, 0, true, at, p, cb);
      } else if !e.Fun? { CollectedExactly(e, at, p, cb); }
    case List(es) => ExactElems(es, 0, at, p, cb);
    case Dict(es) => ExactEntries(es, 0, at, p, cb);
    case Fun(c) => assert at <= p && p[|at|..] == [] ==> p == at;
    case Struct(fs, ms) =>
      ExactFields(fs, 0, at, p, cb);
      ExactMethods(ms, 0, false, at, p, cb);
    case _ =>
  }

  /** Extending the starting path by one element peels one element off the rest. */
  lemma PrefixStep(at: Path, x: PathElem, p: Path)
    ensures at + [x] <= p <==> at <= p && p[|at|..] != [] && p[|at|..][0] == x
    ensures at + [x] <= p ==> p[|at + [x]|..] == p[|at|..][1..]
  {
    if at <= p && |p| > |at| && p[|at|] == x {
      assert p[..|at| + 1] == at + [x];
    }
    if at + [x] <= p {
      assert at == (at + [x])[..|at|];
      assert p[|at|] == (at + [x])[|at|];
    }
  }

  lemma {:induction false} ExactElems(es: seq<Value>, i: nat, at: Path, p: Path, cb: Cb)
    requires i <= |es| && !CollectedElems(es, i, at).panics
    ensures var q := if at <= p then p[|at|..] else [];
            Slot(p, cb) in CollectedElems(es, i, at).slots <==>
              at <= p && q != [] && q[0].Idx? && i <= q[0].i < |es| && Holds(es[q[0].i], q[1..], cb)
    decreases es, |es| - i
  {
    if i < |es| {
      PrefixStep(at, Idx(i), p);
      CollectedExactly(es[i], at + [Idx(i)], p, cb);
      ExactElems(es, i + 1, at, p, cb);
    }
  }

  lemma {:induction false} ExactEntries(es: seq<Entry>, i: nat, at: Path, p: Path, cb: Cb)
    requires i <= |es| && !CollectedEntries(es, i, at).panics
    ensures var q := if at <= p then p[|at|..] else [];
            Slot(p, cb) in CollectedEntries(es, i, at).slots <==>
              at <= p && q != [] && exists k | i <= k < |es| :: q[0] == Key(es[k].key) && Holds(es[k].value, q[1..], cb)
    decreases es, |es| - i
  {
    if i < |es| {
      PrefixStep(at, Key(es[i].key), p);
      CollectedExactly(es[i].value, at + [Key(es[i].key)], p, cb);
      ExactEntries(es, i + 1, at, p, cb);
    }
  }

  lemma {:induction false} ExactFields(fs: seq<Field>, i: nat, at: Path, p: Path, cb: Cb)
    requires i <= |fs| && !CollectedFields(fs, i, at).panics
    ensures Slot(p, cb) in CollectedFields(fs, i, at).slots <==> at <= p && FieldHolds(fs, i, p[|at|..], cb)
    decreases fs, |fs| - i
  {
    if i < |fs| {
      var f := fs[i];
      PrefixStep(at, Key(FieldName(f)), p);
      if !Skipped(f) {
        CollectedExactly(f.value, if f.embedded then at else at + [Key(FieldName(f))], p, cb);
      }
      ExactFields(fs, i + 1, at, p, cb);
    }
  }

  lemma {:induction false} ExactMethods(ms: seq<Method>, i: nat, viaPointer: bool, at: Path, p: Path, cb: Cb)
    requires i <= |ms|
    ensures Slot(p, cb) in CollectedMethods(ms, i, viaPointer, at).slots <==>
              at <= p && exists k | i <= k < |ms| ::
                     (viaPointer || !ms[k].onPointer) && p[|at|..] == [Key(LowerFirst(ms[k].name))] && ms[k].cb == cb
    decreases |ms| - i
  {
    if i < |ms| {
      var x := Key(LowerFirst(ms[i].name));
      PrefixStep(at, x, p);
      assert p == at + [x] <==> at <= p && p[|at|..] == [x];
      ExactMethods(ms, i + 1, viaPointer, at, p, cb);
    }
  }
}
