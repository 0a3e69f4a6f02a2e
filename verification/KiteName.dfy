/** Kite names: the seven-field identity of a kite, its string form, and the keys
    under which it is stored (protocol/protocol.go, kontrol/node.go, kontrol/etcd.go). */
module KiteName {
  import opened Wrappers
  import opened Text

  datatype Kite = Kite(username: string, environment: string, name: string, version: string,
                       region: string, hostname: string, id: string)

  /** The fields from general to specific. */
  function Values(k: Kite): (vs: seq<string>)
    ensures |vs| == 7
  {
    [k.username, k.environment, k.name, k.version, k.region, k.hostname, k.id]
  }

  function FromValues(vs: seq<string>): Kite
    requires |vs| == 7
  {
    Kite(vs[0], vs[1], vs[2], vs[3], vs[4], vs[5], vs[6])
  }

  function String(k: Kite): string
  {
    "/" + k.username + "/" + k.environment + "/" + k.name + "/" + k.version
    + "/" + k.region + "/" + k.hostname + "/" + k.id
  }

  /** Missing fields become empty. */
  function Padded(fields: seq<string>): (r: seq<string>)
    requires |fields| <= 7
    ensures |r| == 7
  {
    fields + seq(7 - |fields|, _ => "")
  }

  function KiteFromString(s: string): Result<Kite>
  {
    if s == "" || s[0] != '/' then Err
    else Ok(FromValues(Padded(SplitN(s[1..], '/', 7))))
  }

  predicate OccursAt(s: string, t: string, i: int)
  {
    0 <= i <= |s| - |t| && s[i..i + |t|] == t
  }

  predicate Contains(s: string, t: string)
  {
    exists i | 0 <= i <= |s| :: OccursAt(s, t, i)
  }

  predicate Validate(k: Kite)
  {
    !Contains(String(k), "//") && Count(String(k), '/') == 7
  }

  // ------------------------------------------------------------------ codec

  lemma JoinCons(v: string, vs: seq<string>)
    requires vs != []
    ensures Join([v] + vs, '/') == v + "/" + Join(vs, '/')
  {
    assert ([v] + vs)[1..] == vs;
  }

  lemma JoinThree(a: string, b: string, c: string, vs: seq<string>)
    requires vs != []
    ensures Join([a, b, c] + vs, '/') == a + "/" + (b + "/" + (c + "/" + Join(vs, '/')))
  {
    JoinCons(c, vs);
    JoinCons(b, [c] + vs);
    JoinCons(a, [b] + ([c] + vs));
    assert [a, b, c] + vs == [a] + ([b] + ([c] + vs));
  }

  lemma StringIsJoin(k: Kite)
    ensures String(k) == "/" + Join(Values(k), '/')
  {
    var tail := [k.version, k.region, k.hostname] + [k.id];
    JoinThree(k.version, k.region, k.hostname, [k.id]);
    JoinThree(k.username, k.environment, k.name, tail);
    assert Values(k) == [k.username, k.environment, k.name] + tail;
    Grouped(k, k.version + "/" + (k.region + "/" + (k.hostname + "/" + k.id)));
  }

  lemma Grouped(k: Kite, tail: string)
    requires tail == k.version + "/" + (k.region + "/" + (k.hostname + "/" + k.id))
    ensures String(k) == "/" + (k.username + "/" + (k.environment + "/" + (k.name + "/" + tail)))
  {
    var head := "/" + k.username + "/" + k.environment + "/" + k.name;
    Slashes(k.username, k.environment, k.name, tail);
    assert head + "/" + tail == String(k);
  }

  /** Grouping from the left or from the right. */
  lemma Slashes(a: string, b: string, c: string, d: string)
    ensures "/" + a + "/" + b + "/" + c + "/" + d == "/" + (a + "/" + (b + "/" + (c + "/" + d)))
  {}

  predicate SlashFree(k: Kite) { Free(Values(k), '/') }

  lemma ParseJoined(vs: seq<string>)
    requires |vs| == 7
    ensures Padded(SplitN(Join(vs, '/'), '/', 7)) == vs <==> FreeTo(vs, 6, '/')
  {
    if FreeTo(vs, 6, '/') {
      SplitNJoin(vs, '/', 7);
      assert Padded(vs) == vs;
    }
    PaddedFree(Join(vs, '/'));
  }

  lemma ValuesInjective(a: Kite, b: Kite)
    ensures a == b <==> Values(a) == Values(b)
  {
    if Values(a) == Values(b) {
      assert forall i | 0 <= i < 7 :: Values(a)[i] == Values(b)[i];
    }
  }

  /** Parsing a printed kite gives it back exactly when no field but the last
      holds a slash. */
  lemma ParseAfterPrint(k: Kite)
    ensures KiteFromString(String(k)) == Ok(k) <==> FreeTo(Values(k), 6, '/')
  {
    StringIsJoin(k);
    assert String(k)[1..] == Join(Values(k), '/');
    ParseSlashed(String(k), k);
  }

  lemma ParseSlashed(s: string, k: Kite)
    requires s != "" && s[0] == '/' && s[1..] == Join(Values(k), '/')
    ensures KiteFromString(s) == Ok(k) <==> FreeTo(Values(k), 6, '/')
  {
    ParseJoined(Values(k));
    SameValues(Padded(SplitN(s[1..], '/', 7)), k);
  }

  lemma SameValues(vs: seq<string>, k: Kite)
    requires |vs| == 7
    ensures FromValues(vs) == k <==> vs == Values(k)
  {
    assert Values(FromValues(vs)) == vs;
  }

  lemma PaddedFree(s: string)
    ensures FreeTo(Padded(SplitN(s, '/', 7)), 6, '/')
  {
    SplitNFree(s, '/', 7);
  }

  lemma {:induction false} SplitNCount(s: string, c: char, n: nat)
    requires n > 0
    ensures |SplitN(s, c, n)| == if Count(s, c) + 1 < n then Count(s, c) + 1 else n
    decreases n
  {
    if Index(s, c) < |s| {
      CountCut(s, c);
      if n > 1 { SplitNCount(s[Index(s, c) + 1..], c, n - 1); }
    } else {
      CountZero(s, c);
      assert s[..|s|] == s;
    }
  }

  /** Parsing takes any string that starts with a slash, and nothing else. */
  lemma ParseRefuses(s: string)
    ensures KiteFromString(s).Err? <==> !("/" <= s)
  {
    assert s != "" ==> ("/" <= s <==> s[..1] == "/");
  }

  /** A string of fewer fields sets the first ones, in order, and leaves the others empty. */
  lemma ParsedFields(parts: seq<string>, i: nat)
    requires 1 <= |parts| <= 7 && Free(parts, '/') && i < 7
    ensures var k := KiteFromString("/" + Join(parts, '/'));
            k.Ok? && Values(k.value)[i] == if i < |parts| then parts[i] else ""
  {
    SplitNJoin(parts, '/', 7);
    ParseSplit(Join(parts, '/'));
    SameValues(Padded(parts), FromValues(Padded(parts)));
  }

  lemma ParseSplit(t: string)
    ensures KiteFromString("/" + t) == Ok(FromValues(Padded(SplitN(t, '/', 7))))
  {
    assert ("/" + t)[1..] == t;
  }

  /** Printing a parsed string gives it back exactly when the string starts with a
      slash and has at least seven of them. */
  lemma PrintAfterParse(s: string)
    ensures (KiteFromString(s).Ok? && String(KiteFromString(s).value) == s) <==>
            (s != "" && s[0] == '/' && Count(s, '/') >= 7)
  {
    if s != "" && s[0] == '/' {
      var vs := Padded(SplitN(s[1..], '/', 7));
      SameValues(vs, FromValues(vs));
      StringIsJoin(FromValues(vs));
      JoinPadded(s[1..]);
      assert "/" + Join(vs, '/') == s <==> Join(vs, '/') == s[1..] by {
        assert ("/" + Join(vs, '/'))[1..] == Join(vs, '/');
      }
    }
  }

  /** Joining the padded parts of a string gives it back iff none had to be added. */
  lemma JoinPadded(t: string)
    ensures Join(Padded(SplitN(t, '/', 7)), '/') == t <==> Count(t, '/') >= 6
  {
    var parts := SplitN(t, '/', 7);
    SplitNCount(t, '/', 7);
    if |parts| == 7 {
      JoinSplitN(t, '/', 7);
      assert Padded(parts) == parts;
    } else {
      CountJoin(Padded(parts), '/');
    }
  }

  // -------------------------------------------------------------- validation

  /** Two slashes meet inside joined fields iff they meet inside a field, or a
      field starts or ends with a slash, or an inner field is empty; with slash-free
      fields only the last remains. */
  lemma {:induction false} DoubleSlash(vs: seq<string>)
    requires vs != [] && Free(vs, '/')
    ensures Contains("/" + Join(vs, '/'), "//") <==> exists i | 0 <= i < |vs| - 1 :: vs[i] == ""
  {
    var s := "/" + Join(vs, '/');
    if |vs| == 1 {
      forall i | 0 <= i <= |s| ensures !OccursAt(s, "//", i) {
        Pair(s, i);
        if i + 1 < |s| { assert s[i + 1] == vs[0][i]; }
      }
    } else {
      var rest := "/" + Join(vs[1..], '/');
      DoubleSlash(vs[1..]);
      assert s == "/" + vs[0] + rest;
      ShiftedPair(vs[0], rest);
      assert (exists i | 0 <= i < |vs| - 1 :: vs[i] == "") <==>
             (vs[0] == "" || exists i | 0 <= i < |vs[1..]| - 1 :: vs[1..][i] == "") by {
        if i :| 0 <= i < |vs[1..]| - 1 && vs[1..][i] == "" { assert vs[i + 1] == ""; }
        if i :| 0 < i < |vs| - 1 && vs[i] == "" { assert vs[1..][i - 1] == ""; }
      }
    }
  }

  lemma Pair(s: string, i: int)
    requires 0 <= i <= |s|
    ensures OccursAt(s, "//", i) <==> i + 1 < |s| && s[i] == '/' && s[i + 1] == '/'
  {
    if i + 1 < |s| { assert s[i..i + 2] == [s[i], s[i + 1]]; }
  }

  lemma ShiftedPair(a: string, rest: string)
    requires '/' !in a && rest != "" && rest[0] == '/'
    ensures Contains("/" + a + rest, "//") <==> a == "" || Contains(rest, "//")
  {
    var s, d := "/" + a + rest, 1 + |a|;
    if a == "" {
      Pair(s, 0);
    } else {
      forall i | 0 <= i <= |s| ensures OccursAt(s, "//", i) ==> i >= d && OccursAt(rest, "//", i - d) {
        Pair(s, i);
        if i >= d { Pair(rest, i - d); }
        if 0 < i < d { assert s[i] == a[i - 1]; }
        if i == 0 { assert s[1] == a[0]; }
      }
      if Contains(rest, "//") {
        var i :| 0 <= i <= |rest| && OccursAt(rest, "//", i);
        Pair(rest, i);
        Pair(s, i + d);
      }
    }
  }

  /** Validate accepts exactly the kites with slash-free fields whose first six
      fields are set. */
  lemma ValidateExactly(k: Kite)
    ensures Validate(k) <==> SlashFree(k) && forall i | 0 <= i < 6 :: Values(k)[i] != ""
  {
    var vs := Values(k);
    StringIsJoin(k);
    CountAppend("/", Join(vs, '/'), '/');
    assert Count("/", '/') == 1;
    CountJoin(vs, '/');
    if SlashFree(k) { DoubleSlash(vs); }
  }

  /** validateKiteKey: every field is set and slash-free. The loop visits the
      fields in the order in which the map happens to yield them. */
  method ValidateKiteKey(k: Kite, order: seq<nat>) returns (ok: bool)
    requires forall n | 0 <= n < |order| :: order[n] < 7
    requires forall i: nat | i < 7 :: i in order
    ensures ok <==> SlashFree(k) && forall i | 0 <= i < 7 :: Values(k)[i] != ""
  {
    var vs := Values(k);
    for n := 0 to |order|
      invariant forall m | 0 <= m < n :: vs[order[m]] != "" && '/' !in vs[order[m]]
    {
      assert order[n] in order;
      if vs[order[n]] == "" || '/' in vs[order[n]] { return false; }
    }
    forall i: nat | i < 7 ensures vs[i] != "" && '/' !in vs[i] {
      assert i in order;
    }
    ok := true;
  }

  ghost predicate ValidKey(k: Kite)
  {
    SlashFree(k) && forall i | 0 <= i < 7 :: Values(k)[i] != ""
  }

  // ------------------------------------------------------------- stored keys

  const KITES_PREFIX := "/kites"

  function KiteKey(k: Kite): string { KITES_PREFIX + String(k) }

  function TrimPrefix(s: string, p: string): string
  {
    if p <= s then s[|p|..] else s
  }

  /** KiteFromKey on a node key such as "/kites/u/e/n/v/r/h/id". */
  function KiteFromKey(key: string): Result<Kite>
  {
    var fields := Split(TrimPrefix(key, "/"), '/');
    if |fields| != 8 || fields[0] != "kites" then Err
    else Ok(FromValues(fields[1..]))
  }

  /** Reading the key of a stored kite gives that kite, or an error when a field
      holds a slash; never another kite. */
  lemma KeyCodec(k: Kite)
    ensures KiteFromKey(KiteKey(k)) == if SlashFree(k) then Ok(k) else Err
  {
    var all := ["kites"] + Values(k);
    StringIsJoin(k);
    assert all[1..] == Values(k);
    assert KiteKey(k) == "/" + Join(all, '/');
    var t := TrimPrefix(KiteKey(k), "/");
    assert t == Join(all, '/');
    CountJoin(all, '/');
    assert Free(all, '/') <==> SlashFree(k) by {
      assert Free(["kites"], '/');
      assert forall i | 0 <= i < 7 :: all[i + 1] == Values(k)[i];
    }
    SplitIsSplitN(t, '/', Count(t, '/') + 1);
    if SlashFree(k) {
      SplitNJoin(all, '/', 8);
    }
  }
}
