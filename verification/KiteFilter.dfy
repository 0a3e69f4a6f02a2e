/** Filtering query results by version constraint and the rest of the key, shuffling
    them, and the audience of the tokens issued for them (kontrol/kites.go,
    kontrol/etcd.go, request.go). */
module KiteFilter {
  import opened Wrappers
  import opened Text
  import opened KiteName
  import opened KiteIndex
  import opened KiteStore

  // ------------------------------------------------ the key after the version

  /** What follows the version in a key, without trailing slashes. */
  function KeyRest(region: string, hostname: string, id: string): string
  {
    "/" + TrimRight(region + "/" + hostname + "/" + id, '/')
  }

  /** isValid, given the outcome of the version check. */
  predicate IsValid(k: Kite, versionOk: bool, keyRest: string)
  {
    versionOk && HasPrefix(KeyRest(k.region, k.hostname, k.id), keyRest)
  }

  /** The components given up to the last set one: all but the last are equal and
      the last is a prefix of the kite's. */
  predicate RestMatches(k: Kite, q: Query)
  {
    if q.id != "" then q.region == k.region && q.hostname == k.hostname && q.id <= k.id
    else if q.hostname != "" then q.region == k.region && q.hostname <= k.hostname
    else q.region <= k.region
  }

  lemma TrimOne(s: string, c: char)
    ensures TrimRight(s + [c], c) == TrimRight(s, c)
  {
    assert (s + [c])[..|s|] == s;
  }

  lemma TrimNone(s: string, t: string, c: char)
    requires t != "" && c !in t
    ensures TrimRight(s + t, c) == s + t
  {
    assert (s + t)[|s + t| - 1] == t[|t| - 1];
  }

  /** Trailing unset components and their slashes are cut off. */
  lemma KeyRestForm(r: string, h: string, i: string)
    requires '/' !in r && '/' !in h && '/' !in i
    ensures KeyRest(r, h, i) ==
            "/" + if i != "" then r + "/" + h + "/" + i else if h != "" then r + "/" + h else r
  {
    if i != "" {
      TrimNone(r + "/" + h + "/", i, '/');
    } else {
      assert r + "/" + h + "/" + i == r + "/" + h + "/";
      TrimOne(r + "/" + h, '/');
      if h != "" {
        TrimNone(r + "/", h, '/');
      } else {
        assert r + "/" + h == r + "/";
        TrimOne(r, '/');
        if r != "" {
          TrimNone("", r, '/');
          assert "" + r == r;
        }
      }
    }
  }

  /** Below a slash, prefixes are compared component by component. */
  lemma PrefixAcross(a: string, x: string, b: string, y: string)
    requires '/' !in a && '/' !in b
    ensures a + "/" + x <= b + "/" + y <==> a == b && x <= y
  {
    var s, t := a + "/" + x, b + "/" + y;
    if s <= t {
      assert t[|a|] == s[|a|] == '/';
      IndexAt(b, '/', y);
      IndexAt(a, '/', t[|a| + 1..]);
      assert t == a + "/" + t[|a| + 1..] by { assert t[..|a|] == s[..|a|] == a; }
      assert a == t[..|a|] == t[..|b|] == b;
      assert x == s[|a| + 1..] && y == t[|a| + 1..];
    }
    if a == b && x <= y {
      assert t == s + y[|x|..];
    }
  }

  lemma PrefixWithin(a: string, b: string, y: string)
    requires '/' !in a
    ensures a <= b + "/" + y <==> a <= b
  {
    var t := b + "/" + y;
    assert t[|b|] == '/';
    if |a| > |b| { assert a[|b|] != '/'; }
    if a <= t && |a| <= |b| { assert t[..|a|] == b[..|a|]; }
    if a <= b { assert t[..|a|] == b[..|a|]; }
  }

  /** The string test on trimmed keys accepts a stored kite iff its components
      match up to the last one given, which need only be a prefix. */
  lemma RestExactly(k: Kite, q: Query, versionOk: bool)
    requires ValidKey(k) && SlashFree(q)
    ensures IsValid(k, versionOk, KeyRest(q.region, q.hostname, q.id)) <==> versionOk && RestMatches(k, q)
  {
    assert Values(k)[4] == k.region && Values(k)[5] == k.hostname && Values(k)[6] == k.id;
    assert Values(q)[4] == q.region && Values(q)[5] == q.hostname && Values(q)[6] == q.id;
    KeyRestForm(k.region, k.hostname, k.id);
    KeyRestForm(q.region, q.hostname, q.id);
    SlashPrefix(k.region + "/" + k.hostname + "/" + k.id,
                if q.id != "" then q.region + "/" + q.hostname + "/" + q.id
                else if q.hostname != "" then q.region + "/" + q.hostname else q.region);
    RestPrefix(k.region, k.hostname, k.id, q);
  }

  lemma SlashPrefix(s: string, p: string)
    ensures "/" + p <= "/" + s <==> p <= s
  {
    if p <= s { assert "/" + s == "/" + p + s[|p|..]; }
    if "/" + p <= "/" + s { assert p == ("/" + p)[1..] && s == ("/" + s)[1..]; }
  }

  lemma RestPrefix(r: string, h: string, i: string, q: Query)
    requires '/' !in r && '/' !in h && '/' !in i && '/' !in q.region && '/' !in q.hostname && '/' !in q.id
    ensures var s := r + "/" + h + "/" + i;
            var p := if q.id != "" then q.region + "/" + q.hostname + "/" + q.id
                     else if q.hostname != "" then q.region + "/" + q.hostname else q.region;
            p <= s <==>
              if q.id != "" then q.region == r && q.hostname == h && q.id <= i
              else if q.hostname != "" then q.region == r && q.hostname <= h
              else q.region <= r
  {
    var tail := h + "/" + i;
    assert r + "/" + h + "/" + i == r + "/" + tail;
    if q.id != "" {
      assert q.region + "/" + q.hostname + "/" + q.id == q.region + "/" + (q.hostname + "/" + q.id);
      PrefixAcross(q.region, q.hostname + "/" + q.id, r, tail);
      PrefixAcross(q.hostname, q.id, h, i);
    } else if q.hostname != "" {
      PrefixAcross(q.region, q.hostname, r, tail);
      PrefixWithin(q.hostname, h, i);
    } else {
      PrefixWithin(q.region, r, tail);
    }
  }

  // ---------------------------------------------------------- Filter, Shuffle

  predicate Accepted(k: Kite, q: Query, versionOk: string -> bool)
  {
    versionOk(k.version) && RestMatches(k, q)
  }

  /** The elements of the list that pass isValid, in order. */
  function Kept(list: seq<Found>, keyRest: string, versionOk: string -> bool): seq<Found>
  {
    if list == [] then []
    else
      var last := list[|list| - 1];
      Kept(list[..|list| - 1], keyRest, versionOk) +
      (if IsValid(last.kite, versionOk(last.kite.version), keyRest) then [last] else [])
  }

  method Filter(list: seq<Found>, keyRest: string, versionOk: string -> bool) returns (filtered: seq<Found>)
    ensures filtered == Kept(list, keyRest, versionOk)
  {
    filtered := [];
    for i := 0 to |list|
      invariant filtered == Kept(list[..i], keyRest, versionOk)
    {
      assert list[..i + 1][..i] == list[..i];
      if IsValid(list[i].kite, versionOk(list[i].kite.version), keyRest) {
        filtered := filtered + [list[i]];
      }
    }
    assert list[..|list|] == list;
  }

  lemma {:induction false} KeptIn(list: seq<Found>, keyRest: string, versionOk: string -> bool, f: Found)
    ensures f in Kept(list, keyRest, versionOk) <==>
            f in list && IsValid(f.kite, versionOk(f.kite.version), keyRest)
  {
    if list != [] {
      var n := |list| - 1;
      KeptIn(list[..n], keyRest, versionOk, f);
      assert list == list[..n] + [list[n]];
    }
  }

  /** Filtering keeps exactly the kites of an accepted version whose key goes on as
      the query's does. */
  lemma KeptExactly(list: seq<Found>, q: Query, versionOk: string -> bool, f: Found)
    requires SlashFree(q) && ValidKey(f.kite)
    ensures f in Kept(list, KeyRest(q.region, q.hostname, q.id), versionOk) <==>
            f in list && Accepted(f.kite, q, versionOk)
  {
    KeptIn(list, KeyRest(q.region, q.hostname, q.id), versionOk, f);
    RestExactly(f.kite, q, versionOk(f.kite.version));
  }

  predicate DistinctKites(list: seq<Found>)
  {
    forall i, j | 0 <= i < j < |list| :: list[i].kite != list[j].kite
  }

  lemma {:induction false} KeptDistinct(list: seq<Found>, keyRest: string, versionOk: string -> bool)
    requires DistinctKites(list)
    ensures DistinctKites(Kept(list, keyRest, versionOk))
  {
    if list != [] {
      var n := |list| - 1;
      var kept := Kept(list[..n], keyRest, versionOk);
      KeptDistinct(list[..n], keyRest, versionOk);
      forall i | 0 <= i < |kept| ensures kept[i].kite != list[n].kite {
        KeptIn(list[..n], keyRest, versionOk, kept[i]);
        assert kept[i] in list[..n];
      }
    }
  }

  /** The kites a query with a version constraint asks for. */
  predicate Qualifies(k: Kite, q: Query, versionOk: string -> bool)
  {
    && k.username == q.username && k.environment == q.environment && k.name == q.name
    && versionOk(k.version) && RestMatches(k, q)
  }

  function NameQuery(q: Query): Query { Kite(q.username, q.environment, q.name, "", "", "", "") }

  lemma NameQueryMatches(q: Query)
    requires q.username != "" && NoGap(q) && q.version != ""
    ensures NoGap(NameQuery(q))
    ensures forall k :: Matches(k, NameQuery(q)) <==>
              k.username == q.username && k.environment == q.environment && k.name == q.name
  {
    var m := NameQuery(q);
    assert Values(q)[1] == q.environment && Values(q)[2] == q.name && Values(q)[3] == q.version;
    assert Leading(Values(q)) > 3;
    assert q.environment != "" && q.name != "";
    assert Values(m)[0] != "" && Values(m)[1] != "" && Values(m)[2] != "" && Values(m)[3] == "";
    forall k ensures Matches(k, m) <==> k.username == q.username && k.environment == q.environment && k.name == q.name {
      assert Values(k)[0] == k.username && Values(k)[1] == k.environment && Values(k)[2] == k.name;
    }
  }

  /** What the query's version field is to the version parser. */
  datatype VersionField = Plain | Constraint(accepts: string -> bool) | Malformed

  predicate Constrained(q: Query, version: VersionField) { q.version != "" && version.Constraint? }

  /** Get refuses the query before it asks the store. */
  predicate Refused(q: Query, version: VersionField)
  {
    q.username == "" || !NoGap(q) || (q.version != "" && version.Malformed?)
  }

  /** The query that is put to the store. */
  function Asked(q: Query, version: VersionField): Query { if Constrained(q, version) then NameQuery(q) else q }

  /** A kite below the key asked for is returned; with a constraint only if it passes
      the filter, unless the key is that of one kite, which is not filtered. */
  predicate Returned(k: Kite, q: Query, version: VersionField)
    requires q.username != ""
  {
    var p := QueryPath(Asked(q, version));
    && p <= Values(k)
    && (Constrained(q, version) && |p| != 7 ==>
          IsValid(k, version.accepts(k.version), KeyRest(q.region, q.hostname, q.id)))
  }

  /** Without slashes these are the kites the query asks for: the matching ones, or with
      a constraint the qualifying ones. */
  predicate Wanted(k: Kite, q: Query, version: VersionField)
  {
    if Constrained(q, version) then Qualifies(k, q, version.accepts) else Matches(k, q)
  }

  lemma ReturnedIsWanted(k: Kite, q: Query, version: VersionField)
    requires SlashFree(q) && !Refused(q, version) && ValidKey(k)
    ensures Returned(k, q, version) <==> Wanted(k, q, version)
  {
    if Constrained(q, version) {
      NameQueryMatches(q);
      PathMatches(k, NameQuery(q));
      assert |SetFields(NameQuery(q))| != 7 by { assert Values(NameQuery(q))[6] == ""; }
      RestExactly(k, q, version.accepts(k.version));
    } else {
      PathMatches(k, q);
    }
  }

  /** The kites found are the stored ones that are returned, each once. */
  ghost predicate ReturnsExactly(found: seq<Found>, kites: map<Kite, RegisterValue>, q: Query, version: VersionField)
    requires q.username != ""
  {
    DistinctKites(found) && forall k, v :: Found(k, v) in found <==> k in kites && v == kites[k] && Returned(k, q, version)
  }

  /** The kites found are the stored ones that the query asks for, each once. */
  ghost predicate WantedExactly(found: seq<Found>, kites: map<Kite, RegisterValue>, q: Query, version: VersionField)
  {
    DistinctKites(found) && forall k, v :: Found(k, v) in found <==> k in kites && v == kites[k] && Wanted(k, q, version)
  }

  lemma Unfiltered(found: seq<Found>, kites: map<Kite, RegisterValue>, q: Query, version: VersionField)
    requires q.username != "" && Under(found, kites, QueryPath(Asked(q, version)))
    requires !Constrained(q, version) || |QueryPath(Asked(q, version))| == 7
    ensures ReturnsExactly(found, kites, q, version)
  {}

  lemma Filtered(found: seq<Found>, kites: map<Kite, RegisterValue>, q: Query, version: VersionField)
    requires q.username != "" && Under(found, kites, QueryPath(Asked(q, version)))
    requires Constrained(q, version) && |QueryPath(Asked(q, version))| != 7
    ensures ReturnsExactly(Kept(found, KeyRest(q.region, q.hostname, q.id), version.accepts), kites, q, version)
  {
    var keyRest := KeyRest(q.region, q.hostname, q.id);
    KeptDistinct(found, keyRest, version.accepts);
    forall k, v ensures Found(k, v) in Kept(found, keyRest, version.accepts) <==>
                          k in kites && v == kites[k] && Returned(k, q, version)
    {
      KeptIn(found, keyRest, version.accepts, Found(k, v));
    }
  }

  /** Without slashes, what is returned is what is wanted. */
  lemma ReturnsWanted(r: Result<seq<Found>>, kites: map<Kite, RegisterValue>, q: Query, version: VersionField)
    requires SlashFree(q) && !Refused(q, version) && forall k | k in kites :: ValidKey(k)
    requires if r.Ok? then ReturnsExactly(r.value, kites, q, version) else GivesUp(kites, map[], q, version)
    ensures if r.Ok? then WantedExactly(r.value, kites, q, version) else forall k | k in kites :: !Wanted(k, q, version)
  {
    WantedBelow(kites, q, version);
  }

  /** There is nothing below the key, or the key is the root and holds ID keys. */
  ghost predicate GivesUp(kites: map<Kite, RegisterValue>, ids: map<string, RegisterValue>, q: Query, version: VersionField)
    requires q.username != ""
  {
    var p := QueryPath(Asked(q, version));
    (p == [] && ids != map[]) || forall k | k in kites :: !(p <= Values(k))
  }

  /** Get for every query but one by ID alone. A query without username, with a gap or
      with a malformed version is refused. Otherwise the kites returned are exactly the
      stored ones below the key, filtered when the version is a constraint; for a query
      without slashes these are exactly the kites it asks for. */
  method Get(store: Etcd, q: Query, version: VersionField) returns (r: Result<seq<Found>>)
    requires store.Valid() && (q.id == "" || q != Kite("", "", "", "", "", "", q.id))
    ensures Refused(q, version) ==> r.Err?
    ensures !Refused(q, version) ==>
              if r.Ok? then ReturnsExactly(r.value, store.kites, q, version) else GivesUp(store.kites, store.ids, q, version)
    ensures SlashFree(q) && !Refused(q, version) ==>
              if r.Ok? then WantedExactly(r.value, store.kites, q, version)
              else forall k | k in store.kites :: !Wanted(k, q, version)
  {
    var key := GetQueryKey(q);
    if key.Err? { return Err; }
    if q.version != "" && version.Malformed? { return Err; }
    if Constrained(q, version) { NameQueryMatches(q); }
    var all, single := store.Fetch(Asked(q, version));
    r := all;
    if all.Ok? {
      if Constrained(q, version) && !single {
        var kept := Filter(all.value, KeyRest(q.region, q.hostname, q.id), version.accepts);
        Filtered(all.value, store.kites, q, version);
        r := Ok(kept);
      } else {
        Unfiltered(all.value, store.kites, q, version);
      }
    }
    if SlashFree(q) {
      WantedBelow(store.kites, q, version);
      ReturnsWanted(r, store.kites, q, version);
    }
  }

  lemma WantedBelow(kites: map<Kite, RegisterValue>, q: Query, version: VersionField)
    requires SlashFree(q) && !Refused(q, version) && forall k | k in kites :: ValidKey(k)
    ensures QueryPath(Asked(q, version)) != []
    ensures forall k | k in kites :: Returned(k, q, version) <==> Wanted(k, q, version)
  {
    forall k | k in kites ensures Returned(k, q, version) <==> Wanted(k, q, version) {
      ReturnedIsWanted(k, q, version);
    }
    if Constrained(q, version) { NameQueryMatches(q); }
    PathMatches(q, Asked(q, version));
    SetFieldsSome(Asked(q, version));
  }

  predicate Permutation(perm: seq<nat>)
  {
    && (forall i | 0 <= i < |perm| :: perm[i] < |perm|)
    && (forall i, j | 0 <= i < j < |perm| :: perm[i] != perm[j])
  }

  /** A permutation of n positions uses the last one. */
  lemma {:induction false} Hits(perm: seq<nat>) returns (i: nat)
    requires perm != [] && Permutation(perm)
    ensures i < |perm| && perm[i] == |perm| - 1
  {
    LastIsHit(perm);
    i :| 0 <= i < |perm| && perm[i] == |perm| - 1;
  }

  lemma LastIsHit(perm: seq<nat>)
    requires perm != [] && Permutation(perm)
    ensures exists j | 0 <= j < |perm| :: perm[j] == |perm| - 1
  {
    if forall j | 0 <= j < |perm| :: perm[j] != |perm| - 1 {
      forall m | m in Elements(perm) ensures m in Range(|perm| - 1) {}
      Sizes(Elements(perm), Range(|perm| - 1));
    }
  }

  ghost function Elements(s: seq<nat>): (r: set<nat>)
    requires forall i, j | 0 <= i < j < |s| :: s[i] != s[j]
    ensures |r| == |s| && forall m :: m in r <==> m in s
  {
    if s == [] then {} else
      var n := |s| - 1;
      assert s == s[..n] + [s[n]];
      Elements(s[..n]) + {s[n]}
  }

  ghost function Range(n: nat): (r: set<nat>)
    ensures |r| == n && forall m: nat :: m in r <==> m < n
  {
    if n == 0 then {} else Range(n - 1) + {n - 1}
  }

  lemma {:induction false} Sizes(a: set<nat>, b: set<nat>)
    requires a <= b
    ensures |a| <= |b|
  {
    if a != {} {
      var x :| x in a;
      Sizes(a - {x}, b - {x});
    }
  }

  lemma {:induction false} PermutedSame(list: seq<Found>, shuffled: seq<Found>, perm: seq<nat>)
    requires |list| == |shuffled| == |perm| && Permutation(perm)
    requires forall i | 0 <= i < |perm| :: shuffled[perm[i]] == list[i]
    ensures multiset(shuffled) == multiset(list)
    decreases |perm|
  {
    if perm != [] {
      var n := |perm| - 1;
      var i := Hits(perm);
      var perm' := perm[..i] + perm[i + 1..];
      var list' := list[..i] + list[i + 1..];
      forall m | 0 <= m < n
        ensures perm'[m] < n && list'[m] == shuffled[..n][perm'[m]]
      {
        var o := if m < i then m else m + 1;
        assert perm'[m] == perm[o] && list'[m] == list[o];
      }
      PermutedSame(list', shuffled[..n], perm');
      assert list == list[..i] + [list[i]] + list[i + 1..];
      assert shuffled == shuffled[..n] + [shuffled[n]];
    }
  }

  /** Shuffle reorders the kites by a permutation and loses none. */
  method Shuffle(list: seq<Found>, perm: seq<nat>) returns (shuffled: array<Found>)
    requires |perm| == |list| && Permutation(perm)
    ensures fresh(shuffled) && multiset(shuffled[..]) == multiset(list)
  {
    shuffled := new Found[|list|];
    for i := 0 to |perm|
      invariant forall m | 0 <= m < i :: shuffled[perm[m]] == list[m]
    {
      shuffled[perm[i]] := list[i];
    }
    PermutedSame(list, shuffled[..], perm);
  }

  // --------------------------------------------------------------- audiences

  function GetAudience(q: Query): string
  {
    if q.name != "" then "/" + q.username + "/" + q.environment + "/" + q.name
    else if q.environment != "" then "/" + q.username + "/" + q.environment
    else "/" + q.username
  }

  /** verifyAudience: "/" is let through, empty fields other than the username
      match everything. */
  predicate VerifyAudience(k: Kite, audience: string)
  {
    || audience == "/"
    || (audience != "" && KiteFromString(audience).Ok?
        && var aud := KiteFromString(audience).value;
           && k.username == aud.username
           && (k.environment == aud.environment || aud.environment == "")
           && (k.name == aud.name || aud.name == ""))
  }

  lemma AudienceParts(q: Query) returns (parts: seq<string>)
    requires SlashFree(q)
    ensures 1 <= |parts| <= 3 && Free(parts, '/') && GetAudience(q) == "/" + Join(parts, '/')
    ensures Padded(parts)[0] == q.username && Padded(parts)[1] == (if |parts| > 1 then q.environment else "")
    ensures Padded(parts)[2] == q.name && (|parts| == 1 ==> q.environment == "")
  {
    assert Values(q)[0] == q.username && Values(q)[1] == q.environment && Values(q)[2] == q.name;
    if q.name != "" {
      parts := [q.username, q.environment, q.name];
      assert parts[1..] == [q.environment, q.name] && parts[1..][1..] == [q.name];
      assert Join(parts[1..], '/') == q.environment + "/" + q.name;
      assert Join(parts, '/') == q.username + "/" + (q.environment + "/" + q.name);
    } else if q.environment != "" {
      parts := [q.username, q.environment];
      assert parts[1..] == [q.environment];
      assert Join(parts, '/') == q.username + "/" + q.environment;
    } else {
      parts := [q.username];
    }
  }

  /** The query names neither username nor environment nor name: its audience is "/". */
  predicate Anonymous(q: Query) { q.username == "" && q.environment == "" && q.name == "" }

  lemma AudienceParsed(q: Query)
    requires SlashFree(q)
    ensures GetAudience(q) == "/" <==> Anonymous(q)
    ensures KiteFromString(GetAudience(q)).Ok?
    ensures var aud := KiteFromString(GetAudience(q)).value;
            aud.username == q.username && aud.environment == q.environment && aud.name == q.name
  {
    var parts := AudienceParts(q);
    var s := Join(parts, '/');
    SplitNJoin(parts, '/', 7);
    assert GetAudience(q)[1..] == s;
    assert parts[0] == Padded(parts)[0];
    assert |parts| > 1 ==> s == parts[0] + "/" + Join(parts[1..], '/');
    assert s == "" <==> Anonymous(q);
  }

  /** A kite accepts the audience made for a query iff the query names neither username
      nor environment nor name, or the usernames are equal and environment and name are
      each equal or not set in the query. */
  lemma AudienceExactly(k: Kite, q: Query)
    requires SlashFree(q)
    ensures VerifyAudience(k, GetAudience(q)) <==>
            Anonymous(q) ||
            (k.username == q.username
             && (q.environment == "" || k.environment == q.environment)
             && (q.name == "" || k.name == q.name))
  {
    AudienceParsed(q);
  }

  /** A stored kite that a query returns accepts the token issued for the query exactly
      when the query has a username, or neither environment nor name. */
  lemma ReturnedKitesAccept(k: Kite, q: Query)
    requires SlashFree(q) && ValidKey(k) && Matches(k, q)
    ensures VerifyAudience(k, GetAudience(q)) <==> q.username != "" || (q.environment == "" && q.name == "")
  {
    assert Values(q)[0] == q.username && Values(q)[1] == q.environment && Values(q)[2] == q.name;
    assert Values(k)[0] == k.username && Values(k)[1] == k.environment && Values(k)[2] == k.name;
    AudienceExactly(k, q);
  }

  /** The SQL backend answers a query for a name alone; every kite it returns rejects
      the token issued for that query. */
  lemma NameAloneRejected(k: Kite, name: string)
    requires ValidKey(k) && k.name == name
    ensures var q := Kite("", "", name, "", "", "", ""); Matches(k, q) && !VerifyAudience(k, GetAudience(q))
  {
    var q := Kite("", "", name, "", "", "", "");
    assert Values(k)[2] == name && '/' !in name && name != "";
    assert SlashFree(q);
    ReturnedKitesAccept(k, q);
  }

  /** Kites that a query with a version constraint returns accept its token. */
  lemma QualifiedKitesAccept(k: Kite, q: Query, versionOk: string -> bool)
    requires SlashFree(q) && Qualifies(k, q, versionOk)
    ensures VerifyAudience(k, GetAudience(q))
  {
    AudienceExactly(k, q);
  }
}
