/** The string operations the repository relies on: splitting and joining on a
    separator, counting, prefix tests, and the decimal form of identifiers. */
module Text {
  import opened Wrappers

  const UINT64_LIMIT: nat := 0x1_0000_0000_0000_0000

  lemma ConcatAssoc<T>(a: seq<T>, b: seq<T>, c: seq<T>)
    ensures (a + b) + c == a + (b + c)
  {}

  // ---------------------------------------------------------------- decimal

  predicate IsDigit(c: char) { '0' <= c <= '9' }

  predicate AllDigits(s: string) { forall i | 0 <= i < |s| :: IsDigit(s[i]) }

  /** strconv.FormatUint(n, 10) */
  function Format(n: nat): (s: string)
    ensures s != "" && AllDigits(s)
  {
    var d := [('0' as int + n % 10) as char];
    if n < 10 then d else Format(n / 10) + d
  }

  function DigitsValue(s: string): nat
    requires AllDigits(s)
  {
    if s == "" then 0
    else 10 * DigitsValue(s[..|s| - 1]) + (s[|s| - 1] as int - '0' as int)
  }

  /** strconv.ParseUint(s, 10, 64) */
  function ParseUint(s: string): Option<nat>
  {
    if s == "" || !AllDigits(s) || DigitsValue(s) >= UINT64_LIMIT then None
    else Some(DigitsValue(s))
  }

  /** strconv.Atoi on a 64-bit platform */
  function Atoi(s: string): Option<int>
  {
    var signed := s != "" && (s[0] == '-' || s[0] == '+');
    var digits := if signed then s[1..] else s;
    if digits == "" || !AllDigits(digits) then None
    else
      var m: int := DigitsValue(digits);
      var n := if s[0] == '-' then 0 - m else m;
      if -0x8000_0000_0000_0000 <= n < 0x8000_0000_0000_0000 then Some(n) else None
  }

  lemma {:induction false} FormatValue(n: nat)
    ensures DigitsValue(Format(n)) == n
  {
    var s := Format(n);
    if n < 10 {
      assert s[..|s| - 1] == "";
    } else {
      FormatValue(n / 10);
      assert s[..|s| - 1] == Format(n / 10);
    }
  }

  /** Decimal text carries every 64-bit identifier unchanged. */
  lemma ParseFormat(n: nat)
    ensures ParseUint(Format(n)) == if n < UINT64_LIMIT then Some(n) else None
  {
    FormatValue(n);
  }

  /** An optional sign and then digits. */
  predicate Decimal(s: string)
  {
    var digits := if s != "" && (s[0] == '-' || s[0] == '+') then s[1..] else s;
    digits != "" && AllDigits(digits)
  }

  lemma NotDecimal(s: string)
    requires !Decimal(s)
    ensures Atoi(s) == None
  {}

  lemma AtoiFormat(n: nat)
    ensures Atoi(Format(n)) == if n < 0x8000_0000_0000_0000 then Some(n) else None
  {
    FormatValue(n);
    assert IsDigit(Format(n)[0]);
  }

  /** A key that holds anything but digits is refused, and so is one of 2^64 or more. */
  lemma ParseUintRefuses(s: string)
    ensures s == "" || (exists i | 0 <= i < |s| :: !IsDigit(s[i])) ==> ParseUint(s) == None
  {}

  lemma FormatInjective(m: nat, n: nat)
    requires Format(m) == Format(n)
    ensures m == n
  {
    FormatValue(m);
    FormatValue(n);
  }

  // ------------------------------------------------------------- splitting

  function Count(s: string, c: char): nat
  {
    if s == "" then 0 else (if s[0] == c then 1 else 0) + Count(s[1..], c)
  }

  /** Position of the first c in s, or |s|. */
  function Index(s: string, c: char): (i: nat)
    ensures i <= |s|
    ensures c !in s[..i]
    ensures i < |s| ==> s[i] == c
  {
    if s == "" || s[0] == c then 0
    else
      var i := 1 + Index(s[1..], c);
      assert s[..i] == [s[0]] + s[1..][..i - 1];
      i
  }

  /** strings.Split(s, string(c)) */
  function Split(s: string, c: char): (parts: seq<string>)
    ensures |parts| >= 1
    decreases |s|
  {
    var i := Index(s, c);
    if i == |s| then [s] else [s[..i]] + Split(s[i + 1..], c)
  }

  /** strings.SplitN(s, string(c), n) for positive n */
  function SplitN(s: string, c: char, n: nat): (parts: seq<string>)
    requires n > 0
    ensures 1 <= |parts| <= n
    decreases n
  {
    var i := Index(s, c);
    if n == 1 || i == |s| then [s] else [s[..i]] + SplitN(s[i + 1..], c, n - 1)
  }

  function Join(parts: seq<string>, c: char): string
    requires parts != []
  {
    if |parts| == 1 then parts[0] else parts[0] + [c] + Join(parts[1..], c)
  }

  /** The first k parts do not hold the separator. */
  predicate FreeTo(parts: seq<string>, k: int, c: char)
    requires k <= |parts|
  {
    forall i | 0 <= i < k :: c !in parts[i]
  }

  predicate Free(parts: seq<string>, c: char) { FreeTo(parts, |parts|, c) }

  lemma {:induction false} IndexAt(a: string, c: char, rest: string)
    requires c !in a
    ensures Index(a + [c] + rest, c) == |a|
  {
    var s := a + [c] + rest;
    if a != "" {
      IndexAt(a[1..], c, rest);
      assert s[1..] == a[1..] + [c] + rest;
    }
  }

  lemma IndexNone(s: string, c: char)
    requires c !in s
    ensures Index(s, c) == |s|
  {}

  lemma {:induction false} JoinSplitN(s: string, c: char, n: nat)
    requires n > 0
    ensures Join(SplitN(s, c, n), c) == s
    decreases n
  {
    var i := Index(s, c);
    if n != 1 && i != |s| {
      JoinSplitN(s[i + 1..], c, n - 1);
      var parts := SplitN(s, c, n);
      assert parts[1..] == SplitN(s[i + 1..], c, n - 1);
    }
  }

  lemma SplitNAt(a: string, rest: string, c: char, n: nat)
    requires n > 1 && c !in a
    ensures SplitN(a + [c] + rest, c, n) == [a] + SplitN(rest, c, n - 1)
  {
    var s := a + [c] + rest;
    IndexAt(a, c, rest);
    assert s[..|a|] == a && s[|a| + 1..] == rest;
  }

  /** Splitting undoes joining as soon as no part but the last holds the
      separator, and the last holds it only when the limit is reached. */
  lemma {:induction false} SplitNJoin(parts: seq<string>, c: char, n: nat)
    requires 1 <= |parts| <= n
    requires FreeTo(parts, |parts| - 1, c)
    requires |parts| == n || c !in parts[|parts| - 1]
    ensures SplitN(Join(parts, c), c, n) == parts
    decreases n
  {
    if |parts| == 1 {
      if n > 1 { IndexNone(parts[0], c); }
    } else {
      SplitNJoin(parts[1..], c, n - 1);
      assert c !in parts[0];
      SplitNHead(parts, c, n);
    }
  }

  lemma SplitNHead(parts: seq<string>, c: char, n: nat)
    requires 1 < |parts| <= n && c !in parts[0]
    requires SplitN(Join(parts[1..], c), c, n - 1) == parts[1..]
    ensures SplitN(Join(parts, c), c, n) == parts
  {
    SplitNAt(parts[0], Join(parts[1..], c), c, n);
    assert [parts[0]] + parts[1..] == parts;
  }

  /** All parts but the last one of a limited split are free of the separator;
      the last one is too when the limit was not reached. */
  lemma {:induction false} SplitNFree(s: string, c: char, n: nat)
    requires n > 0
    ensures var parts := SplitN(s, c, n);
            && FreeTo(parts, |parts| - 1, c)
            && (|parts| < n ==> c !in parts[|parts| - 1])
    decreases n
  {
    var i := Index(s, c);
    if n == 1 || i == |s| {
      assert s[..|s|] == s;
    } else {
      SplitNFree(s[i + 1..], c, n - 1);
    }
  }

  lemma {:induction false} CountAppend(a: string, b: string, c: char)
    ensures Count(a + b, c) == Count(a, c) + Count(b, c)
  {
    if a == "" {
      assert a + b == b;
    } else {
      CountAppend(a[1..], b, c);
      assert (a + b)[1..] == a[1..] + b;
    }
  }

  lemma {:induction false} CountZero(s: string, c: char)
    ensures Count(s, c) == 0 <==> c !in s
  {
    if s != "" {
      CountZero(s[1..], c);
      assert s == [s[0]] + s[1..];
    }
  }

  lemma CountCut(s: string, c: char)
    requires Index(s, c) < |s|
    ensures Count(s, c) == 1 + Count(s[Index(s, c) + 1..], c)
  {
    var i := Index(s, c);
    var tail := [c] + s[i + 1..];
    CountZero(s[..i], c);
    CountAppend(s[..i], tail, c);
    assert s == s[..i] + tail;
    assert tail[1..] == s[i + 1..];
  }

  lemma {:induction false} SplitIsSplitN(s: string, c: char, n: nat)
    requires n > Count(s, c)
    ensures Split(s, c) == SplitN(s, c, n)
    ensures |Split(s, c)| == Count(s, c) + 1
    decreases |s|
  {
    var i := Index(s, c);
    if i < |s| {
      CountCut(s, c);
      SplitIsSplitN(s[i + 1..], c, n - 1);
    } else {
      CountZero(s, c);
      assert s[..i] == s;
    }
  }

  lemma {:induction false} CountJoin(parts: seq<string>, c: char)
    requires parts != []
    ensures Count(Join(parts, c), c) >= |parts| - 1
    ensures Count(Join(parts, c), c) == |parts| - 1 <==> Free(parts, c)
  {
    CountZero(parts[0], c);
    if |parts| > 1 {
      var rest := Join(parts[1..], c);
      CountAppend(parts[0] + [c], rest, c);
      CountAppend(parts[0], [c], c);
      assert Count([c], c) == 1;
      CountJoin(parts[1..], c);
      assert Free(parts, c) <==> c !in parts[0] && Free(parts[1..], c) by {
        assert parts == [parts[0]] + parts[1..];
      }
    }
  }

  // -------------------------------------------------------------- prefixes

  /** strings.HasPrefix(s, p) */
  predicate HasPrefix(s: string, p: string) { p <= s }

  /** strings.TrimRight(s, string(c)) */
  function TrimRight(s: string, c: char): string
  {
    if s != "" && s[|s| - 1] == c then TrimRight(s[..|s| - 1], c) else s
  }

  function UpperFirst(s: string): (r: string)
    ensures |r| == |s|
  {
    if s != "" && 'a' <= s[0] <= 'z' then [(s[0] as int - 32) as char] + s[1..] else s
  }

  function LowerFirst(s: string): (r: string)
    ensures |r| == |s|
  {
    if s != "" && 'A' <= s[0] <= 'Z' then [(s[0] as int + 32) as char] + s[1..] else s
  }
}
