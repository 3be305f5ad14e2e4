/** Character and string helpers shared by the three clients: searching
    (`find`, `strchr`, `strstr`, `in`), ASCII case mapping (`tolower`,
    `towupper`, `str.lower()`), and splitting (`str.split`). Wide and narrow
    strings are both `string`; every conversion between them is taken as the
    identity on ASCII text. */
module Text {
  import opened Wrappers

  /** Index of the first `c` in `s`, or `|s|` when `c` does not occur
      (`std::string::find` with `npos` written as `|s|`). */
  function Find(s: string, c: char): (r: nat)
    ensures r <= |s|
    ensures r < |s| ==> s[r] == c
    ensures forall j :: 0 <= j < r ==> s[j] != c
    ensures r == |s| <==> c !in s
  {
    if s == [] then 0
    else if s[0] == c then 0
    else 1 + Find(s[1..], c)
  }

  /** `find(c, from)`: the first index at or after `from` holding `c`, or
      the length of the text for `npos`. */
  function FindFrom(s: string, c: char, from: nat): (r: nat)
    requires from <= |s|
    ensures from <= r <= |s|
    ensures r < |s| ==> s[r] == c
    ensures forall j :: from <= j < r ==> s[j] != c
    decreases |s| - from
  {
    if from == |s| then from else if s[from] == c then from else FindFrom(s, c, from + 1)
  }

  /** The first `c` at or after `from` is at `e` when `e` holds one and
      none comes before it. */
  lemma FindFromIs(s: string, c: char, from: nat, e: nat)
    requires from <= e < |s| && s[e] == c
    requires forall j :: from <= j < e ==> s[j] != c
    ensures FindFrom(s, c, from) == e
  {
    var r := FindFrom(s, c, from);
    assert r <= e;
    assert r >= e;
  }

  /** No `c` from `from` to the end: the search reaches the end. */
  lemma FindFromNone(s: string, c: char, from: nat)
    requires from <= |s|
    requires forall j :: from <= j < |s| ==> s[j] != c
    ensures FindFrom(s, c, from) == |s|
  {
    var r := FindFrom(s, c, from);
    assert r >= |s|;
  }

  /** Searching past a prefix free of `c`. */
  lemma {:induction false} FindAppend(a: string, b: string, c: char)
    requires c !in a
    ensures Find(a + b, c) == |a| + Find(b, c)
  {
    if a == [] {
      assert a + b == b;
    } else {
      assert (a + b)[1..] == a[1..] + b;
      FindAppend(a[1..], b, c);
    }
  }

  /** Searching a string whose prefix already holds `c`. */
  lemma {:induction false} FindInPrefix(a: string, b: string, c: char)
    requires c in a
    ensures Find(a + b, c) == Find(a, c)
  {
    if a[0] != c {
      assert (a + b)[1..] == a[1..] + b;
      assert c in a[1..] by {
        var i :| 0 <= i < |a| && a[i] == c;
        assert a[1..][i - 1] == c;
      }
      FindInPrefix(a[1..], b, c);
    }
  }

  /** The part of `s` before the first `c` (all of `s` when there is none). */
  function Before(s: string, c: char): (r: string)
    ensures |r| <= |s| && r == s[..|r|]
    ensures c !in r
  {
    s[..Find(s, c)]
  }

  lemma BeforeAppend(a: string, b: string, c: char)
    requires c !in a
    ensures Before(a + b, c) == a + Before(b, c)
  {
    var k := Find(b, c);
    FindAppend(a, b, c);
    assert Before(a + b, c) == (a + b)[..|a| + k];
    assert (a + b)[..|a| + k] == a + b[..k];
  }

  lemma BeforeInPrefix(a: string, b: string, c: char)
    requires c in a
    ensures Before(a + b, c) == Before(a, c)
  {
    FindInPrefix(a, b, c);
    assert (a + b)[..Find(a, c)] == a[..Find(a, c)];
  }

  /** `s[..i]` is what precedes the first `c` when `c` is absent from it and
      `s` ends or holds `c` at `i`. */
  lemma BeforeAt(s: string, c: char, i: nat)
    requires i <= |s| && c !in s[..i]
    requires i < |s| ==> s[i] == c
    ensures Before(s, c) == s[..i]
  {
    assert s == s[..i] + s[i..];
    BeforeAppend(s[..i], s[i..], c);
    assert Find(s[i..], c) == 0;
  }

  /** Index of the last `c` in `s`, or `None` when there is none. */
  function FindLast(s: string, c: char): (r: Option<nat>)
    ensures r.None? <==> c !in s
    ensures r.Some? ==> r.value < |s| && s[r.value] == c
    ensures r.Some? ==> forall j :: r.value < j < |s| ==> s[j] != c
  {
    if s == [] then None
    else if s[|s| - 1] == c then Some(|s| - 1)
    else FindLast(s[..|s| - 1], c)
  }

  /** True when `pat` occurs in `s` at index `i`. */
  predicate OccursAt(s: string, pat: string, i: nat)
  {
    i + |pat| <= |s| && s[i..i + |pat|] == pat
  }

  /** Index of the first occurrence of `pat` in `s` at or after `from`
      (`find(pat, from)`, `strstr`). */
  function FindSub(s: string, pat: string, from: nat): (r: Option<nat>)
    ensures r.Some? ==> from <= r.value && OccursAt(s, pat, r.value)
    ensures r.Some? ==> forall j :: from <= j < r.value ==> !OccursAt(s, pat, j)
    ensures r.None? ==> forall j :: from <= j ==> !OccursAt(s, pat, j)
    decreases |s| - from
  {
    if from + |pat| > |s| then None
    else if s[from..from + |pat|] == pat then Some(from)
    else FindSub(s, pat, from + 1)
  }

  /** Python's `pat in s` / C's `strstr(s, pat) != NULL`. */
  predicate ContainsSub(s: string, pat: string)
  {
    FindSub(s, pat, 0).Some?
  }

  predicate IsUpper(c: char) { 'A' <= c <= 'Z' }
  predicate IsLower(c: char) { 'a' <= c <= 'z' }
  predicate IsDigit(c: char) { '0' <= c <= '9' }

  /** ASCII `tolower`: other characters are unchanged. */
  function ToLower(c: char): (r: char)
    ensures !IsUpper(r)
    ensures IsUpper(c) ==> r as int == c as int + 32
    ensures !IsUpper(c) ==> r == c
  {
    if IsUpper(c) then (c as int + 32) as char else c
  }

  /** ASCII `toupper`. */
  function ToUpper(c: char): (r: char)
    ensures !IsLower(r)
    ensures IsLower(c) ==> r as int == c as int - 32
    ensures !IsLower(c) ==> r == c
  {
    if IsLower(c) then (c as int - 32) as char else c
  }

  function Lower(s: string): (r: string)
    ensures |r| == |s|
    ensures forall i :: 0 <= i < |s| ==> r[i] == ToLower(s[i])
  {
    if s == [] then [] else [ToLower(s[0])] + Lower(s[1..])
  }

  function Upper(s: string): (r: string)
    ensures |r| == |s|
    ensures forall i :: 0 <= i < |s| ==> r[i] == ToUpper(s[i])
  {
    if s == [] then [] else [ToUpper(s[0])] + Upper(s[1..])
  }

  /** Case-insensitive ASCII equality (`strcasecmp(a, b) == 0`,
      `a.lower() == b` for a lower-case `b`). */
  predicate EqualsIgnoreCase(a: string, b: string)
  {
    Lower(a) == Lower(b)
  }

  /** Python's `s.split(sep)` for a one-character separator: every piece,
      empty ones included. */
  function Split(s: string, sep: char): (r: seq<string>)
    ensures |r| >= 1
    ensures forall k :: 0 <= k < |r| ==> sep !in r[k]
    decreases |s|
  {
    var i := Find(s, sep);
    if i == |s| then [s] else [s[..i]] + Split(s[i + 1..], sep)
  }

  /** `sep.join(parts)`. */
  function Join(parts: seq<string>, sep: char): (r: string)
    requires |parts| >= 1
  {
    if |parts| == 1 then parts[0] else parts[0] + [sep] + Join(parts[1..], sep)
  }

  /** Splitting a join of `sep`-free parts gives the parts back. */
  lemma {:induction false} SplitJoin(parts: seq<string>, sep: char)
    requires |parts| >= 1
    requires forall k :: 0 <= k < |parts| ==> sep !in parts[k]
    ensures Split(Join(parts, sep), sep) == parts
  {
    if |parts| == 1 {
      SplitFree(parts[0], sep);
    } else {
      var rest := parts[1..];
      FreeParts(parts, sep);
      SplitJoin(rest, sep);
      var joined := Join(rest, sep);
      assert Join(parts, sep) == parts[0] + [sep] + joined;
      SplitStep(parts[0], joined, sep);
      assert [parts[0]] + rest == parts;
    }
  }

  /** The parts after the first are `sep`-free as well. */
  lemma FreeParts(parts: seq<string>, sep: char)
    requires |parts| >= 1
    requires forall k :: 0 <= k < |parts| ==> sep !in parts[k]
    ensures sep !in parts[0]
    ensures forall k :: 0 <= k < |parts[1..]| ==> sep !in parts[1..][k]
  {
    forall k | 0 <= k < |parts[1..]| ensures sep !in parts[1..][k] {
      assert parts[1..][k] == parts[k + 1];
    }
  }

  /** A text without `sep` splits into itself alone. */
  lemma SplitFree(s: string, sep: char)
    requires sep !in s
    ensures Split(s, sep) == [s]
  {
  }

  /** A `sep`-free head before the first `sep` is the first piece. */
  lemma SplitStep(head: string, rest: string, sep: char)
    requires sep !in head
    ensures Split(head + [sep] + rest, sep) == [head] + Split(rest, sep)
  {
    var s := head + [sep] + rest;
    assert s == head + ([sep] + rest);
    FindAppend(head, [sep] + rest, sep);
    assert Find([sep] + rest, sep) == 0;
    assert s[..|head|] == head;
    assert s[|head| + 1..] == rest;
  }

  /** Decimal rendering of a natural number (`%ld`, `std::to_string`,
      an f-string). */
  function NatToString(n: nat): (r: string)
    ensures |r| >= 1
    ensures forall i :: 0 <= i < |r| ==> IsDigit(r[i])
    decreases n
  {
    var d := ['0' + (n % 10) as char];
    if n < 10 then d else NatToString(n / 10) + d
  }

  /** Decimal rendering of an integer, with a leading '-' when negative. */
  function IntToString(n: int): (r: string)
    ensures |r| >= 1
    ensures n >= 0 <==> IsDigit(r[0])
    ensures forall i :: 0 <= i < |r| ==> IsDigit(r[i]) || r[i] == '-'
  {
    if n < 0 then "-" + NatToString(-n) else NatToString(n)
  }

  /** Splitting at the last `sep` is unambiguous: two joins with a
      `sep`-free right part that spell the same text have the same parts. */
  lemma JoinUnique(a: string, b: string, c: string, d: string, sep: char)
    requires a + [sep] + b == c + [sep] + d
    requires sep !in b && sep !in d
    ensures a == c && b == d
  {
    var s := a + [sep] + b;
    assert s[|a|] == sep && s[|c|] == sep;
    assert forall i :: |a| < i < |s| ==> s[i] == b[i - |a| - 1];
    assert forall i :: |c| < i < |s| ==> s[i] == d[i - |c| - 1];
    assert |a| == |c|;
    assert a == s[..|a|] && c == s[..|c|];
    assert b == s[|a| + 1..] && d == s[|c| + 1..];
  }

  lemma {:induction false} NatToStringInjective(a: nat, b: nat)
    requires NatToString(a) == NatToString(b)
    ensures a == b
    decreases a
  {
    var ra, rb := NatToString(a), NatToString(b);
    assert ra[|ra| - 1] == rb[|rb| - 1];
    assert a % 10 == b % 10;
    if a >= 10 && b >= 10 {
      assert ra[..|ra| - 1] == NatToString(a / 10);
      assert rb[..|rb| - 1] == NatToString(b / 10);
      NatToStringInjective(a / 10, b / 10);
    }
  }

  /** Different integers are rendered differently. */
  lemma IntToStringInjective(a: int, b: int)
    requires IntToString(a) == IntToString(b)
    ensures a == b
  {
    if a < 0 && b < 0 {
      assert IntToString(a)[1..] == NatToString(-a);
      assert IntToString(b)[1..] == NatToString(-b);
      NatToStringInjective(-a, -b);
    } else if a >= 0 && b >= 0 {
      NatToStringInjective(a, b);
    }
  }
}
