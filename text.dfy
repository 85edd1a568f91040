/** String helpers shared by the three handlers: substring search, the
    ASCII case mapping used on file extensions, and decimal rendering and
    parsing of the numbers that appear in CGI header lines. */
module Text {

  datatype Option<T> = None | Some(value: T) {
    function GetOr(default: T): T {
      match this
      case Some(v) => v
      case None => default
    }
  }

  /** `p` occurs in `s` starting at index `i`. */
  predicate OccursAt(s: string, p: string, i: nat) {
    i + |p| <= |s| && s[i..i + |p|] == p
  }

  predicate Contains(s: string, p: string) {
    exists i: nat | i <= |s| :: OccursAt(s, p, i)
  }

  predicate StartsWith(s: string, p: string) {
    |p| <= |s| && s[..|p|] == p
  }

  predicate EndsWith(s: string, p: string) {
    |p| <= |s| && s[|s| - |p|..] == p
  }

  /** First occurrence of `p` in `s` at or after `k`. */
  function IndexFrom(s: string, p: string, k: nat): (r: Option<nat>)
    decreases |s| - k
    ensures r.Some? ==> k <= r.value && OccursAt(s, p, r.value)
    ensures r.Some? ==> forall j: nat :: k <= j < r.value ==> !OccursAt(s, p, j)
    ensures r.None? ==> forall j: nat :: k <= j ==> !OccursAt(s, p, j)
  {
    if |s| < k + |p| then None
    else if s[k..k + |p|] == p then Some(k)
    else IndexFrom(s, p, k + 1)
  }

  /** The index of the first occurrence of `p` in `s` (Java `indexOf`,
      Go `strings.Index`), or None. */
  function IndexOf(s: string, p: string): (r: Option<nat>)
    ensures r.Some? ==> OccursAt(s, p, r.value)
    ensures r.Some? ==> forall j: nat :: j < r.value ==> !OccursAt(s, p, j)
    ensures r.None? <==> !Contains(s, p)
  {
    IndexFrom(s, p, 0)
  }

  /** Text after the first occurrence of `p`, if there is one (the second
      half of Python's `s.split(p, 1)`). */
  function After(s: string, p: string): (r: Option<string>)
    ensures r.None? <==> !Contains(s, p)
    ensures r.Some? ==> exists i: nat :: OccursAt(s, p, i) && r.value == s[i + |p|..]
  {
    match IndexOf(s, p)
    case None => None
    case Some(i) => Some(s[i + |p|..])
  }

  /** Text before the first occurrence of `p`, or all of `s` (the first
      element of Python's `s.split(p, 1)`). */
  function Before(s: string, p: string): (r: string)
    ensures StartsWith(s, r)
    ensures !Contains(s, p) ==> r == s
    ensures Contains(s, p) ==> OccursAt(s, p, |r|)
    ensures forall j: nat :: j < |r| ==> !OccursAt(s, p, j)
  {
    match IndexOf(s, p)
    case None => s
    case Some(i) => s[..i]
  }

  /** Splitting at a first occurrence of `p` gives back the two sides. */
  lemma SplitAtFirst(prefix: string, p: string, rest: string)
    requires forall j: nat :: j < |prefix| ==> !OccursAt(prefix + p + rest, p, j)
    ensures After(prefix + p + rest, p) == Some(rest)
    ensures Before(prefix + p + rest, p) == prefix
  {
    var s := prefix + p + rest;
    assert OccursAt(s, p, |prefix|);
    assert s[|prefix| + |p|..] == rest;
    assert s[..|prefix|] == prefix;
  }

  /** A one-character pattern occurs only where that character is. */
  lemma ContainsChar(s: string, c: char)
    ensures Contains(s, [c]) <==> c in s
  {
    if c in s {
      var i :| 0 <= i < |s| && s[i] == c;
      assert OccursAt(s, [c], i);
    }
    if Contains(s, [c]) {
      var i: nat :| i <= |s| && OccursAt(s, [c], i);
      assert s[i..i + 1][0] == s[i];
    }
  }

  /** Index of the last `c` in `s`. */
  function LastIndexOf(s: string, c: char): (r: Option<nat>)
    ensures r.Some? ==> r.value < |s| && s[r.value] == c
    ensures r.Some? ==> forall j :: r.value < j < |s| ==> s[j] != c
    ensures r.None? <==> c !in s
  {
    if s == [] then None
    else if s[|s| - 1] == c then Some(|s| - 1)
    else
      assert s == s[..|s| - 1] + [s[|s| - 1]];
      LastIndexOf(s[..|s| - 1], c)
  }

  /** A `c` with no other `c` after it is the last one. */
  lemma LastIndexOfUnique(s: string, c: char, i: nat)
    requires i < |s| && s[i] == c && c !in s[i + 1..]
    ensures LastIndexOf(s, c) == Some(i)
  {
    assert c in s by { assert s[i] == c; }
    forall j | i < j < |s|
      ensures s[j] != c
    {
      assert s[i + 1..][j - i - 1] == s[j];
    }
  }

  /** In `head + tail`, where `tail` starts with the only `c` it holds,
      the last `c` is the one that starts `tail`. */
  lemma LastOccurrence(head: string, tail: string, c: char)
    requires tail != [] && tail[0] == c && c !in tail[1..]
    ensures LastIndexOf(head + tail, c) == Some(|head|)
    ensures (head + tail)[|head|..] == tail
  {
    var s := head + tail;
    assert s[|head| + 1..] == tail[1..];
    LastIndexOfUnique(s, c, |head|);
  }

  /** Text after the last `c`, or all of `s` when there is none. */
  function AfterLast(s: string, c: char): (r: string)
    ensures c !in r
    ensures c !in s ==> r == s
    ensures EndsWith(s, r)
    ensures c in s ==> |r| < |s| && s[|s| - |r| - 1] == c
  {
    match LastIndexOf(s, c)
    case None => s
    case Some(i) => s[i + 1..]
  }

  /** Appending text without `c` extends what follows the last `c`. */
  lemma AfterLastAppend(s: string, t: string, c: char)
    requires c !in t
    ensures AfterLast(s + t, c) == AfterLast(s, c) + t
  {
    match LastIndexOf(s, c)
    case None =>
      assert c !in s + t;
    case Some(i) =>
      var tail := s[i + 1..];
      forall k | 0 <= k < |tail|
        ensures tail[k] != c
      {
        assert tail[k] == s[i + 1 + k];
      }
      assert (s + t)[i + 1..] == s[i + 1..] + t;
      assert (s + t)[i] == c;
      LastIndexOfUnique(s + t, c, i);
      assert AfterLast(s + t, c) == (s + t)[i + 1..];
  }

  function LowerChar(c: char): char {
    if 'A' <= c <= 'Z' then (c as int + 32) as char else c
  }

  /** ASCII lower-casing. */
  function ToLower(s: string): (r: string)
    ensures |r| == |s|
    ensures forall i :: 0 <= i < |s| ==> r[i] == LowerChar(s[i])
  {
    if s == [] then [] else [LowerChar(s[0])] + ToLower(s[1..])
  }

  predicate IsDigit(c: char) {
    '0' <= c <= '9'
  }

  predicate AllDigits(s: string) {
    forall i :: 0 <= i < |s| ==> IsDigit(s[i])
  }

  function DigitChar(d: nat): (c: char)
    requires d < 10
    ensures IsDigit(c)
  {
    ('0' as int + d) as char
  }

  /** Decimal rendering of a natural number, as Java's string concatenation
      and Go's `%d` print it. */
  function NatToString(n: nat): (r: string)
    ensures r != [] && AllDigits(r)
  {
    if n < 10 then [DigitChar(n)] else NatToString(n / 10) + [DigitChar(n % 10)]
  }

  /** The value of a string of decimal digits. */
  function ParseNat(s: string): nat
    requires AllDigits(s)
  {
    if s == [] then 0
    else ParseNat(s[..|s| - 1]) * 10 + (s[|s| - 1] as int - '0' as int)
  }

  /** Decimal rendering and parsing are inverse to each other. */
  lemma {:induction false} ParseNatToString(n: nat)
    ensures ParseNat(NatToString(n)) == n
  {
    if n >= 10 {
      var s := NatToString(n);
      assert s[..|s| - 1] == NatToString(n / 10);
      ParseNatToString(n / 10);
    }
  }

  /** The maximal run of digits at the start of `s`. */
  function LeadingDigits(s: string): (r: string)
    ensures AllDigits(r) && StartsWith(s, r)
  {
    if s != [] && IsDigit(s[0]) then [s[0]] + LeadingDigits(s[1..]) else []
  }

  lemma {:induction false} LeadingDigitsOfNumber(d: string, rest: string)
    requires AllDigits(d)
    requires rest == [] || !IsDigit(rest[0])
    ensures LeadingDigits(d + rest) == d
  {
    if d != [] {
      assert (d + rest)[1..] == d[1..] + rest;
      LeadingDigitsOfNumber(d[1..], rest);
    } else {
      assert d + rest == rest;
    }
  }
}
