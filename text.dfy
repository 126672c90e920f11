/**
 * String helpers with the meaning JavaScript gives them, restricted to ASCII:
 * `trim`, `toLowerCase`, `includes`, `startsWith`, `endsWith`, `indexOf`,
 * `lastIndexOf`, `substring(0, n)` and decimal rendering of integers.
 */
module Text {

  import opened Wrappers

  /** The characters JavaScript's `\s` and `trim` treat as white space, ASCII part only. */
  predicate IsSpace(c: char) {
    c == ' ' || c == '\t' || c == '\n' || c == '\r' || c == '\U{000B}' || c == '\U{000C}'
  }

  predicate AllSpace(s: string) {
    forall i :: 0 <= i < |s| ==> IsSpace(s[i])
  }

  /** True when the string neither starts nor ends with white space. */
  predicate IsTrimmed(s: string) {
    s == [] || (!IsSpace(s[0]) && !IsSpace(s[|s| - 1]))
  }

  /** `t` is a contiguous piece of `s`. */
  ghost predicate IsSlice(t: string, s: string) {
    exists i, j :: 0 <= i <= j <= |s| && t == s[i..j]
  }

  /** Number of white-space characters at the start of `s`. */
  function LeadingSpaces(s: string): (n: nat)
    ensures n <= |s| && forall k :: 0 <= k < n ==> IsSpace(s[k])
    ensures n == |s| || !IsSpace(s[n])
  {
    if |s| > 0 && IsSpace(s[0]) then
      var m := LeadingSpaces(s[1..]);
      assert forall k :: 0 < k < m + 1 ==> s[k] == s[1..][k - 1];
      m + 1
    else 0
  }

  /** Number of white-space characters at the end of `s`. */
  function TrailingSpaces(s: string): (n: nat)
    ensures n <= |s| && forall k :: |s| - n <= k < |s| ==> IsSpace(s[k])
    ensures n == |s| || !IsSpace(s[|s| - n - 1])
  {
    if |s| > 0 && IsSpace(s[|s| - 1]) then
      var init := s[..|s| - 1];
      var m := TrailingSpaces(init);
      assert forall k :: 0 <= k < |init| ==> init[k] == s[k];
      m + 1
    else 0
  }

  /** `s` with `a` characters dropped from the start and `b` from the end. */
  function Strip(s: string, a: nat, b: nat): (r: string)
    requires a + b <= |s|
    ensures |r| == |s| - a - b
    ensures forall k :: 0 <= k < |r| ==> r[k] == s[a + k]
  {
    s[a..|s| - b]
  }

  lemma AllSpacePrefix(s: string, a: nat)
    requires a <= |s| && forall k :: 0 <= k < a ==> IsSpace(s[k])
    ensures AllSpace(s[..a])
  {
    forall k | 0 <= k < a ensures IsSpace(s[..a][k]) {
      assert s[..a][k] == s[k];
    }
  }

  lemma AllSpaceSuffix(s: string, b: nat)
    requires b <= |s| && forall k :: |s| - b <= k < |s| ==> IsSpace(s[k])
    ensures AllSpace(s[|s| - b..])
  {
    var t := s[|s| - b..];
    forall k | 0 <= k < |t| ensures IsSpace(t[k]) {
      assert t[k] == s[|s| - b + k];
    }
  }

  lemma StripTrimmed(s: string, a: nat, b: nat)
    requires a + b < |s| && !IsSpace(s[a]) && !IsSpace(s[|s| - b - 1])
    ensures IsTrimmed(Strip(s, a, b))
  {
    var r := Strip(s, a, b);
    assert r[0] == s[a] && r[|r| - 1] == s[|s| - b - 1];
  }

  /** Between leading and trailing white space that stop at a non-space: a trimmed core. */
  lemma TrimSlice(s: string, a: nat, b: nat)
    requires a < |s| && !IsSpace(s[a]) && forall k :: 0 <= k < a ==> IsSpace(s[k])
    requires a + b < |s| && !IsSpace(s[|s| - b - 1]) && forall k :: |s| - b <= k < |s| ==> IsSpace(s[k])
    ensures IsTrimmed(Strip(s, a, b))
    ensures AllSpace(s[..a]) && AllSpace(s[|s| - b..])
  {
    StripTrimmed(s, a, b);
    AllSpacePrefix(s, a);
    AllSpaceSuffix(s, b);
  }

  /** A string that is white space up to its end. */
  lemma AllSpaceWhole(s: string)
    requires LeadingSpaces(s) == |s|
    ensures AllSpace(s[..|s|]) && AllSpace(s[|s|..])
  {
    assert s[..|s|] == s;
  }

  /**
   * `String.prototype.trim`: the slice of `s` left after removing white space
   * at both ends. Only white space is removed, and none is left at either end.
   */
  function Trim(s: string): (r: string)
    ensures IsTrimmed(r)
    ensures exists i, j :: 0 <= i <= j <= |s| && r == s[i..j] && AllSpace(s[..i]) && AllSpace(s[j..])
  {
    var a := LeadingSpaces(s);
    if a == |s| then
      AllSpaceWhole(s);
      assert s[|s|..|s|] == "";
      ""
    else
      var b := TrailingSpaces(s);
      TrailingSpacesBelow(s, a);
      TrimSlice(s, a, b);
      Strip(s, a, b)
  }

  /** `Trim` unfolded: nothing for white space only, else what lies between the leading and the trailing white space. */
  lemma TrimBounds(s: string)
    ensures LeadingSpaces(s) == |s| ==> Trim(s) == ""
    ensures LeadingSpaces(s) < |s| ==>
      LeadingSpaces(s) + TrailingSpaces(s) < |s| && Trim(s) == Strip(s, LeadingSpaces(s), TrailingSpaces(s))
  {
    if LeadingSpaces(s) < |s| {
      TrailingSpacesBelow(s, LeadingSpaces(s));
    }
  }

  /** `trim` leaves nothing exactly when the string is white space only. */
  lemma TrimEmptyIff(s: string)
    ensures Trim(s) == "" <==> AllSpace(s)
  {
    TrimBounds(s);
  }

  /** `s[k]` is white space when it lies inside an all-white-space slice. */
  lemma AllSpaceAt(s: string, i: nat, j: nat, k: nat)
    requires i <= k < j <= |s| && AllSpace(s[i..j])
    ensures IsSpace(s[k])
  {
    assert s[i..j][k - i] == s[k];
  }

  /** Slicing a slice is slicing the original at shifted bounds. */
  lemma SliceOfSliceAt(s: string, i': nat, j': nat, i: nat, j: nat)
    requires i' <= j' <= |s| && i <= j <= j' - i'
    ensures s[i'..j'][i..j] == s[i' + i..i' + j]
  {
    forall k | 0 <= k < j - i ensures s[i'..j'][i..j][k] == s[i' + i..i' + j][k] {
      assert s[i'..j'][i..j][k] == s[i'..j'][i + k];
    }
  }

  /** A slice of a slice is a slice. */
  lemma {:induction false} SliceOfSlice(t: string, u: string, s: string)
    requires IsSlice(t, u) && IsSlice(u, s)
    ensures IsSlice(t, s)
  {
    var i, j :| 0 <= i <= j <= |u| && t == u[i..j];
    var i', j' :| 0 <= i' <= j' <= |s| && u == s[i'..j'];
    SliceOfSliceAt(s, i', j', i, j);
    assert 0 <= i' + i <= i' + j <= |s| && t == s[i' + i..i' + j];
  }

  lemma TrimIsSlice(s: string)
    ensures IsSlice(Trim(s), s)
  {
    var i, j :| 0 <= i <= j <= |s| && Trim(s) == s[i..j] && AllSpace(s[..i]) && AllSpace(s[j..]);
    assert 0 <= i <= j <= |s| && Trim(s) == s[i..j];
  }

  lemma LeadingSpacesOfPadded(a: string, rest: string)
    requires AllSpace(a) && rest != [] && !IsSpace(rest[0])
    ensures LeadingSpaces(a + rest) == |a|
    decreases |a|
  {
    if a != [] {
      assert (a + rest)[1..] == a[1..] + rest;
      LeadingSpacesOfPadded(a[1..], rest);
    }
  }

  lemma TrailingSpacesOfPadded(rest: string, b: string)
    requires AllSpace(b) && rest != [] && !IsSpace(rest[|rest| - 1])
    ensures TrailingSpaces(rest + b) == |b|
    decreases |b|
  {
    if b != [] {
      assert (rest + b)[..|rest + b| - 1] == rest + b[..|b| - 1];
      TrailingSpacesOfPadded(rest, b[..|b| - 1]);
    }
  }

  /** Trimming a non-empty trimmed core padded with white space gives back the core. */
  lemma TrimOfPadded(a: string, m: string, b: string)
    requires AllSpace(a) && AllSpace(b) && IsTrimmed(m) && m != []
    ensures Trim(a + m + b) == m
  {
    var s := a + m + b;
    assert s == a + (m + b);
    LeadingSpacesOfPadded(a, m + b);
    TrailingSpacesOfPadded(a + m, b);
    TrimBounds(s);
    assert Strip(s, |a|, |b|) == m;
  }

  /** The count of leading white space is exactly `n` when `n` spaces are followed by a non-space. */
  lemma {:induction false} LeadingSpacesExact(s: string, n: nat)
    requires n < |s| && !IsSpace(s[n])
    requires forall k :: 0 <= k < n ==> IsSpace(s[k])
    ensures LeadingSpaces(s) == n
    decreases n
  {
    if n > 0 {
      LeadingSpacesExact(s[1..], n - 1);
    }
  }

  /** Leading white space stops at the first non-space character. */
  lemma {:induction false} LeadingSpacesBelow(s: string, p: nat)
    requires p < |s| && !IsSpace(s[p])
    ensures LeadingSpaces(s) <= p
    decreases p
  {
    if p > 0 && IsSpace(s[0]) {
      LeadingSpacesBelow(s[1..], p - 1);
    }
  }

  /** Trailing white space stops at the last non-space character. */
  lemma {:induction false} TrailingSpacesBelow(s: string, p: nat)
    requires p < |s| && !IsSpace(s[p])
    ensures TrailingSpaces(s) <= |s| - 1 - p
    decreases |s|
  {
    if p < |s| - 1 && IsSpace(s[|s| - 1]) {
      TrailingSpacesBelow(s[..|s| - 1], p);
    }
  }

  /** The count of trailing white space is exactly `n` when a non-space precedes `n` spaces. */
  lemma {:induction false} TrailingSpacesExact(s: string, n: nat)
    requires n < |s| && !IsSpace(s[|s| - 1 - n])
    requires forall k :: |s| - n <= k < |s| ==> IsSpace(s[k])
    ensures TrailingSpaces(s) == n
    decreases n
  {
    if n > 0 {
      TrailingSpacesExact(s[..|s| - 1], n - 1);
    }
  }

  /** Trimming a non-empty trimmed core followed by white space gives back the core. */
  lemma TrimOfRightPadded(m: string, b: string)
    requires AllSpace(b) && IsTrimmed(m) && m != []
    ensures Trim(m + b) == m
  {
    assert [] + m + b == m + b;
    TrimOfPadded([], m, b);
  }

  lemma SlicePrefix(s: string, i: nat, j: nat, k: nat)
    requires i <= j <= k <= |s|
    ensures s[i..k][..j - i] == s[i..j]
  {
    forall n | 0 <= n < j - i ensures s[i..k][..j - i][n] == s[i..j][n] {
      assert s[i..k][n] == s[i + n];
    }
  }

  lemma SliceSuffix(s: string, i: nat, j: nat, k: nat)
    requires i <= j <= k <= |s|
    ensures s[i..k][j - i..] == s[j..k]
  {
    forall n | 0 <= n < k - j ensures s[i..k][j - i..][n] == s[j..k][n] {
      assert s[i..k][j - i + n] == s[j + n];
    }
  }

  lemma StripStartsWith(s: string, a: nat, b: nat, q: nat)
    requires a <= q < |s| - b
    ensures StartsWith(Strip(s, a, b), s[a..q + 1])
  {
    SlicePrefix(s, a, q + 1, |s| - b);
  }

  lemma StripEndsWith(s: string, a: nat, b: nat, p: nat)
    requires a <= p < |s| - b
    ensures EndsWith(Strip(s, a, b), s[p..|s| - b])
  {
    SliceSuffix(s, a, p, |s| - b);
  }

  /** Trimming keeps a piece that starts at the first non-space: the trimmed text starts with it. */
  lemma TrimKeepsStart(s: string, p: nat, q: nat)
    requires p <= q < |s| && !IsSpace(s[p]) && !IsSpace(s[q])
    requires forall k :: 0 <= k < p ==> IsSpace(s[k])
    ensures StartsWith(Trim(s), s[p..q + 1])
  {
    LeadingSpacesExact(s, p);
    TrailingSpacesBelow(s, q);
    TrimBounds(s);
    StripStartsWith(s, p, TrailingSpaces(s), q);
  }

  /** Trimming keeps a piece that ends at the last non-space: the trimmed text ends with it. */
  lemma TrimKeepsEnd(s: string, p: nat, q: nat)
    requires p <= q < |s| && !IsSpace(s[p]) && !IsSpace(s[q])
    requires forall k :: q < k < |s| ==> IsSpace(s[k])
    ensures EndsWith(Trim(s), s[p..q + 1])
  {
    LeadingSpacesBelow(s, p);
    TrailingSpacesExact(s, |s| - 1 - q);
    TrimBounds(s);
    StripEndsWith(s, LeadingSpaces(s), |s| - 1 - q, p);
  }

  /** The pieces `f(x)` of the elements of `xs`, concatenated in order. */
  function ConcatMap<T>(f: T -> string, xs: seq<T>): string {
    if |xs| == 0 then "" else ConcatMap(f, xs[..|xs| - 1]) + f(xs[|xs| - 1])
  }

  lemma ConcatMapSnoc<T>(f: T -> string, xs: seq<T>, x: T)
    ensures ConcatMap(f, xs + [x]) == ConcatMap(f, xs) + f(x)
  {
    assert (xs + [x])[..|xs|] == xs;
  }

  lemma {:induction false} ConcatMapAppend<T>(f: T -> string, a: seq<T>, b: seq<T>)
    ensures ConcatMap(f, a + b) == ConcatMap(f, a) + ConcatMap(f, b)
    decreases |b|
  {
    if |b| == 0 {
      assert a + b == a;
    } else {
      var b' := b[..|b| - 1];
      assert (a + b)[..|a + b| - 1] == a + b';
      ConcatMapAppend(f, a, b');
    }
  }

  /** ASCII-only `toLowerCase` of one character. */
  function LowerChar(c: char): (r: char)
    ensures 'A' <= c <= 'Z' ==> r as int == c as int + 32
    ensures !('A' <= c <= 'Z') ==> r == c
  {
    if 'A' <= c <= 'Z' then (c as int + 32) as char else c
  }

  function ToLower(s: string): (r: string)
    ensures |r| == |s|
    ensures forall i :: 0 <= i < |s| ==> r[i] == LowerChar(s[i])
  {
    seq(|s|, i requires 0 <= i < |s| => LowerChar(s[i]))
  }

  /** Lower-casing twice is lower-casing once. */
  lemma LowerIdempotent(s: string)
    ensures ToLower(ToLower(s)) == ToLower(s)
  {
  }

  predicate StartsWith(s: string, prefix: string) {
    |prefix| <= |s| && s[..|prefix|] == prefix
  }

  predicate EndsWith(s: string, suffix: string) {
    |suffix| <= |s| && s[|s| - |suffix|..] == suffix
  }

  /** `t` occurs in `s` starting at index `i`. */
  predicate OccursAt(s: string, t: string, i: nat) {
    i + |t| <= |s| && s[i..i + |t|] == t
  }

  /** `s.indexOf(t, from)`: the first index at or after `from` where `t` occurs. */
  function IndexFrom(s: string, t: string, from: nat): (r: Option<nat>)
    ensures r.Some? ==> from <= r.value && OccursAt(s, t, r.value)
    ensures r.Some? ==> forall i :: from <= i < r.value ==> !OccursAt(s, t, i)
    ensures r.None? ==> forall i :: from <= i ==> !OccursAt(s, t, i)
    decreases |s| - from
  {
    if from + |t| > |s| then None
    else if s[from..from + |t|] == t then Some(from)
    else IndexFrom(s, t, from + 1)
  }

  function IndexOf(s: string, t: string): (r: Option<nat>)
    ensures r.Some? ==> OccursAt(s, t, r.value) && forall i :: 0 <= i < r.value ==> !OccursAt(s, t, i)
    ensures r.None? ==> forall i :: !OccursAt(s, t, i)
  {
    IndexFrom(s, t, 0)
  }

  /** The first occurrence at or after `from` is at `at` when `t` occurs there and nowhere in between. */
  lemma IndexFromAt(s: string, t: string, from: nat, at: nat)
    requires from <= at && OccursAt(s, t, at)
    requires forall i :: from <= i < at ==> !OccursAt(s, t, i)
    ensures IndexFrom(s, t, from) == Some(at)
  {
  }

  /** `s.includes(t)`. */
  predicate Contains(s: string, t: string) {
    IndexOf(s, t).Some?
  }

  lemma ContainsIff(s: string, t: string)
    ensures Contains(s, t) <==> exists i :: OccursAt(s, t, i)
  {
  }

  /** Every string contains the empty string. */
  lemma ContainsEmpty(s: string)
    ensures Contains(s, "")
  {
    assert OccursAt(s, "", 0);
  }

  lemma ContainsSelf(s: string)
    ensures Contains(s, s)
  {
    assert OccursAt(s, s, 0);
  }

  /** `s.lastIndexOf(c)`. */
  function LastIndexOf(s: string, c: char): (r: Option<nat>)
    ensures r.Some? ==> r.value < |s| && s[r.value] == c
    ensures r.Some? ==> forall j :: r.value < j < |s| ==> s[j] != c
    ensures r.None? ==> forall j :: 0 <= j < |s| ==> s[j] != c
  {
    if |s| == 0 then None
    else if s[|s| - 1] == c then Some(|s| - 1)
    else LastIndexOf(s[..|s| - 1], c)
  }

  /** `s.split(c).pop()`: the text after the last `c`, or all of `s` when there is none. */
  function AfterLast(s: string, c: char): (r: string)
    ensures forall j :: 0 <= j < |r| ==> r[j] != c
    ensures EndsWith(s, r)
    ensures |r| < |s| ==> s[|s| - |r| - 1] == c
  {
    match LastIndexOf(s, c)
    case Some(i) => s[i + 1..]
    case None => s
  }

  /** `s.substring(0, n)`. */
  function Take(s: string, n: nat): (r: string)
    ensures |r| == if |s| < n then |s| else n
    ensures StartsWith(s, r)
  {
    if |s| < n then s else s[..n]
  }

  function DigitChar(d: nat): char
    requires d < 10
  {
    ('0' as int + d) as char
  }

  /** The value of a decimal digit. */
  function DigitValue(c: char): int {
    c as int - '0' as int
  }

  /** The number a string of decimal digits denotes, read from the left. */
  function DigitsValue(s: string): int {
    if |s| == 0 then 0 else DigitsValue(s[..|s| - 1]) * 10 + DigitValue(s[|s| - 1])
  }

  /** Decimal rendering of a natural number, without leading zeros: its digits denote `n`. */
  function NatToString(n: nat): (r: string)
    ensures |r| > 0
    ensures forall i :: 0 <= i < |r| ==> '0' <= r[i] <= '9'
    ensures |r| > 1 ==> r[0] != '0'
    ensures DigitsValue(r) == n
  {
    if n < 10 then [DigitChar(n)]
    else
      var r := NatToString(n / 10) + [DigitChar(n % 10)];
      assert r[..|r| - 1] == NatToString(n / 10);
      r
  }

  function IntToString(n: int): string {
    if n < 0 then "-" + NatToString(-n) else NatToString(n)
  }
}
