/**
 * Decimal rendering of integers (`int.ToString()` in the invariant culture) and ordinal
 * substring search (`string.IndexOf` / `string.LastIndexOf`).
 */
module Text {

  predicate IsDigit(c: char) {
    '0' <= c <= '9'
  }

  function DigitChar(d: nat): (c: char)
    requires d < 10
    ensures IsDigit(c) && c as int - '0' as int == d
  {
    ('0' as int + d) as char
  }

  /** Shortest decimal form of `n`, most significant digit first. */
  function NatToString(n: nat): (r: string)
    ensures |r| >= 1
    ensures forall i :: 0 <= i < |r| ==> IsDigit(r[i])
  {
    if n < 10 then [DigitChar(n)] else NatToString(n / 10) + [DigitChar(n % 10)]
  }

  /** The value of a string of decimal digits. */
  function DigitsValue(s: string): nat
    requires forall i :: 0 <= i < |s| ==> IsDigit(s[i])
  {
    if s == [] then 0
    else
      assert IsDigit(s[|s| - 1]);
      DigitsValue(s[..|s| - 1]) * 10 + (s[|s| - 1] as int - '0' as int)
  }

  lemma {:induction false} DigitsValueOfNatToString(n: nat)
    ensures DigitsValue(NatToString(n)) == n
  {
    if n >= 10 {
      var r := NatToString(n);
      assert r[..|r| - 1] == NatToString(n / 10);
      DigitsValueOfNatToString(n / 10);
    }
  }

  /** `int.ToString()`: a leading '-' for negative values, then the digits of the magnitude. */
  function IntToString(v: int): (r: string)
    ensures |r| >= 1
    ensures v >= 0 <==> IsDigit(r[0])
  {
    if v < 0 then "-" + NatToString(-v) else NatToString(v)
  }

  /** Reads back what `IntToString` writes. */
  function ParseInt(s: string): (r: int)
    requires |s| >= 1
    requires forall i :: 0 <= i < |s| ==> IsDigit(s[i]) || (i == 0 && s[i] == '-')
  {
    if s[0] == '-' then 0 - DigitsValue(s[1..]) as int else DigitsValue(s)
  }

  lemma ParseIntToString(v: int)
    ensures ParseInt(IntToString(v)) == v
  {
    if v < 0 {
      assert IntToString(v)[1..] == NatToString(-v);
      DigitsValueOfNatToString(-v);
    } else {
      DigitsValueOfNatToString(v);
    }
  }

  /** Distinct integers have distinct string forms. */
  lemma IntToStringInjective(a: int, b: int)
    requires IntToString(a) == IntToString(b)
    ensures a == b
  {
    ParseIntToString(a);
    ParseIntToString(b);
  }

  // ---------------------------------------------------------------- substring search

  predicate OccursAt(s: string, pat: string, i: int) {
    0 <= i && i + |pat| <= |s| && s[i..i + |pat|] == pat
  }

  /** First occurrence of `pat` in `s` at or after `from`, or -1. */
  function IndexOfFrom(s: string, pat: string, from: nat): (r: int)
    requires from <= |s|
    ensures r == -1 || (from <= r && OccursAt(s, pat, r))
    ensures forall j :: from <= j && (r == -1 || j < r) ==> !OccursAt(s, pat, j)
    decreases |s| - from
  {
    if from + |pat| > |s| then -1
    else if s[from..from + |pat|] == pat then from
    else IndexOfFrom(s, pat, from + 1)
  }

  /** `s.IndexOf(pat)`: index of the first occurrence of `pat`, or -1 when there is none. */
  function IndexOf(s: string, pat: string): (r: int)
    ensures r == -1 <==> forall j :: !OccursAt(s, pat, j)
    ensures r != -1 ==> OccursAt(s, pat, r) && forall j :: j < r ==> !OccursAt(s, pat, j)
  {
    IndexOfFrom(s, pat, 0)
  }

  /** Last occurrence of `pat` starting strictly before `upto`, or -1. */
  function LastIndexOfBefore(s: string, pat: string, upto: nat): (r: int)
    ensures r == -1 || (r < upto && OccursAt(s, pat, r))
    ensures forall j :: j < upto && (r == -1 || r < j) ==> !OccursAt(s, pat, j)
  {
    if upto == 0 then -1
    else if OccursAt(s, pat, upto - 1) then upto - 1
    else LastIndexOfBefore(s, pat, upto - 1)
  }

  /** `s.LastIndexOf(pat)` for a non-empty pattern: index of the last occurrence, or -1. */
  function LastIndexOf(s: string, pat: string): (r: int)
    ensures r == -1 <==> forall j :: !OccursAt(s, pat, j)
    ensures r != -1 ==> OccursAt(s, pat, r) && forall j :: r < j ==> !OccursAt(s, pat, j)
  {
    LastIndexOfBefore(s, pat, |s| + 1)
  }

  /** Index of the first `c` in `s`, or `|s|` when there is none. */
  function FirstIndexOfChar(s: string, c: char): (r: nat)
    ensures r <= |s|
  {
    if s == [] || s[0] == c then 0 else 1 + FirstIndexOfChar(s[1..], c)
  }

  /** In `x + [c] + t`, with no `c` in `x`, the first `c` is the one after `x`. */
  lemma {:induction false} FirstSeparatorAfter(x: string, c: char, t: string)
    requires forall k :: 0 <= k < |x| ==> x[k] != c
    ensures FirstIndexOfChar(x + [c] + t, c) == |x|
  {
    if x != [] {
      assert (x + [c] + t)[1..] == x[1..] + [c] + t;
      FirstSeparatorAfter(x[1..], c, t);
    }
  }

  /** Two strings split at their first `c` the same way when neither head holds a `c`. */
  lemma SplitAtSeparator(x: string, y: string, c: char, t: string, u: string)
    requires forall k :: 0 <= k < |x| ==> x[k] != c
    requires forall k :: 0 <= k < |y| ==> y[k] != c
    requires x + [c] + t == y + [c] + u
    ensures x == y && t == u
  {
    var s := x + [c] + t;
    FirstSeparatorAfter(x, c, t);
    FirstSeparatorAfter(y, c, u);
    assert x == s[..|x|] && t == s[|x| + 1..];
    assert y == s[..|y|] && u == s[|y| + 1..];
  }

  /** Leading-character trim (`s.TrimStart(c)`). */
  function TrimStart(s: string, c: char): (r: string)
    ensures |r| <= |s| && r == s[|s| - |r|..]
    ensures r == [] || r[0] != c
    ensures forall i :: 0 <= i < |s| - |r| ==> s[i] == c
  {
    if s != [] && s[0] == c then TrimStart(s[1..], c) else s
  }
}
