/**
 The two pieces of java.lang text handling the tracker relies on:
 `String.trim()`, which strips every character at or below U+0020 from both
 ends, and the decimal rendering of an `int` that string concatenation uses.
 */
module JavaText {

  /** A character `String.trim()` removes: any code point at or below the space. */
  predicate Trimmable(c: char) {
    c <= ' '
  }

  predicate AllTrimmable(s: string) {
    forall k :: 0 <= k < |s| ==> Trimmable(s[k])
  }

  /** True when `s` is empty or starts and ends with a character trim keeps. */
  predicate TrimmedForm(s: string) {
    s == [] || (!Trimmable(s[0]) && !Trimmable(s[|s| - 1]))
  }

  /** The first index trim keeps: the number of leading trimmable characters. */
  function LeadingCount(s: string): (n: nat)
    ensures n <= |s|
    ensures forall k :: 0 <= k < n ==> Trimmable(s[k])
    ensures n < |s| ==> !Trimmable(s[n])
  {
    if |s| == 0 || !Trimmable(s[0]) then 0 else 1 + LeadingCount(s[1..])
  }

  /** The end index trim keeps: `len` is lowered while it stays above `st`
      and the character before it is trimmable. */
  function TrimEnd(s: string, st: nat): (len: nat)
    requires st <= |s|
    ensures st <= len <= |s|
    ensures forall k :: len <= k < |s| ==> Trimmable(s[k])
    ensures st < len ==> !Trimmable(s[len - 1])
    decreases |s|
  {
    if st < |s| && Trimmable(s[|s| - 1]) then TrimEnd(s[..|s| - 1], st) else |s|
  }

  /** `String.trim()`: the substring between the first and the last character
      above U+0020, or the empty string when there is none. */
  function Trim(s: string): (r: string)
    ensures LeadingCount(s) + |r| <= |s|
    ensures r == s[LeadingCount(s)..LeadingCount(s) + |r|]
    ensures forall k :: LeadingCount(s) + |r| <= k < |s| ==> Trimmable(s[k])
    ensures TrimmedForm(r)
    ensures r == [] <==> AllTrimmable(s)
  {
    var st := LeadingCount(s);
    var len := TrimEnd(s, st);
    assert st == |s| ==> AllTrimmable(s);
    assert st < |s| ==> !Trimmable(s[st]) && st < len;
    s[st..len]
  }

  lemma {:induction false} LeadingCountPrefix(p: string, m: string)
    requires AllTrimmable(p)
    requires m == [] || !Trimmable(m[0])
    ensures LeadingCount(p + m) == |p|
    decreases |p|
  {
    if p != [] {
      assert (p + m)[1..] == p[1..] + m;
      LeadingCountPrefix(p[1..], m);
    }
  }

  lemma {:induction false} TrimEndSuffix(m: string, q: string)
    requires AllTrimmable(q)
    requires m != [] && !Trimmable(m[|m| - 1])
    ensures TrimEnd(m + q, 0) == |m|
    decreases |q|
  {
    if q != [] {
      assert (m + q)[..|m + q| - 1] == m + q[..|q| - 1];
      TrimEndSuffix(m, q[..|q| - 1]);
    }
  }

  lemma {:induction false} TrimEndShift(p: string, rest: string)
    requires AllTrimmable(p)
    requires rest != [] && !Trimmable(rest[0])
    ensures TrimEnd(p + rest, |p|) == |p| + TrimEnd(rest, 0)
    decreases |rest|
  {
    var s := p + rest;
    if Trimmable(s[|s| - 1]) {
      assert |rest| > 1;
      assert s[..|s| - 1] == p + rest[..|rest| - 1];
      TrimEndShift(p, rest[..|rest| - 1]);
    }
  }

  /** Trim is pinned down by its result: whatever the trimmable padding on
      either side, trimming `p + m + q` gives back the trimmed core `m`. */
  lemma TrimOfPadded(p: string, m: string, q: string)
    requires AllTrimmable(p) && AllTrimmable(q)
    requires TrimmedForm(m)
    ensures Trim(p + m + q) == m
  {
    var s := p + m + q;
    if m == [] {
      assert s == p + q;
      assert AllTrimmable(s) by {
        forall k | 0 <= k < |s| ensures Trimmable(s[k]) {
          if k < |p| { assert s[k] == p[k]; } else { assert s[k] == q[k - |p|]; }
        }
      }
    } else {
      assert s == p + (m + q);
      LeadingCountPrefix(p, m + q);
      TrimEndShift(p, m + q);
      TrimEndSuffix(m, q);
      assert s[|p|..|p| + |m|] == m;
    }
  }

  /** A string with nothing to strip is kept as it is. */
  lemma TrimKeepsTrimmed(s: string)
    requires TrimmedForm(s)
    ensures Trim(s) == s
  {
  }

  /** Trimming twice is trimming once. */
  lemma TrimIdempotent(s: string)
    ensures Trim(Trim(s)) == Trim(s)
  {
  }

  // ---------------------------------------------------------------- decimal

  predicate IsDigit(c: char) {
    '0' <= c <= '9'
  }

  predicate AllDigits(s: string) {
    forall k :: 0 <= k < |s| ==> IsDigit(s[k])
  }

  function DigitChar(d: nat): (c: char)
    requires d < 10
    ensures IsDigit(c)
    ensures c as int - '0' as int == d
  {
    (('0' as int) + d) as char
  }

  function DigitValue(c: char): (d: nat)
    requires IsDigit(c)
    ensures d < 10
  {
    (c as int) - ('0' as int)
  }

  /** The decimal text Java produces for a non-negative `int`: no sign, no
      leading zero except for zero itself. */
  function NatToString(n: nat): (r: string)
    ensures r != []
    ensures AllDigits(r)
    ensures r[0] == '0' ==> n == 0 && |r| == 1
    decreases n
  {
    if n < 10 then [DigitChar(n)] else NatToString(n / 10) + [DigitChar(n % 10)]
  }

  /** Reads a string of decimal digits as a number, most significant first. */
  function ParseDecimal(s: string): nat
    requires AllDigits(s)
  {
    if s == [] then 0 else ParseDecimal(s[..|s| - 1]) * 10 + DigitValue(s[|s| - 1])
  }

  lemma {:induction false} ParseNatToString(n: nat)
    ensures ParseDecimal(NatToString(n)) == n
    decreases n
  {
    var r := NatToString(n);
    if n >= 10 {
      assert r[..|r| - 1] == NatToString(n / 10);
      ParseNatToString(n / 10);
    }
  }

  /** Distinct numbers render differently. */
  lemma NatToStringInjective(a: nat, b: nat)
    requires NatToString(a) == NatToString(b)
    ensures a == b
  {
    ParseNatToString(a);
    ParseNatToString(b);
  }

  // --------------------------------------------------------------- suffixes

  predicate EndsWith(s: string, suffix: string) {
    |suffix| <= |s| && s[|s| - |suffix|..] == suffix
  }
}
