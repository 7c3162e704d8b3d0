/**
 * Text operations applied to URLs, file names and palette keys, with the
 * meaning Python's `str` methods give them.
 */
module Strings {
  import opened Wrappers

  /** `s.startswith(prefix)` */
  predicate StartsWith(s: string, prefix: string) {
    |prefix| <= |s| && s[..|prefix|] == prefix
  }

  /** `s.endswith(suffix)` */
  predicate EndsWith(s: string, suffix: string) {
    |suffix| <= |s| && s[|s| - |suffix|..] == suffix
  }

  /**
   * `s.split(c)[-1]`: the text after the last occurrence of `c`, or all of
   * `s` when `c` does not occur; it is a suffix of `s`, free of `c`, and
   * preceded by `c` when shorter.
   */
  function AfterLast(s: string, c: char): (r: string)
    ensures |r| <= |s| && r == s[|s| - |r|..]
    ensures c !in r
    ensures |r| < |s| ==> s[|s| - |r| - 1] == c
    ensures c !in s ==> r == s
    decreases |s|
  {
    if s == [] then ""
    else if c in s[1..] then AfterLast(s[1..], c)
    else if s[0] == c then s[1..]
    else s
  }

  /** `s.split(c)[0]`: the text before the first occurrence of `c`, or all of `s` when `c` does not occur. */
  function BeforeFirst(s: string, c: char): (r: string)
    ensures |r| <= |s| && r == s[..|r|]
    ensures c !in r
    ensures |r| < |s| ==> s[|r|] == c
    decreases |s|
  {
    if s == [] || s[0] == c then ""
    else [s[0]] + BeforeFirst(s[1..], c)
  }

  /** `s.replace(pat, "")`: every non-overlapping occurrence, scanned left to right, removed. */
  function RemoveAll(s: string, pat: string): string
    requires |pat| > 0
    decreases |s|
  {
    if |s| < |pat| then s
    else if s[..|pat|] == pat then RemoveAll(s[|pat|..], pat)
    else [s[0]] + RemoveAll(s[1..], pat)
  }

  /** Text that does not contain the first character of `pat` is left as it is. */
  lemma {:induction false} RemoveAllAbsent(s: string, pat: string)
    requires |pat| > 0 && pat[0] !in s
    ensures RemoveAll(s, pat) == s
    decreases |s|
  {
    if |s| >= |pat| {
      assert s[..|pat|][0] == s[0];
      RemoveAllAbsent(s[1..], pat);
      assert s == [s[0]] + s[1..];
    }
  }

  /** Removing `pat` from `pat + s` removes the leading copy and goes on with `s`. */
  lemma RemoveAllLeading(pat: string, s: string)
    requires |pat| > 0
    ensures RemoveAll(pat + s, pat) == RemoveAll(s, pat)
  {
    assert (pat + s)[..|pat|] == pat;
    assert (pat + s)[|pat|..] == s;
  }

  predicate IsDigit(c: char) { '0' <= c <= '9' }

  predicate AllDigits(s: string) {
    forall i :: 0 <= i < |s| ==> IsDigit(s[i])
  }

  /** The value of a run of decimal digits, most significant first. */
  function DigitsValue(s: string): nat
    requires AllDigits(s)
    decreases |s|
  {
    if s == [] then 0
    else DigitsValue(s[..|s| - 1]) * 10 + ((s[|s| - 1] as int) - ('0' as int))
  }

  /**
   * `int(s)` for an optionally signed run of ASCII digits; `None` where
   * Python raises `ValueError`.
   */
  function ParseInt(s: string): Option<int> {
    if |s| > 0 && (s[0] == '+' || s[0] == '-') then
      if |s| > 1 && AllDigits(s[1..]) then
        var magnitude: int := DigitsValue(s[1..]);
        Some(if s[0] == '-' then -magnitude else magnitude)
      else None
    else if |s| > 0 && AllDigits(s) then Some(DigitsValue(s))
    else None
  }

  /** `str(n)` for a natural number. */
  function NatToString(n: nat): string
    decreases n
  {
    var d := [(('0' as int) + n % 10) as char];
    if n < 10 then d else NatToString(n / 10) + d
  }

  /** `int(str(n)) == n`. */
  lemma {:induction false} ParseNatToString(n: nat)
    ensures |NatToString(n)| > 0 && AllDigits(NatToString(n))
    ensures ParseInt(NatToString(n)) == Some(n)
    decreases n
  {
    var s := NatToString(n);
    if n >= 10 {
      ParseNatToString(n / 10);
      var p := NatToString(n / 10);
      assert s == p + [(('0' as int) + n % 10) as char];
      assert s[..|s| - 1] == p;
      assert DigitsValue(s) == DigitsValue(p) * 10 + n % 10;
      assert s[0] == p[0];
    } else {
      assert s[..0] == [];
      assert DigitsValue(s) == n;
    }
    assert s[0] != '+' && s[0] != '-';
    assert AllDigits(s) && |s| > 0;
  }

  /** Python's comparison `a <= b` on strings: lexicographic by code point. */
  predicate LessEq(a: string, b: string)
    decreases |a|
  {
    a == [] || (b != [] && (a[0] < b[0] || (a[0] == b[0] && LessEq(a[1..], b[1..]))))
  }

  lemma {:induction false} LessEqTotal(a: string, b: string)
    ensures LessEq(a, b) || LessEq(b, a)
    decreases |a|
  {
    if a != [] && b != [] && a[0] == b[0] {
      LessEqTotal(a[1..], b[1..]);
    }
  }

  lemma {:induction false} LessEqTransitive(a: string, b: string, c: string)
    requires LessEq(a, b) && LessEq(b, c)
    ensures LessEq(a, c)
    decreases |a|
  {
    if a != [] && a[0] == b[0] && b[0] == c[0] {
      LessEqTransitive(a[1..], b[1..], c[1..]);
    }
  }
}
