/** Character and string helpers that the controllers and the client services rely on:
    the whitespace test behind `string.IsNullOrWhiteSpace`, case-insensitive prefix and
    substring matching, decimal number text, and JavaScript truthiness of numbers. */
module Text {
  import opened Wrappers

  /** The characters `char.IsWhiteSpace` accepts: U+0009..U+000D, U+0020, U+0085, U+00A0
      and the Unicode space, line and paragraph separators. */
  predicate IsWhiteSpace(c: char) {
    var n := c as int;
    || 0x09 <= n <= 0x0D || n == 0x20 || n == 0x85 || n == 0xA0 || n == 0x1680
    || 0x2000 <= n <= 0x200A || n == 0x2028 || n == 0x2029 || n == 0x202F
    || n == 0x205F || n == 0x3000
  }

  /** `string.IsNullOrWhiteSpace`: null, empty, or made only of white space. */
  predicate IsNullOrWhiteSpace(s: Option<string>) {
    s.None? || forall i :: 0 <= i < |s.value| ==> IsWhiteSpace(s.value[i])
  }

  /** Case folding used by the ignore-case comparisons (ASCII letters only). */
  function Fold(c: char): (d: char)
    ensures 'A' <= c <= 'Z' ==> d as int == c as int + 32
    ensures !('A' <= c <= 'Z') ==> d == c
  {
    if 'A' <= c <= 'Z' then (c as int + 32) as char else c
  }

  /** Do `a` and `b` agree character by character once case is folded? */
  predicate EqualsIgnoreCase(a: string, b: string) {
    |a| == |b| && forall i :: 0 <= i < |a| ==> Fold(a[i]) == Fold(b[i])
  }

  /** `s.StartsWith(p, ...IgnoreCase)`. */
  predicate StartsWithIgnoreCase(s: string, p: string) {
    |p| <= |s| && EqualsIgnoreCase(s[..|p|], p)
  }

  /** `s.Contains(p, ...IgnoreCase)`, scanning candidate start positions left to right. */
  predicate ContainsIgnoreCase(s: string, p: string)
    decreases |s|
  {
    StartsWithIgnoreCase(s, p) || (|s| > 0 && ContainsIgnoreCase(s[1..], p))
  }

  /** The substring test finds `p` iff some suffix of `s` starts with it. */
  lemma {:induction false} ContainsIgnoreCaseAt(s: string, p: string)
    ensures ContainsIgnoreCase(s, p) <==> exists i :: 0 <= i <= |s| && StartsWithIgnoreCase(s[i..], p)
    decreases |s|
  {
    assert s[0..] == s;
    if |s| > 0 {
      ContainsIgnoreCaseAt(s[1..], p);
      if ContainsIgnoreCase(s[1..], p) {
        var i :| 0 <= i <= |s[1..]| && StartsWithIgnoreCase(s[1..][i..], p);
        assert s[1..][i..] == s[i + 1..];
      }
      if exists i :: 0 <= i <= |s| && StartsWithIgnoreCase(s[i..], p) {
        var i :| 0 <= i <= |s| && StartsWithIgnoreCase(s[i..], p);
        if i > 0 {
          assert s[1..][i - 1..] == s[i..];
        }
      }
    }
  }

  /** In a string no longer than the pattern, the only place to find it is the start. */
  lemma {:induction false} ContainsInShort(s: string, p: string)
    requires |s| <= |p| && |p| > 0
    ensures ContainsIgnoreCase(s, p) <==> StartsWithIgnoreCase(s, p)
    decreases |s|
  {
    if |s| > 0 {
      ContainsInShort(s[1..], p);
    }
  }

  /** A prefix match is also a substring match: the prefix filter never keeps more than
      the substring filter. */
  lemma PrefixIsContained(s: string, p: string)
    requires StartsWithIgnoreCase(s, p)
    ensures ContainsIgnoreCase(s, p)
  {
  }

  predicate IsDigit(c: char) {
    '0' <= c <= '9'
  }

  function DigitChar(d: nat): (c: char)
    requires d < 10
    ensures IsDigit(c) && c as int - '0' as int == d
  {
    ('0' as int + d) as char
  }

  /** Decimal text of a natural number, without leading zeros (JavaScript `String(n)` and
      C# `n.ToString()` agree on these). */
  function NatToString(n: nat): (r: string)
    ensures |r| >= 1
    ensures forall i :: 0 <= i < |r| ==> IsDigit(r[i])
    ensures |r| > 1 ==> r[0] != '0'
    decreases n
  {
    if n < 10 then [DigitChar(n)] else NatToString(n / 10) + [DigitChar(n % 10)]
  }

  /** Decimal text of an integer: a minus sign before the digits of a negative number. */
  function IntToString(i: int): (r: string)
    ensures |r| >= 1
    ensures i >= 0 ==> r == NatToString(i)
    ensures i < 0 ==> r[0] == '-' && r[1..] == NatToString(-i)
  {
    if i < 0 then "-" + NatToString(-i) else NatToString(i)
  }

  /** Reads back a sequence of decimal digits. */
  function ParseNat(s: string): nat
    requires forall i :: 0 <= i < |s| ==> IsDigit(s[i])
    decreases |s|
  {
    if s == [] then 0
    else
      assert IsDigit(s[|s| - 1]);
      10 * ParseNat(s[..|s| - 1]) + (s[|s| - 1] as int - '0' as int)
  }

  /** Reads back optional minus sign and digits. */
  function ParseInt(s: string): int
    requires |s| >= 1
    requires s[0] == '-' ==> forall i :: 1 <= i < |s| ==> IsDigit(s[i])
    requires s[0] != '-' ==> forall i :: 0 <= i < |s| ==> IsDigit(s[i])
  {
    if s[0] == '-' then -(ParseNat(s[1..]) as int) else ParseNat(s)
  }

  lemma {:induction false} ParseNatToString(n: nat)
    ensures ParseNat(NatToString(n)) == n
    decreases n
  {
    if n >= 10 {
      ParseNatToString(n / 10);
      var s := NatToString(n);
      assert s[..|s| - 1] == NatToString(n / 10);
    }
  }

  /** Number text is read back as the same number, so it is also injective. */
  lemma ParseIntToString(i: int)
    ensures ParseInt(IntToString(i)) == i
  {
    if i < 0 {
      ParseNatToString(-i);
    } else {
      ParseNatToString(i);
    }
  }

  /** The part of `s` before the first `c` (all of `s` when there is none). */
  function Before(s: string, c: char): string
    decreases |s|
  {
    if s == [] || s[0] == c then [] else [s[0]] + Before(s[1..], c)
  }

  /** The part of `s` after the first `c` (empty when there is none). */
  function After(s: string, c: char): string
    decreases |s|
  {
    if s == [] then [] else if s[0] == c then s[1..] else After(s[1..], c)
  }

  /** Splitting at the first separator recovers the two parts when the first part does
      not contain the separator. */
  lemma {:induction false} SplitAtFirst(a: string, c: char, b: string)
    requires c !in a
    ensures Before(a + [c] + b, c) == a
    ensures After(a + [c] + b, c) == b
    decreases |a|
  {
    if a != [] {
      assert (a + [c] + b)[1..] == a[1..] + [c] + b;
      SplitAtFirst(a[1..], c, b);
    }
  }

  /** JavaScript truthiness of an optional number restricted to integers:
      `undefined` and `0` are falsy. */
  predicate IsTruthy(n: Option<int>) {
    n.Some? && n.value != 0
  }
}
