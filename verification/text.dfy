/** The few Python `str` operations the modelled code relies on, written out
    over `seq<char>` (one `char` per Unicode code point, as in Python). */
module Text {

  /** Python's `str.isspace` on one code point: the characters `str.strip()`
      removes when called without arguments. */
  predicate IsSpace(c: char) {
    var n := c as int;
    || 9 <= n <= 13
    || 28 <= n <= 32
    || n == 0x85 || n == 0xA0 || n == 0x1680
    || 0x2000 <= n <= 0x200A
    || n == 0x2028 || n == 0x2029 || n == 0x202F || n == 0x205F || n == 0x3000
  }

  /** `not s.strip()`: the string is empty once surrounding whitespace is removed. */
  predicate IsBlank(s: string) {
    forall i | 0 <= i < |s| :: IsSpace(s[i])
  }

  /** Lower-casing of one code point, restricted to the ASCII letters. */
  function LowerChar(c: char): (r: char)
    ensures 'A' <= c <= 'Z' ==> 'a' <= r <= 'z' && r as int == c as int + 32
    ensures !('A' <= c <= 'Z') ==> r == c
  {
    if 'A' <= c <= 'Z' then (c as int + 32) as char else c
  }

  /** `s.lower()` on the ASCII letters; every other code point is kept. */
  function Lower(s: string): (r: string)
    ensures |r| == |s|
    ensures forall i | 0 <= i < |s| :: r[i] == LowerChar(s[i])
  {
    seq(|s|, i requires 0 <= i < |s| => LowerChar(s[i]))
  }

  /** Lower-casing twice is lower-casing once. */
  lemma LowerIdempotent(s: string)
    ensures Lower(Lower(s)) == Lower(s)
  {
  }

  /** Python's `w in s` on strings: `w` occurs as a contiguous piece of `s`. */
  predicate Contains(s: string, w: string)
    decreases |s|
  {
    w <= s || (|s| > 0 && Contains(s[1..], w))
  }

  /** `Contains` agrees with the positional reading of `w in s`. */
  lemma {:induction false} ContainsAt(s: string, w: string)
    ensures Contains(s, w) <==> exists i | 0 <= i <= |s| :: w <= s[i..]
    decreases |s|
  {
    if w <= s {
      assert w <= s[0..];
    } else if |s| > 0 {
      ContainsAt(s[1..], w);
      if Contains(s[1..], w) {
        var i :| 0 <= i <= |s[1..]| && w <= s[1..][i..];
        assert s[1..][i..] == s[i + 1..];
      } else {
        forall i | 0 <= i <= |s| ensures !(w <= s[i..]) {
          if i > 0 {
            assert s[i..] == s[1..][i - 1..];
          }
        }
      }
    }
  }

  /** A piece whose first letter never occurs is not found. */
  lemma AbsentLetter(s: string, w: string)
    requires |w| > 0
    requires forall i | 0 <= i < |s| :: s[i] != w[0]
    ensures !Contains(s, w)
  {
    ContainsAt(s, w);
    forall i | 0 <= i < |s| ensures !(w <= s[i..]) {
      assert s[i..][0] == s[i];
    }
  }

  /** A piece found in `a` is still found once more text follows. */
  lemma {:induction false} ContainsAppend(a: string, b: string, w: string)
    requires Contains(a, w)
    ensures Contains(a + b, w)
    decreases |a|
  {
    if !(w <= a) {
      ContainsAppend(a[1..], b, w);
      assert (a + b)[1..] == a[1..] + b;
    }
  }

  /** A piece found in `b` is still found once text is put in front. */
  lemma {:induction false} ContainsPrepend(a: string, b: string, w: string)
    requires Contains(b, w)
    ensures Contains(a + b, w)
    decreases |a|
  {
    if |a| == 0 {
      assert a + b == b;
    } else {
      ContainsPrepend(a[1..], b, w);
      assert (a + b)[1..] == a[1..] + b;
    }
  }

  /** Lower-casing works code point by code point, so it distributes over `+`. */
  lemma LowerAppend(a: string, b: string)
    ensures Lower(a + b) == Lower(a) + Lower(b)
  {
  }

  /** `s.endswith(suffix)`. */
  predicate EndsWith(s: string, suffix: string) {
    |suffix| <= |s| && s[|s| - |suffix|..] == suffix
  }

  /** `s[:n]` for a non-negative `n`. */
  function Take(s: string, n: nat): (r: string)
    ensures |r| == if n <= |s| then n else |s|
    ensures r <= s
  {
    if n <= |s| then s[..n] else s
  }

  /** `sep.join(parts)`. */
  function Join(sep: string, parts: seq<string>): string
  {
    if |parts| == 0 then ""
    else if |parts| == 1 then parts[0]
    else parts[0] + sep + Join(sep, parts[1..])
  }

  /** A join opens with its first part. */
  lemma JoinOpensWithFirst(sep: string, parts: seq<string>)
    requires |parts| > 0
    ensures parts[0] <= Join(sep, parts)
  {
  }

  /** Joining without a separator is concatenation, so it splits at any
      point of the parts. */
  lemma {:induction false} JoinEmptyAppend(p: seq<string>, q: seq<string>)
    ensures Join("", p + q) == Join("", p) + Join("", q)
    decreases |p|
  {
    if |p| == 0 {
      assert p + q == q;
    } else {
      JoinEmptyAppend(p[1..], q);
      assert (p + q)[0] == p[0] && (p + q)[1..] == p[1..] + q;
      JoinEmptyUncons(p);
      JoinEmptyUncons(p + q);
      assert Join("", p + q) == p[0] + (Join("", p[1..]) + Join("", q));
    }
  }

  /** A join without a separator is its first part followed by the join of
      the rest. */
  lemma JoinEmptyUncons(p: seq<string>)
    requires |p| > 0
    ensures Join("", p) == p[0] + Join("", p[1..])
  {
    var rest := Join("", p[1..]);
    if |p| == 1 {
      assert p[1..] == [] && rest == "";
      assert p[0] + rest == p[0];
    } else {
      assert Join("", p) == p[0] + "" + rest;
      assert p[0] + "" == p[0];
    }
  }

  /** Every part can be found in the joined text. */
  lemma {:induction false} JoinKeepsParts(sep: string, parts: seq<string>, i: nat)
    requires i < |parts|
    ensures Contains(Join(sep, parts), parts[i])
    decreases |parts|
  {
    if i == 0 {
      JoinOpensWithFirst(sep, parts);
    } else {
      JoinKeepsParts(sep, parts[1..], i - 1);
      assert parts[1..][i - 1] == parts[i];
      ContainsPrepend(parts[0] + sep, Join(sep, parts[1..]), parts[i]);
      assert Join(sep, parts) == parts[0] + sep + Join(sep, parts[1..]);
      assert parts[0] + sep + Join(sep, parts[1..]) == (parts[0] + sep) + Join(sep, parts[1..]);
    }
  }

  /** Every part can be found in the joined text, all at once. */
  lemma JoinKeepsAll(sep: string, parts: seq<string>)
    ensures forall i | 0 <= i < |parts| :: Contains(Join(sep, parts), parts[i])
  {
    forall i | 0 <= i < |parts| ensures Contains(Join(sep, parts), parts[i]) {
      JoinKeepsParts(sep, parts, i);
    }
  }

  /** `s * n`. */
  function Repeat(s: string, n: nat): string
  {
    if n == 0 then "" else s + Repeat(s, n - 1)
  }

  predicate IsDigit(c: char) {
    '0' <= c <= '9'
  }

  function DigitChar(d: nat): (c: char)
    requires d < 10
    ensures IsDigit(c) && c as int - '0' as int == d
  {
    ('0' as int + d) as char
  }

  /** `str(n)` for a non-negative integer: decimal digits, no leading zero. */
  function NatToString(n: nat): (r: string)
    ensures |r| >= 1
    ensures forall i | 0 <= i < |r| :: IsDigit(r[i])
    ensures r[0] == '0' ==> n == 0
    decreases n
  {
    if n < 10 then [DigitChar(n)] else NatToString(n / 10) + [DigitChar(n % 10)]
  }

  /** The number a string of decimal digits denotes (the inverse of `NatToString`). */
  function DecimalValue(s: string): nat
    requires forall i | 0 <= i < |s| :: IsDigit(s[i])
  {
    if |s| == 0 then 0
    else
      assert IsDigit(s[|s| - 1]);
      10 * DecimalValue(s[..|s| - 1]) + (s[|s| - 1] as int - '0' as int)
  }

  /** Reading back the decimal rendering gives the number. */
  lemma {:induction false} DecimalRoundTrip(n: nat)
    ensures DecimalValue(NatToString(n)) == n
    decreases n
  {
    var r := NatToString(n);
    if n >= 10 {
      DecimalRoundTrip(n / 10);
      assert r[..|r| - 1] == NatToString(n / 10);
    }
  }

  /** Distinct numbers render differently, so numbered headings never clash. */
  lemma NatToStringInjective(m: nat, n: nat)
    requires NatToString(m) == NatToString(n)
    ensures m == n
  {
    DecimalRoundTrip(m);
    DecimalRoundTrip(n);
  }
}
