/** The string operations the core relies on: Java's startsWith, contains and Long.toString. */
module Text {

  /** `s.startsWith(prefix)` */
  predicate StartsWith(s: string, prefix: string): (r: bool)
    ensures r <==> |prefix| <= |s| && forall i :: 0 <= i < |prefix| ==> s[i] == prefix[i]
  {
    |prefix| <= |s| && s[..|prefix|] == prefix
  }

  /** `sub` occurs in `s` starting at position `i`. */
  predicate OccursAt(s: string, sub: string, i: nat) {
    i + |sub| <= |s| && s[i..i + |sub|] == sub
  }

  /** `s.contains(sub)`: a case-sensitive test for a contiguous occurrence of `sub`. */
  predicate Contains(s: string, sub: string): (r: bool)
    ensures r ==> |sub| <= |s|
    ensures |sub| == 0 ==> r
  {
    assert |sub| == 0 ==> OccursAt(s, sub, 0);
    exists i: nat | i <= |s| :: OccursAt(s, sub, i)
  }

  /** An occurrence of `sub` at any position makes `s` contain it. */
  lemma ContainsAt(s: string, sub: string, i: nat)
    requires i + |sub| <= |s| && s[i..i + |sub|] == sub
    ensures Contains(s, sub)
  {
    assert OccursAt(s, sub, i);
  }

  /** A string built around `sub` contains it. */
  lemma ContainsInfix(a: string, sub: string, b: string)
    ensures Contains(a + sub + b, sub)
  {
    var s := a + sub + b;
    assert s[|a|..|a| + |sub|] == sub;
    ContainsAt(s, sub, |a|);
  }

  /** A string cannot contain a pattern holding a character the string lacks. */
  lemma ContainsNeedsChar(s: string, sub: string, c: char)
    requires c in sub && c !in s
    ensures !Contains(s, sub)
  {
    var k :| 0 <= k < |sub| && sub[k] == c;
    forall i: nat | i + |sub| <= |s|
      ensures !OccursAt(s, sub, i)
    {
      assert s[i..i + |sub|][k] == s[i + k];
    }
  }

  function DigitChar(d: nat): (c: char)
    requires d < 10
    ensures '0' <= c <= '9'
  {
    ('0' as int + d) as char
  }

  /** `Long.toString(n)` for a non-negative id: its decimal digits, most significant first. */
  function Decimal(n: nat): (s: string)
    ensures |s| >= 1 && (n < 10 <==> |s| == 1)
    ensures forall i :: 0 <= i < |s| ==> '0' <= s[i] <= '9'
    decreases n
  {
    if n < 10 then [DigitChar(n)] else Decimal(n / 10) + [DigitChar(n % 10)]
  }

  /** Distinct numbers have distinct decimal representations. */
  lemma {:induction false} DecimalInjective(m: nat, n: nat)
    requires Decimal(m) == Decimal(n)
    ensures m == n
  {
    if m >= 10 && n >= 10 {
      var a, b := Decimal(m / 10), Decimal(n / 10);
      assert a + [DigitChar(m % 10)] == b + [DigitChar(n % 10)];
      assert |a| == |b|;
      assert a == (a + [DigitChar(m % 10)])[..|a|];
      assert b == (b + [DigitChar(n % 10)])[..|b|];
      DecimalInjective(m / 10, n / 10);
      assert DigitChar(m % 10) == Decimal(m)[|a|] == DigitChar(n % 10);
    } else {
      assert m < 10 && n < 10;
      assert DigitChar(m) == Decimal(m)[0];
    }
  }

  /** Joining two separator-free heads to tails with the separator between is injective. */
  lemma SeparatedInjective(a: string, x: string, b: string, y: string, sep: char)
    requires sep !in a && sep !in b
    requires a + [sep] + x == b + [sep] + y
    ensures a == b && x == y
  {
    var s := a + [sep] + x;
    var t := b + [sep] + y;
    assert s[|a|] == sep && t[|b|] == sep;
    assert forall i :: 0 <= i < |b| ==> t[i] == b[i] != sep;
    assert forall i :: 0 <= i < |a| ==> s[i] == a[i] != sep;
    assert |a| == |b|;
    assert a == s[..|a|] && b == (b + [sep] + y)[..|b|];
    assert x == s[|a| + 1..] && y == (b + [sep] + y)[|b| + 1..];
  }
}
