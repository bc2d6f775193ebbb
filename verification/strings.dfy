/**
 * String helpers used by the model: substring and suffix tests (standing in for the
 * regular expressions and `endsWith` calls of the modelled code) and decimal rendering
 * and reading of natural numbers (template-string interpolation and `parseInt`).
 */
module Strings {
  import opened Wrappers

  /** JavaScript truthiness of a string that may be `null` or `undefined`: present and non-empty. */
  predicate TruthyText(v: Option<string>)
  {
    v.Some? && v.value != ""
  }

  /** `t` occurs in `s` starting at position `i`. */
  predicate OccursAt(s: string, t: string, i: nat)
  {
    i + |t| <= |s| && s[i..i + |t|] == t
  }

  /** `t` is a substring of `s`: what an unanchored regular expression for `t` tests. */
  predicate Contains(s: string, t: string)
  {
    exists i: nat :: i + |t| <= |s| && OccursAt(s, t, i)
  }

  /** An occurrence of `p + t` is an occurrence of `p` followed directly by one of `t`. */
  lemma OccursAtConcat(s: string, p: string, t: string, i: nat)
    ensures OccursAt(s, p + t, i) <==> OccursAt(s, p, i) && OccursAt(s, t, i + |p|)
  {
    if OccursAt(s, p, i) && OccursAt(s, t, i + |p|) {
      assert s[i..i + |p + t|] == s[i..i + |p|] + s[i + |p|..i + |p| + |t|];
    }
    if OccursAt(s, p + t, i) {
      assert s[i..i + |p|] == s[i..i + |p + t|][..|p|];
      assert s[i + |p|..i + |p| + |t|] == s[i..i + |p + t|][|p|..];
    }
  }

  /** `s` contains `p + t` exactly when some occurrence of `p` is directly followed by `t`. */
  lemma ContainsConcat(s: string, p: string, t: string)
    ensures Contains(s, p + t) <==> exists i: nat :: OccursAt(s, p, i) && OccursAt(s, t, i + |p|)
  {
    if Contains(s, p + t) {
      var i: nat :| i + |p + t| <= |s| && OccursAt(s, p + t, i);
      OccursAtConcat(s, p, t, i);
    }
    if exists i: nat :: OccursAt(s, p, i) && OccursAt(s, t, i + |p|) {
      var i: nat :| OccursAt(s, p, i) && OccursAt(s, t, i + |p|);
      OccursAtConcat(s, p, t, i);
      assert i + |p + t| <= |s|;
    }
  }

  /** A string containing `t` contains the first character of `t`. */
  lemma ContainsHead(s: string, t: string)
    requires |t| > 0 && Contains(s, t)
    ensures t[0] in s
  {
    var i: nat :| i + |t| <= |s| && OccursAt(s, t, i);
    assert s[i] == s[i..i + |t|][0];
  }

  /** JavaScript's `s.endsWith(t)`. */
  predicate EndsWith(s: string, t: string)
  {
    |t| <= |s| && s[|s| - |t|..] == t
  }

  /** A substring of a substring is a substring. */
  lemma ContainsTransitive(s: string, t: string, u: string)
    requires Contains(s, t)
    requires Contains(t, u)
    ensures Contains(s, u)
  {
    var i: nat :| i + |t| <= |s| && OccursAt(s, t, i);
    var j: nat :| j + |u| <= |t| && OccursAt(t, u, j);
    assert t == s[i..i + |t|];
    forall k | 0 <= k < |u|
      ensures s[i + j..i + j + |u|][k] == u[k]
    {
      assert u[k] == t[j + k] == s[i + j + k];
    }
    assert OccursAt(s, u, i + j);
  }

  /** Every string contains its own suffix. */
  lemma ContainsSuffix(t: string, k: nat)
    requires k <= |t|
    ensures Contains(t, t[k..])
  {
    assert OccursAt(t, t[k..], k);
  }

  predicate IsDigit(c: char)
  {
    '0' <= c <= '9'
  }

  function DigitChar(d: nat): (c: char)
    requires d < 10
    ensures IsDigit(c)
  {
    ['0', '1', '2', '3', '4', '5', '6', '7', '8', '9'][d]
  }

  function DigitValue(c: char): (d: nat)
    requires IsDigit(c)
    ensures d < 10
  {
    (c as int - '0' as int) as nat
  }

  /** Decimal rendering of a natural number, as `${n}` produces it. */
  function NatToString(n: nat): (s: string)
    ensures |s| > 0
    ensures forall k :: 0 <= k < |s| ==> IsDigit(s[k])
  {
    if n < 10 then [DigitChar(n)] else NatToString(n / 10) + [DigitChar(n % 10)]
  }

  /** The value of a non-empty run of decimal digits, most significant first. */
  function DecimalValue(s: string): (v: nat)
    requires forall k :: 0 <= k < |s| ==> IsDigit(s[k])
  {
    if |s| == 0 then 0 else DecimalValue(s[..|s| - 1]) * 10 + DigitValue(s[|s| - 1])
  }

  /** Reading back a rendered number gives the number. */
  lemma {:induction false} DecimalRoundTrip(n: nat)
    ensures DecimalValue(NatToString(n)) == n
  {
    var s := NatToString(n);
    if n < 10 {
      assert s[..0] == [];
    } else {
      assert s[..|s| - 1] == NatToString(n / 10);
      DecimalRoundTrip(n / 10);
    }
  }

  /** Distinct numbers render as distinct strings. */
  lemma NatToStringInjective(a: nat, b: nat)
    requires NatToString(a) == NatToString(b)
    ensures a == b
  {
    DecimalRoundTrip(a);
    DecimalRoundTrip(b);
  }

  /** Appending a fixed suffix keeps distinct strings distinct. */
  lemma SuffixCancel(a: string, b: string, q: string)
    requires a + q == b + q
    ensures a == b
  {
    assert a == (a + q)[..|a|];
    assert |a| == |b|;
    assert b == (b + q)[..|b|];
  }

  /** Prepending a fixed prefix keeps distinct strings distinct. */
  lemma PrefixCancel(p: string, a: string, b: string)
    requires p + a == p + b
    ensures a == b
  {
    assert a == (p + a)[|p|..];
    assert b == (p + b)[|p|..];
  }
}
