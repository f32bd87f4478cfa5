/** String and path primitives the janitor's rule tests are built on: ASCII
    lower-casing (standing in for Python's `str.lower`), `str.endswith`, the
    substring operator `in`, and POSIX `os.path.join`. */
module Text {

  predicate IsUpper(c: char) {
    'A' <= c <= 'Z'
  }

  /** Lower-case one character; only the ASCII letters 'A'..'Z' change. */
  function LowerChar(c: char): (d: char)
    ensures !IsUpper(d)
    ensures IsUpper(c) || d == c
    ensures IsUpper(c) ==> 'a' <= d <= 'z' && d as int - 'a' as int == c as int - 'A' as int
  {
    if IsUpper(c) then (c as int + 32) as char else c
  }

  /** Lower-case a string character by character. */
  function Lower(s: string): (r: string)
    ensures |r| == |s|
    ensures forall i :: 0 <= i < |s| ==> r[i] == LowerChar(s[i])
  {
    if s == [] then [] else [LowerChar(s[0])] + Lower(s[1..])
  }

  /** Lower-casing commutes with taking a slice. */
  lemma {:induction false} LowerSlice(s: string, i: nat, j: nat)
    requires i <= j <= |s|
    ensures Lower(s[i..j]) == Lower(s)[i..j]
  {
    var l, m := Lower(s[i..j]), Lower(s)[i..j];
    forall k | 0 <= k < j - i
      ensures l[k] == m[k]
    {
      assert s[i..j][k] == s[i + k];
    }
  }

  /** Python's `s.endswith(suffix)`; every string ends with "". */
  predicate EndsWith(s: string, suffix: string)
    ensures EndsWith(s, suffix) ==> |suffix| <= |s| && s == s[..|s| - |suffix|] + suffix
    ensures suffix == [] ==> EndsWith(s, suffix)
  {
    |suffix| <= |s| && s[|s| - |suffix|..] == suffix
  }

  /** Conversely, anything followed by `suffix` ends with it. */
  lemma {:induction false} EndsWithConcat(p: string, suffix: string)
    ensures EndsWith(p + suffix, suffix)
  {
    assert (p + suffix)[|p|..] == suffix;
  }

  predicate OccursAt(s: string, sub: string, i: nat)
    requires i + |sub| <= |s|
  {
    s[i..i + |sub|] == sub
  }

  /** Python's `sub in s`; "" occurs in every string. */
  predicate Contains(s: string, sub: string)
    ensures Contains(s, sub) ==> |sub| <= |s|
  {
    exists i: nat | i + |sub| <= |s| :: OccursAt(s, sub, i)
  }

  /** POSIX `os.path.join(a, b)` for two components: an absolute `b` replaces
      `a`; otherwise a '/' is inserted unless `a` is empty or already ends in one. */
  function JoinPath(a: string, b: string): (r: string)
    ensures EndsWith(r, b)
    ensures |b| > 0 && b[0] == '/' ==> r == b
    ensures (|b| == 0 || b[0] != '/') && (a == [] || a[|a| - 1] == '/') ==> r == a + b
    ensures (|b| == 0 || b[0] != '/') && a != [] && a[|a| - 1] != '/' ==> r == a + "/" + b
    ensures |r| > 0 && r[0] == '/' ==> (|a| > 0 && a[0] == '/') || (|b| > 0 && b[0] == '/')
  {
    if |b| > 0 && b[0] == '/' then b
    else if a == [] || a[|a| - 1] == '/' then a + b
    else a + "/" + b
  }

  /** A string that contains `sub` splits around one occurrence of it. */
  lemma {:induction false} ContainsSplit(s: string, sub: string) returns (p: string, q: string)
    requires Contains(s, sub)
    ensures s == p + sub + q
  {
    var i: nat :| i + |sub| <= |s| && OccursAt(s, sub, i);
    p, q := s[..i], s[i + |sub|..];
    assert s == s[..i] + s[i..i + |sub|] + s[i + |sub|..];
  }

  /** Conversely, `sub` occurs in anything built around it. */
  lemma {:induction false} ContainsConcat(p: string, sub: string, q: string)
    ensures Contains(p + sub + q, sub)
  {
    var s := p + sub + q;
    assert s[|p|..|p| + |sub|] == sub;
    assert OccursAt(s, sub, |p|);
  }
}
