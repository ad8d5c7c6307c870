/**
 * The java.lang.String operations the engine relies on, restricted to ASCII:
 * `toLowerCase`, `equalsIgnoreCase`, `contains`, `trim` and `isBlank`.
 * Unicode case folding and non-ASCII white space are not modelled.
 */
module Text {

  function LowerChar(c: char): (l: char)
    ensures 'A' <= c <= 'Z' ==> 'a' <= l <= 'z' && l as int == c as int + 32
    ensures !('A' <= c <= 'Z') ==> l == c
  {
    if 'A' <= c <= 'Z' then (c as int + 32) as char else c
  }

  /** `s.toLowerCase()`, one character at a time. */
  function Lower(s: string): (r: string)
    ensures |r| == |s|
    ensures forall i :: 0 <= i < |s| ==> r[i] == LowerChar(s[i])
  {
    if s == [] then [] else [LowerChar(s[0])] + Lower(s[1..])
  }

  /** `a.equalsIgnoreCase(b)`: same length and the same characters up to case. */
  predicate EqualsIgnoreCase(a: string, b: string): (eq: bool)
    ensures eq ==> |a| == |b|
    ensures a == b ==> eq
  {
    |a| == |b| && forall i :: 0 <= i < |a| ==> LowerChar(a[i]) == LowerChar(b[i])
  }

  /** equalsIgnoreCase is equality of the lower-cased strings. */
  lemma EqualsIgnoreCaseIsLowerEquality(a: string, b: string)
    ensures EqualsIgnoreCase(a, b) <==> Lower(a) == Lower(b)
  {
    if Lower(a) == Lower(b) {
      forall i | 0 <= i < |a| ensures LowerChar(a[i]) == LowerChar(b[i]) {
        assert Lower(a)[i] == Lower(b)[i];
      }
    }
  }

  /**
   * A `switch (s.toLowerCase())` arm whose label is already lower case
   * matches exactly the strings equal to the label ignoring case.
   */
  lemma {:induction false} LowerMatchesLowerCaseLabel(s: string, lit: string)
    requires Lower(lit) == lit
    ensures Lower(s) == lit <==> EqualsIgnoreCase(s, lit)
  {
    EqualsIgnoreCaseIsLowerEquality(s, lit);
  }

  /** Lower-casing twice is lower-casing once. */
  lemma {:induction false} LowerIsIdempotent(s: string)
    ensures Lower(Lower(s)) == Lower(s)
  {
    var l := Lower(s);
    assert forall i :: 0 <= i < |s| ==> Lower(l)[i] == l[i];
  }

  /** equalsIgnoreCase is an equivalence relation. */
  lemma EqualsIgnoreCaseIsEquivalence(a: string, b: string, c: string)
    ensures EqualsIgnoreCase(a, a)
    ensures EqualsIgnoreCase(a, b) ==> EqualsIgnoreCase(b, a)
    ensures EqualsIgnoreCase(a, b) && EqualsIgnoreCase(b, c) ==> EqualsIgnoreCase(a, c)
  {
  }

  /** `k` occurs in `s` starting at index `i`. */
  predicate OccursAt(s: string, k: string, i: int) {
    0 <= i && i + |k| <= |s| && s[i..i + |k|] == k
  }

  /** `s.contains(k)`: `k` is a substring of `s` (the empty string is in every string). */
  predicate Contains(s: string, k: string): (found: bool)
    ensures found ==> |k| <= |s|
    ensures k == [] ==> found
  {
    assert OccursAt(s, [], 0);
    exists i :: 0 <= i <= |s| - |k| && OccursAt(s, k, i)
  }

  /** A substring of a substring is a substring. */
  lemma ContainsIsTransitive(s: string, m: string, k: string)
    requires Contains(s, m) && Contains(m, k)
    ensures Contains(s, k)
  {
    var i :| 0 <= i <= |s| - |m| && OccursAt(s, m, i);
    var j :| 0 <= j <= |m| - |k| && OccursAt(m, k, j);
    forall y | 0 <= y < |m|
      ensures s[i + y] == m[y]
    {
      assert s[i..i + |m|][y] == m[y];
    }
    assert s[i + j..i + j + |k|] == m[j..j + |k|];
    assert OccursAt(s, k, i + j);
  }

  /** Every string contains the empty string and itself, and nothing longer than itself. */
  lemma ContainsFacts(s: string, k: string)
    ensures Contains(s, [])
    ensures Contains(s, s)
    ensures Contains(s, k) ==> |k| <= |s|
  {
    assert OccursAt(s, [], 0);
    assert OccursAt(s, s, 0);
  }

  /** Java's `trim` removes every character up to and including U+0020. */
  predicate IsTrimmed(c: char) {
    c <= ' '
  }

  /** Index of the first character at or after `k` that trim keeps (|s| when there is none). */
  function TrimStartIndex(s: string, k: nat): (j: nat)
    requires k <= |s|
    ensures k <= j <= |s|
    ensures forall i :: k <= i < j ==> IsTrimmed(s[i])
    ensures j < |s| ==> !IsTrimmed(s[j])
    decreases |s| - k
  {
    if k < |s| && IsTrimmed(s[k]) then TrimStartIndex(s, k + 1) else k
  }

  /** End of the kept range: `e` moved left past trimmed characters, but not below `lo`. */
  function TrimEndIndex(s: string, lo: nat, e: nat): (j: nat)
    requires lo <= e <= |s|
    ensures lo <= j <= e
    ensures forall i :: j <= i < e ==> IsTrimmed(s[i])
    ensures j > lo ==> !IsTrimmed(s[j - 1])
    decreases e - lo
  {
    if e > lo && IsTrimmed(s[e - 1]) then TrimEndIndex(s, lo, e - 1) else e
  }

  /**
   * `s.trim()`: the longest infix of `s` that neither starts nor ends with
   * a character at or below U+0020; what was cut off consists of such
   * characters only.
   */
  function Trim(s: string): (r: string)
    ensures Contains(s, r)
    ensures r != [] ==> !IsTrimmed(r[0]) && !IsTrimmed(r[|r| - 1])
    ensures r == [] <==> forall i :: 0 <= i < |s| ==> IsTrimmed(s[i])
    ensures exists a, b :: (0 <= a <= b <= |s| && r == s[a..b]
      && (forall i :: 0 <= i < a ==> IsTrimmed(s[i])) && (forall i :: b <= i < |s| ==> IsTrimmed(s[i])))
  {
    var a := TrimStartIndex(s, 0);
    var b := TrimEndIndex(s, a, |s|);
    assert OccursAt(s, s[a..b], a);
    s[a..b]
  }

  /** Character.isWhitespace on ASCII characters. */
  predicate IsWhitespace(c: char) {
    c == ' ' || c == '\t' || c == '\n' || c == '\U{000B}' || c == '\U{000C}' || c == '\r' || '\U{001C}' <= c <= '\U{001F}'
  }

  /** `s.isBlank()`: empty or white space only. */
  predicate IsBlank(s: string): (blank: bool)
    ensures s == [] ==> blank
    ensures blank ==> Trim(s) == []
  {
    forall i :: 0 <= i < |s| ==> IsWhitespace(s[i])
  }
}
