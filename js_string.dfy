/**
 * The two ECMAScript string operations the registration path relies on:
 * `String.prototype.trim` and `String.prototype.toLowerCase`.
 */
module JsString {

  /** The WhiteSpace and LineTerminator code points that `trim` removes (ECMA-262, section 22.1.3.32). */
  predicate IsWhiteSpace(c: char) {
    c == '\t' || c == '\n' || c == '\U{000B}' || c == '\U{000C}' || c == '\r' || c == ' '
    || c == '\U{00A0}' || c == '\U{1680}' || ('\U{2000}' <= c <= '\U{200A}')
    || c == '\U{2028}' || c == '\U{2029}' || c == '\U{202F}' || c == '\U{205F}'
    || c == '\U{3000}' || c == '\U{FEFF}'
  }

  predicate AllWhiteSpace(s: string) {
    forall i :: 0 <= i < |s| ==> IsWhiteSpace(s[i])
  }

  /** Neither end of `s` is white space. */
  predicate IsTrimmed(s: string) {
    s == [] || (!IsWhiteSpace(s[0]) && !IsWhiteSpace(s[|s| - 1]))
  }

  /** No ASCII capital letter occurs in `s`. */
  predicate IsLowerCase(s: string) {
    forall i :: 0 <= i < |s| ==> !('A' <= s[i] <= 'Z')
  }

  /** The index of the first code point at or after `i` that is not white space (or `|s|`). */
  function SkipWhiteSpace(s: string, i: nat): (k: nat)
    requires i <= |s|
    ensures i <= k <= |s|
    ensures forall j :: i <= j < k ==> IsWhiteSpace(s[j])
    ensures k < |s| ==> !IsWhiteSpace(s[k])
    decreases |s| - i
  {
    if i < |s| && IsWhiteSpace(s[i]) then SkipWhiteSpace(s, i + 1) else i
  }

  /** The end of `s[lo..hi]` once its trailing white space is cut off. */
  function SkipWhiteSpaceBack(s: string, lo: nat, hi: nat): (m: nat)
    requires lo <= hi <= |s|
    ensures lo <= m <= hi
    ensures forall j :: m <= j < hi ==> IsWhiteSpace(s[j])
    ensures lo < m ==> !IsWhiteSpace(s[m - 1])
    decreases hi - lo
  {
    if lo < hi && IsWhiteSpace(s[hi - 1]) then SkipWhiteSpaceBack(s, lo, hi - 1) else hi
  }

  /**
   * `s.trim()`: the infix of `s` that neither starts nor ends with white
   * space, left once only white space has been cut from either end
   * (`k` is where it starts). It is empty exactly when `s` is all white space.
   */
  function Trim(s: string): (r: string)
    ensures IsTrimmed(r)
    ensures var k := SkipWhiteSpace(s, 0);
      k + |r| <= |s| && r == s[k..k + |r|]
      && (forall i :: 0 <= i < k ==> IsWhiteSpace(s[i]))
      && (forall i :: k + |r| <= i < |s| ==> IsWhiteSpace(s[i]))
    ensures r == [] <==> AllWhiteSpace(s)
  {
    var k := SkipWhiteSpace(s, 0);
    var m := SkipWhiteSpaceBack(s, k, |s|);
    assert m == k ==> AllWhiteSpace(s);
    s[k..m]
  }

  /** `toLowerCase` on one code point; casing outside ASCII is not modelled. */
  function ToLowerChar(c: char): (d: char)
    ensures IsWhiteSpace(d) <==> IsWhiteSpace(c)
  {
    if 'A' <= c <= 'Z' then (c as int + 32) as char else c
  }

  /** `s.toLowerCase()`: the same length, each ASCII capital replaced by its small letter. */
  function ToLowerCase(s: string): (r: string)
    ensures |r| == |s|
    ensures forall i :: 0 <= i < |s| ==> r[i] == ToLowerChar(s[i])
    ensures IsLowerCase(r)
  {
    if s == [] then [] else [ToLowerChar(s[0])] + ToLowerCase(s[1..])
  }

  /** Lower-casing twice is lower-casing once. */
  lemma ToLowerCaseIdempotent(s: string)
    ensures ToLowerCase(ToLowerCase(s)) == ToLowerCase(s)
  {
  }

  /** Lower-casing changes no white space, so it never turns a blank string into a non-blank one. */
  lemma ToLowerCaseKeepsBlankness(s: string)
    ensures AllWhiteSpace(ToLowerCase(s)) <==> AllWhiteSpace(s)
  {
    var l := ToLowerCase(s);
    if AllWhiteSpace(s) {
      forall i | 0 <= i < |l| ensures IsWhiteSpace(l[i]) { assert l[i] == ToLowerChar(s[i]); }
    }
    if AllWhiteSpace(l) {
      forall i | 0 <= i < |s| ensures IsWhiteSpace(s[i]) { assert l[i] == ToLowerChar(s[i]); }
    }
  }

  /** Trimming a lower-case string leaves it lower case (a trim is an infix). */
  lemma TrimKeepsLowerCase(s: string)
    requires IsLowerCase(s)
    ensures IsLowerCase(Trim(s))
  {
    var r := Trim(s);
    var k := SkipWhiteSpace(s, 0);
    forall i | 0 <= i < |r| ensures !('A' <= r[i] <= 'Z') { assert r[i] == s[k + i]; }
  }
}
