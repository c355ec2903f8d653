/**
 The part of JavaScript's `String.prototype.trim` that the comment composer relies on:
 white space and line terminators are removed from both ends of the draft, and the
 submit guard asks whether anything is left.
 */
module JsString {

  /** The code points `trim` removes: the WhiteSpace and LineTerminator productions of
      the ECMAScript language specification (TAB, VT, FF, ZWNBSP, the Unicode space
      separators Zs, LF, CR, LS and PS). */
  predicate IsWs(c: char) {
    || c == '\t' || c == '\U{000B}' || c == '\U{000C}' || c == ' ' || c == '\U{00A0}'
    || c == '\U{FEFF}' || c == '\U{1680}' || ('\U{2000}' <= c <= '\U{200A}')
    || c == '\U{202F}' || c == '\U{205F}' || c == '\U{3000}'
    || c == '\n' || c == '\r' || c == '\U{2028}' || c == '\U{2029}'
  }

  /** A string made only of white space (the empty string included). */
  predicate IsBlank(s: string) {
    forall i :: 0 <= i < |s| ==> IsWs(s[i])
  }

  /** Where the text of `s` starts when searching from `i`: the first index at or after
      `i` that does not hold white space, or `|s|`. Everything skipped is white space. */
  function FirstNonWs(s: string, i: nat): (j: nat)
    requires i <= |s|
    ensures i <= j <= |s|
    ensures forall k :: i <= k < j ==> IsWs(s[k])
    ensures j < |s| ==> !IsWs(s[j])
    decreases |s| - i
  {
    if i < |s| && IsWs(s[i]) then FirstNonWs(s, i + 1) else i
  }

  /** Where the text of `s` ends when searching back from `j`, not past `lo`: the
      smallest index `k` in `lo..j` such that `s[k..j]` is all white space. Just below
      it, if it is above `lo`, is a character that is not white space. */
  function EndOfNonWs(s: string, lo: nat, j: nat): (k: nat)
    requires lo <= j <= |s|
    ensures lo <= k <= j
    ensures forall m :: k <= m < j ==> IsWs(s[m])
    ensures k > lo ==> !IsWs(s[k - 1])
    decreases j
  {
    if j > lo && IsWs(s[j - 1]) then EndOfNonWs(s, lo, j - 1) else j
  }

  /** `s.trim()`: white space removed from both ends. The result is the middle of
      `s` between a blank prefix and a blank suffix, and neither starts nor ends
      with white space; so it is empty exactly when `s` is blank, which is what
      `!s.trim()` asks. */
  function Trim(s: string): (r: string)
    ensures |r| <= |s|
    ensures exists i :: 0 <= i <= |s| - |r| && r == s[i..i + |r|] && IsBlank(s[..i]) && IsBlank(s[i + |r|..])
    ensures r != [] ==> !IsWs(r[0]) && !IsWs(r[|r| - 1])
    ensures r == [] <==> IsBlank(s)
  {
    var lo := FirstNonWs(s, 0);
    var hi := EndOfNonWs(s, lo, |s|);
    TrimIsMiddle(s, lo, hi);
    TrimEmptyIffBlank(s, lo, hi);
    var r := s[lo..hi];
    assert r == s[lo..lo + |r|] && IsBlank(s[..lo]) && IsBlank(s[lo + |r|..]);
    assert r != [] ==> r[0] == s[lo] && r[|r| - 1] == s[hi - 1];
    r
  }

  /** The trimmed text lies between a blank prefix and a blank suffix of `s`. */
  lemma TrimIsMiddle(s: string, lo: nat, hi: nat)
    requires lo == FirstNonWs(s, 0) && hi == EndOfNonWs(s, lo, |s|)
    ensures lo <= hi <= |s| && IsBlank(s[..lo]) && IsBlank(s[hi..])
  {
    assert IsBlank(s[..lo]) by {
      forall k | 0 <= k < lo ensures IsWs(s[..lo][k]) { assert s[..lo][k] == s[k]; }
    }
    assert IsBlank(s[hi..]) by {
      forall k | 0 <= k < |s| - hi ensures IsWs(s[hi..][k]) { assert s[hi..][k] == s[hi + k]; }
    }
  }

  /** The trimmed text is empty exactly when `s` is blank. */
  lemma TrimEmptyIffBlank(s: string, lo: nat, hi: nat)
    requires lo == FirstNonWs(s, 0) && hi == EndOfNonWs(s, lo, |s|)
    ensures lo == hi <==> IsBlank(s)
  {
    if lo < |s| {
      // s[lo] is not white space, so s is not blank and the search back stops above lo
      assert !IsWs(s[lo]);
      assert lo < hi;
    }
  }
}
