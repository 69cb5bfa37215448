/** JavaScript's `String.prototype.trim`, on strings of Unicode characters. */
module Text {

  /** The characters `trim` removes: WhiteSpace (section 12.2 of ECMA-262,
      including every Zs space separator) and LineTerminator (section 12.3). */
  predicate IsJsWhitespace(c: char) {
    || c == '\t' || c == '\U{000B}' || c == '\U{000C}' || c == ' '
    || c == '\U{00A0}' || c == '\U{FEFF}' || c == '\U{1680}'
    || ('\U{2000}' <= c <= '\U{200A}')
    || c == '\U{202F}' || c == '\U{205F}' || c == '\U{3000}'
    || c == '\n' || c == '\r' || c == '\U{2028}' || c == '\U{2029}'
  }

  /** Every character of `s[lo..hi]` is whitespace. */
  predicate WhitespaceIn(s: string, lo: nat, hi: nat)
    requires lo <= hi <= |s|
  {
    forall k :: lo <= k < hi ==> IsJsWhitespace(s[k])
  }

  /** Neither the first nor the last character is whitespace. */
  predicate IsTrimmed(s: string) {
    |s| > 0 ==> !IsJsWhitespace(s[0]) && !IsJsWhitespace(s[|s| - 1])
  }

  /** The first index at or after `i` that is not whitespace (or `|s|`). */
  function SkipLeading(s: string, i: nat): (a: nat)
    requires i <= |s|
    decreases |s| - i
    ensures i <= a <= |s| && WhitespaceIn(s, i, a)
    ensures a < |s| ==> !IsJsWhitespace(s[a])
  {
    if i < |s| && IsJsWhitespace(s[i]) then SkipLeading(s, i + 1) else i
  }

  /** The end of `s[lo..j]` once its whitespace suffix is dropped. */
  function SkipTrailing(s: string, lo: nat, j: nat): (b: nat)
    requires lo <= j <= |s|
    decreases j
    ensures lo <= b <= j && WhitespaceIn(s, b, j)
    ensures lo < b ==> !IsJsWhitespace(s[b - 1])
  {
    if lo < j && IsJsWhitespace(s[j - 1]) then SkipTrailing(s, lo, j - 1) else j
  }

  /** `r` is `s` with the whitespace `s[..a]` before it and the whitespace
      after it removed. */
  predicate IsCoreOf(s: string, r: string, a: nat) {
    && a + |r| <= |s| && r == s[a..a + |r|]
    && WhitespaceIn(s, 0, a) && WhitespaceIn(s, a + |r|, |s|)
  }

  /** `s.trim()`: the result is the part of `s` left after removing the
      whitespace around it, and has no whitespace at either end. */
  function Trim(s: string): (r: string)
    ensures IsTrimmed(r)
    ensures exists a: nat :: IsCoreOf(s, r, a)
  {
    var a := SkipLeading(s, 0);
    var b := SkipTrailing(s, a, |s|);
    assert IsCoreOf(s, s[a..b], a);
    s[a..b]
  }

  /** Trimming a string that is already trimmed changes nothing. */
  lemma TrimOfTrimmed(s: string)
    requires IsTrimmed(s)
    ensures Trim(s) == s
  {
  }

  /** `trim` is idempotent. */
  lemma TrimIdempotent(s: string)
    ensures Trim(Trim(s)) == Trim(s)
  {
    TrimOfTrimmed(Trim(s));
  }

  /** The contract of `Trim` pins its result down: any trimmed string that is
      what remains of `s` once surrounding whitespace is removed IS `Trim(s)`. */
  lemma TrimUnique(s: string, r: string, a: nat)
    requires IsTrimmed(r) && IsCoreOf(s, r, a)
    ensures r == Trim(s)
  {
    var t := Trim(s);
    var b: nat :| IsCoreOf(s, t, b);
    if |r| > 0 {
      assert s[a] == r[0] && s[a + |r| - 1] == r[|r| - 1];
    }
    if |t| > 0 {
      assert s[b] == t[0] && s[b + |t| - 1] == t[|t| - 1];
    }
  }
}
