/** Character classes and string operations of the JavaScript runtime that
    the hook script relies on: the `\s` class, line terminators for the `m`
    flag, `String.prototype.includes` and `String.prototype.trim`. */
module Text {

  /** The Space_Separator (Zs) category of Unicode */
  predicate IsSpaceSeparator(c: char) {
    || c == ' ' || c == '\U{00A0}' || c == '\U{1680}' || ('\U{2000}' <= c <= '\U{200A}')
    || c == '\U{202F}' || c == '\U{205F}' || c == '\U{3000}'
  }

  /** The WhiteSpace production of the ECMAScript lexical grammar: TAB, VT,
      FF, ZWNBSP and every space separator */
  predicate IsWhiteSpace(c: char) {
    c == '\t' || c == '\U{000B}' || c == '\U{000C}' || c == '\U{FEFF}' || IsSpaceSeparator(c)
  }

  /** The LineTerminator production: LF, CR, LS and PS. These are also the
      characters after which `^` matches in a pattern with the `m` flag. */
  predicate IsLineTerminator(c: char) {
    c == '\n' || c == '\r' || c == '\U{2028}' || c == '\U{2029}'
  }

  /** JavaScript's `\s`, as a table of code points in ascending order. It is
      also the set `String.prototype.trim` strips. */
  predicate IsSpace(c: char) {
    || c == '\t' || c == '\n' || c == '\U{000B}' || c == '\U{000C}' || c == '\r' || c == ' '
    || c == '\U{00A0}' || c == '\U{1680}' || ('\U{2000}' <= c <= '\U{200A}')
    || c == '\U{2028}' || c == '\U{2029}' || c == '\U{202F}' || c == '\U{205F}'
    || c == '\U{3000}' || c == '\U{FEFF}'
  }

  /** The table of `\s` is exactly the WhiteSpace and LineTerminator
      characters */
  lemma SpaceTable(c: char)
    ensures IsSpace(c) <==> IsWhiteSpace(c) || IsLineTerminator(c)
  {
  }

  ghost predicate AllSpace(s: string) {
    forall k :: 0 <= k < |s| ==> IsSpace(s[k])
  }

  /** Neither end of `s` is whitespace */
  predicate Trimmed(s: string) {
    |s| == 0 || (!IsSpace(s[0]) && !IsSpace(s[|s| - 1]))
  }

  /** `pat` occurs in `s` starting at index `i` */
  predicate MatchesAt(s: string, i: int, pat: string) {
    0 <= i && i + |pat| <= |s| && s[i..i + |pat|] == pat
  }

  /** `s` begins with `pat` */
  predicate StartsWith(s: string, pat: string) {
    MatchesAt(s, 0, pat)
  }

  /** Strings starting with `pat` share its first character */
  lemma StartsWithHead(s: string, pat: string)
    ensures StartsWith(s, pat) && |pat| > 0 ==> |s| > 0 && s[0] == pat[0]
  {
    if StartsWith(s, pat) && |pat| > 0 {
      assert s[0] == s[..|pat|][0];
    }
  }

  /** A match fixes each character it covers */
  lemma MatchesAtChar(s: string, i: int, pat: string, k: int)
    ensures MatchesAt(s, i, pat) && 0 <= k < |pat| ==> s[i + k] == pat[k]
  {
    if MatchesAt(s, i, pat) && 0 <= k < |pat| {
      assert s[i + k] == s[i..i + |pat|][k];
    }
  }

  /** A match inside the second part of a concatenation */
  lemma MatchesAtSuffix(a: string, t: string, e: int, pat: string)
    requires 0 <= e
    ensures MatchesAt(a + t, |a| + e, pat) <==> MatchesAt(t, e, pat)
  {
    if e + |pat| <= |t| {
      assert (a + t)[|a| + e..|a| + e + |pat|] == t[e..e + |pat|];
    }
  }

  /** Declarative substring relation */
  ghost predicate Occurs(s: string, pat: string) {
    exists i :: MatchesAt(s, i, pat)
  }

  lemma OccursShift(s: string, pat: string)
    requires |pat| <= |s| && s[..|pat|] != pat
    ensures Occurs(s, pat) <==> Occurs(s[1..], pat)
  {
    if Occurs(s, pat) {
      var i :| MatchesAt(s, i, pat);
      assert i != 0;
      assert s[1..][i - 1..i - 1 + |pat|] == s[i..i + |pat|];
      assert MatchesAt(s[1..], i - 1, pat);
    }
    if Occurs(s[1..], pat) {
      var i :| MatchesAt(s[1..], i, pat);
      assert s[1..][i..i + |pat|] == s[i + 1..i + 1 + |pat|];
      assert MatchesAt(s, i + 1, pat);
    }
  }

  /** A pattern with a character the text lacks does not occur in it */
  lemma AbsentCharNoOccurrence(s: string, pat: string, k: int)
    requires 0 <= k < |pat| && pat[k] !in s
    ensures !Occurs(s, pat)
  {
  }

  /** `String.prototype.includes` */
  function Contains(s: string, pat: string): (r: bool)
    ensures r <==> Occurs(s, pat)
    decreases |s|
  {
    if |s| < |pat| then false
    else if s[..|pat|] == pat then assert MatchesAt(s, 0, pat); true
    else OccursShift(s, pat); Contains(s[1..], pat)
  }

  /** A string occurs in any string built around it */
  lemma OccursInConcat(a: string, x: string, b: string)
    ensures Occurs(a + x + b, x)
  {
    assert (a + x + b)[|a|..|a| + |x|] == x;
    assert MatchesAt(a + x + b, |a|, x);
  }

  /** A message built around a value starts with its prefix and mentions the value */
  lemma Framed(prefix: string, x: string, suffix: string)
    ensures StartsWith(prefix + x + suffix, prefix)
    ensures Occurs(prefix + x + suffix, x)
  {
    OccursInConcat(prefix, x, suffix);
  }

  /** Number of whitespace characters at the start of `s` */
  function LeadingSpaces(s: string): (n: nat)
    ensures n <= |s| && AllSpace(s[..n])
    ensures n < |s| ==> !IsSpace(s[n])
  {
    if |s| > 0 && IsSpace(s[0]) then
      var n := 1 + LeadingSpaces(s[1..]);
      assert forall k :: 1 <= k < n ==> s[..n][k] == s[1..][..n - 1][k - 1];
      n
    else 0
  }

  /** Number of whitespace characters at the end of `s` */
  function TrailingSpaces(s: string): (n: nat)
    ensures n <= |s| && AllSpace(s[|s| - n..])
    ensures n < |s| ==> !IsSpace(s[|s| - n - 1])
  {
    if |s| > 0 && IsSpace(s[|s| - 1]) then
      var t := s[..|s| - 1];
      var n := 1 + TrailingSpaces(t);
      assert s[|s| - n..] == t[|t| - (n - 1)..] + [s[|s| - 1]];
      n
    else 0
  }

  /** `String.prototype.trim`: the slice of `s` left after removing its
      leading and trailing whitespace */
  function Trim(s: string): (r: string)
    ensures Trimmed(r)
    ensures var a := LeadingSpaces(s); IsTrimSlice(s, a, a + |r|) && r == s[a..a + |r|]
  {
    var a := LeadingSpaces(s);
    var t := s[a..];
    var n := TrailingSpaces(t);
    var b := |s| - n;
    assert s[b..] == t[|t| - n..];
    assert IsTrimSlice(s, a, b);
    s[a..b]
  }

  /** `s[a..b]` is `s` with whitespace cut off at both ends */
  ghost predicate IsTrimSlice(s: string, a: int, b: int) {
    0 <= a <= b <= |s| && AllSpace(s[..a]) && AllSpace(s[b..])
  }

  /** Trimming adds no character */
  lemma TrimKeepsAbsentChar(s: string, c: char)
    requires c !in s
    ensures c !in Trim(s)
  {
    var a, r := LeadingSpaces(s), Trim(s);
    forall k | 0 <= k < |r| ensures r[k] != c {
      assert r[k] == s[a + k];
    }
  }

  /** Trimming leaves an already trimmed string alone */
  lemma TrimOfTrimmed(s: string)
    requires Trimmed(s)
    ensures Trim(s) == s
  {
    if |s| > 0 {
      assert LeadingSpaces(s) == 0;
      assert TrailingSpaces(s) == 0;
    }
  }
}
