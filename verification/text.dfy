/** String facts the cleanup, extraction and filter steps rely on:
    substring search, JavaScript's whitespace set and `trim`, and ASCII
    lower-casing. */
module Text {

  /** `s.includes(pat)`: `pat` occurs somewhere in `s`. */
  predicate Contains(s: string, pat: string)
    decreases |s|
  {
    pat <= s || (|s| > 0 && Contains(s[1..], pat))
  }

  /** The characters `String.prototype.trim` removes: ECMAScript's WhiteSpace
      (tab, vertical tab, form feed, space, no-break space, byte-order mark
      and the space separators) and LineTerminator (LF, CR, LS, PS). */
  predicate IsWhitespace(c: char) {
    || c == '\t' || c == '\n' || c == '\U{000B}' || c == '\U{000C}' || c == '\r'
    || c == ' ' || c == '\U{00A0}' || c == '\U{1680}'
    || ('\U{2000}' <= c <= '\U{200A}')
    || c == '\U{2028}' || c == '\U{2029}' || c == '\U{202F}' || c == '\U{205F}'
    || c == '\U{3000}' || c == '\U{FEFF}'
  }

  predicate AllWhitespace(s: string) {
    forall k :: 0 <= k < |s| ==> IsWhitespace(s[k])
  }

  /** Neither end of `s` is whitespace. */
  predicate IsTrimmed(s: string) {
    |s| == 0 || (!IsWhitespace(s[0]) && !IsWhitespace(s[|s| - 1]))
  }

  /** Drops the whitespace at the front: the result is the suffix of `s`
      after its longest whitespace prefix. */
  function TrimStart(s: string): (r: string)
    ensures |r| <= |s| && r == s[|s| - |r|..]
    ensures forall k :: 0 <= k < |s| - |r| ==> IsWhitespace(s[k])
    ensures |r| == 0 || !IsWhitespace(r[0])
  {
    if |s| > 0 && IsWhitespace(s[0]) then
      var r := TrimStart(s[1..]);
      assert s[1..][|s[1..]| - |r|..] == s[|s| - |r|..];
      assert forall k :: 1 <= k < |s| ==> s[k] == s[1..][k - 1];
      r
    else s
  }

  /** Drops the whitespace at the back: the result is the prefix of `s`
      before its longest whitespace suffix. */
  function TrimEnd(s: string): (r: string)
    ensures |r| <= |s| && r == s[..|r|]
    ensures forall k :: |r| <= k < |s| ==> IsWhitespace(s[k])
    ensures |r| == 0 || !IsWhitespace(r[|r| - 1])
  {
    if |s| > 0 && IsWhitespace(s[|s| - 1]) then
      var r := TrimEnd(s[..|s| - 1]);
      assert s[..|s| - 1][..|r|] == s[..|r|];
      assert forall k :: 0 <= k < |s| - 1 ==> s[..|s| - 1][k] == s[k];
      r
    else s
  }

  /** `s.trim()`: the infix of `s` left when all leading and trailing
      whitespace is cut away. */
  function Trim(s: string): (r: string)
    ensures IsTrimmed(r)
    ensures exists i, j :: 0 <= i <= j <= |s| && r == s[i..j]
                           && AllWhitespace(s[..i]) && AllWhitespace(s[j..])
  {
    var t := TrimStart(s);
    var r := TrimEnd(t);
    var i, j := |s| - |t|, |s| - |t| + |r|;
    assert r == s[i..j];
    WhitespaceRun(s, 0, i);
    WhitespaceRun(t, |r|, |t|);
    assert s[j..] == t[|r|..];
    r
  }

  /** A run of whitespace characters, cut out as a slice, is all whitespace. */
  lemma WhitespaceRun(s: string, i: nat, j: nat)
    requires i <= j <= |s|
    requires forall k :: i <= k < j ==> IsWhitespace(s[k])
    ensures AllWhitespace(s[i..j])
  {
    forall k | 0 <= k < j - i
      ensures IsWhitespace(s[i..j][k])
    {
      assert s[i..j][k] == s[i + k];
    }
  }

  /** Trimming a string that is already trimmed changes nothing. */
  lemma TrimTrimmed(s: string)
    requires IsTrimmed(s)
    ensures Trim(s) == s
  {
  }

  /** Whitespace around a trimmed core is exactly what `trim` removes. */
  lemma {:induction false} TrimAround(w1: string, b: string, w2: string)
    requires AllWhitespace(w1) && AllWhitespace(w2) && IsTrimmed(b)
    ensures Trim(w1 + b + w2) == b
  {
    var x := w1 + b + w2;
    if |b| == 0 {
      assert AllWhitespace(x);
    } else {
      assert x == w1 + (b + w2);
      TrimStartPrefix(w1, b + w2);
      assert (b + w2)[0] == b[0];
      assert TrimStart(x) == b + w2;
      TrimEndSuffix(b, w2);
      assert TrimEnd(TrimStart(x)) == b;
    }
  }

  lemma {:induction false} TrimStartPrefix(w: string, t: string)
    requires AllWhitespace(w)
    requires |t| == 0 || !IsWhitespace(t[0])
    ensures TrimStart(w + t) == TrimStart(t)
    decreases |w|
  {
    if |w| > 0 {
      assert (w + t)[1..] == w[1..] + t;
      TrimStartPrefix(w[1..], t);
    } else {
      assert w + t == t;
    }
  }

  lemma {:induction false} TrimEndSuffix(b: string, w: string)
    requires AllWhitespace(w)
    requires |b| == 0 || !IsWhitespace(b[|b| - 1])
    ensures TrimEnd(b + w) == b
    decreases |w|
  {
    if |w| > 0 {
      assert (b + w)[..|b + w| - 1] == b + w[..|w| - 1];
      TrimEndSuffix(b, w[..|w| - 1]);
    } else {
      assert b + w == b;
    }
  }

  /** A pattern absent from `s` is absent from every suffix of `s`. */
  lemma {:induction false} NotContainsSuffix(s: string, pat: string, i: nat)
    requires i <= |s| && !Contains(s, pat)
    ensures !Contains(s[i..], pat)
    decreases i
  {
    if i > 0 {
      assert s[1..][i - 1..] == s[i..];
      NotContainsSuffix(s[1..], pat, i - 1);
    }
  }

  /** A pattern absent from `s` is absent from every prefix of `s`. */
  lemma {:induction false} NotContainsPrefix(s: string, pat: string, j: nat)
    requires j <= |s| && !Contains(s, pat)
    ensures !Contains(s[..j], pat)
    decreases |s|
  {
    if j > 0 {
      assert s[..j][1..] == s[1..][..j - 1];
      NotContainsPrefix(s[1..], pat, j - 1);
    }
  }

  /** A pattern absent from `s` is absent from every infix `s[i..j]`. */
  lemma NotContainsInfix(s: string, pat: string, i: nat, j: nat)
    requires i <= j <= |s| && !Contains(s, pat)
    ensures !Contains(s[i..j], pat)
  {
    NotContainsSuffix(s, pat, i);
    NotContainsPrefix(s[i..], pat, j - i);
    assert s[i..][..j - i] == s[i..j];
  }

  /** A string shorter than the pattern cannot contain it. */
  lemma {:induction false} ShortNotContains(s: string, pat: string)
    requires |s| < |pat|
    ensures !Contains(s, pat)
    decreases |s|
  {
    if |s| > 0 {
      ShortNotContains(s[1..], pat);
    }
  }

  /** A text free of some prefix of a pattern is free of the whole pattern. */
  lemma {:induction false} NotContainsLongerPattern(s: string, pat: string, k: nat)
    requires k <= |pat| && !Contains(s, pat[..k])
    ensures !Contains(s, pat)
    decreases |s|
  {
    if |s| > 0 {
      NotContainsLongerPattern(s[1..], pat, k);
    }
  }

  /** A pattern whose first character does not occur in `s` is not in `s`. */
  lemma {:induction false} AbsentFirstChar(s: string, pat: string)
    requires |pat| > 0 && pat[0] !in s
    ensures !Contains(s, pat)
    decreases |s|
  {
    if |s| > 0 {
      assert s[0] != pat[0];
      AbsentFirstChar(s[1..], pat);
    }
  }

  /** ASCII-only `toLowerCase` of one character. */
  function LowerChar(c: char): (r: char)
    ensures 'A' <= c <= 'Z' ==> 'a' <= r <= 'z' && r as int == c as int + 32
    ensures !('A' <= c <= 'Z') ==> r == c
  {
    if 'A' <= c <= 'Z' then (c as int + 32) as char else c
  }

  /** ASCII-only `toLowerCase`: same length, every upper-case ASCII letter
      lowered, nothing else touched. */
  function Lower(s: string): (r: string)
    ensures |r| == |s|
    ensures forall k :: 0 <= k < |s| ==> r[k] == LowerChar(s[k])
  {
    seq(|s|, k requires 0 <= k < |s| => LowerChar(s[k]))
  }
}
