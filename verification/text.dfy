/**
  The few JavaScript string operations the game relies on: `trim`,
  `split(sep)[0]`, ASCII case mapping, `indexOf` and `replace` of the first
  occurrence of a literal pattern.
 */
module Text {

  /** The characters JavaScript's `String.prototype.trim` removes: WhiteSpace and LineTerminator. */
  predicate IsJsWhitespace(c: char) {
    || c == '\t' || c == '\n' || c == '\U{B}' || c == '\U{C}' || c == '\r' || c == ' '
    || c == '\U{A0}' || c == '\U{1680}' || ('\U{2000}' <= c <= '\U{200A}')
    || c == '\U{2028}' || c == '\U{2029}' || c == '\U{202F}' || c == '\U{205F}'
    || c == '\U{3000}' || c == '\U{FEFF}'
  }

  function TrimStart(s: string): (r: string)
    ensures |r| <= |s| && r == s[|s| - |r|..]
    ensures forall i :: 0 <= i < |s| - |r| ==> IsJsWhitespace(s[i])
    ensures |r| > 0 ==> !IsJsWhitespace(r[0])
  {
    if |s| > 0 && IsJsWhitespace(s[0]) then TrimStart(s[1..]) else s
  }

  function TrimEnd(s: string): (r: string)
    ensures |r| <= |s| && r == s[..|r|]
    ensures forall i :: |r| <= i < |s| ==> IsJsWhitespace(s[i])
    ensures |r| > 0 ==> !IsJsWhitespace(r[|r| - 1])
  {
    if |s| > 0 && IsJsWhitespace(s[|s| - 1]) then TrimEnd(s[..|s| - 1]) else s
  }

  /** `r` is `s` with `i` characters of whitespace dropped in front and only whitespace dropped behind. */
  predicate SliceWithin(s: string, r: string, i: int) {
    && 0 <= i && i + |r| <= |s| && r == s[i..i + |r|]
    && (forall k :: 0 <= k < i ==> IsJsWhitespace(s[k]))
    && (forall k :: i + |r| <= k < |s| ==> IsJsWhitespace(s[k]))
  }

  /** `s.trim()`: the slice of `s` left after dropping whitespace at both ends. */
  function Trim(s: string): (r: string)
    ensures exists i :: SliceWithin(s, r, i)
    ensures |r| > 0 ==> !IsJsWhitespace(r[0]) && !IsJsWhitespace(r[|r| - 1])
  {
    TrimmedSlice(s);
    TrimEnd(TrimStart(s))
  }

  /** Trimming the front, then the back, leaves a slice of `s` with only whitespace around it. */
  lemma TrimmedSlice(s: string)
    ensures SliceWithin(s, TrimEnd(TrimStart(s)), |s| - |TrimStart(s)|)
  {
    var a := TrimStart(s);
    var r := TrimEnd(a);
    var i := |s| - |a|;
    assert a == s[i..];
    assert r <= a;
    SliceOfSuffix(s, a, r, i);
  }

  /** A front slice of a suffix, each cut off only at whitespace, is a slice within the whole. */
  lemma SliceOfSuffix(s: string, a: string, r: string, i: int)
    requires 0 <= i <= |s| && a == s[i..] && r <= a
    requires forall k :: 0 <= k < i ==> IsJsWhitespace(s[k])
    requires forall k :: |r| <= k < |a| ==> IsJsWhitespace(a[k])
    ensures SliceWithin(s, r, i)
  {
    assert r == s[i..i + |r|];
    forall k | i + |r| <= k < |s| ensures IsJsWhitespace(s[k]) {
      assert s[k] == a[k - i];
    }
  }

  /**
    `Trim` has exactly one possible result: the slice whose ends are not
    whitespace, or the empty string when `s` is all whitespace.
   */
  lemma TrimIsUnique(s: string, r: string, i: int)
    requires SliceWithin(s, r, i)
    requires |r| > 0 ==> !IsJsWhitespace(r[0]) && !IsJsWhitespace(r[|r| - 1])
    ensures Trim(s) == r
  {
    var t := TrimEnd(TrimStart(s));
    var j := |s| - |TrimStart(s)|;
    TrimmedSlice(s);
    SameEnds(s, r, i, t, j);
    SameEnds(s, t, j, r, i);
    assert r == t by {
      if |r| > 0 && |t| > 0 {
        assert i == j && |r| == |t|;
      }
    }
  }

  /** Two slices with non-whitespace ends and only whitespace around them cannot start or end apart. */
  lemma SameEnds(s: string, r: string, i: int, t: string, j: int)
    requires SliceWithin(s, r, i) && SliceWithin(s, t, j)
    requires |r| > 0 ==> !IsJsWhitespace(r[0]) && !IsJsWhitespace(r[|r| - 1])
    requires |t| > 0 ==> !IsJsWhitespace(t[0]) && !IsJsWhitespace(t[|t| - 1])
    ensures |r| == 0 ==> |t| == 0
    ensures |r| > 0 && |t| > 0 ==> i <= j && j + |t| <= i + |r|
  {
    if |r| > 0 && |t| > 0 {
      assert s[i] == r[0] && s[j + |t| - 1] == t[|t| - 1];
    }
  }

  /** `s.split(sep)[0]`: everything before the first `sep`, or all of `s`. */
  function Before(s: string, sep: char): (r: string)
    ensures r <= s
    ensures sep !in r
    ensures |r| < |s| ==> s[|r|] == sep
  {
    if |s| == 0 || s[0] == sep then [] else [s[0]] + Before(s[1..], sep)
  }

  /** `Before` is the longest prefix without `sep`: it stops at the first `sep`. */
  lemma {:induction false} BeforeIsUnique(s: string, sep: char, k: nat)
    requires k <= |s| && sep !in s[..k]
    requires k < |s| ==> s[k] == sep
    ensures Before(s, sep) == s[..k]
    decreases k
  {
    if k > 0 {
      assert s[0] == s[..k][0];
      assert s[1..][..k - 1] == s[..k][1..];
      BeforeIsUnique(s[1..], sep, k - 1);
    }
  }

  predicate IsAsciiUpper(c: char) { 'A' <= c <= 'Z' }

  predicate IsAsciiLower(c: char) { 'a' <= c <= 'z' }

  function LowerChar(c: char): char {
    if IsAsciiUpper(c) then (c as int - 'A' as int + 'a' as int) as char else c
  }

  function UpperChar(c: char): char {
    if IsAsciiLower(c) then (c as int - 'a' as int + 'A' as int) as char else c
  }

  /** `toLowerCase` restricted to ASCII letters. */
  function Lower(s: string): (r: string)
    ensures |r| == |s|
    ensures forall i :: 0 <= i < |s| ==> r[i] == LowerChar(s[i])
    ensures forall i :: 0 <= i < |r| ==> !IsAsciiUpper(r[i])
  {
    seq(|s|, i requires 0 <= i < |s| => LowerChar(s[i]))
  }

  /** `toUpperCase` restricted to ASCII letters. */
  function Upper(s: string): (r: string)
    ensures |r| == |s|
    ensures forall i :: 0 <= i < |s| ==> r[i] == UpperChar(s[i])
    ensures forall i :: 0 <= i < |r| ==> !IsAsciiLower(r[i])
  {
    seq(|s|, i requires 0 <= i < |s| => UpperChar(s[i]))
  }

  /** The regular expression `^[A-Z]+$`. */
  predicate IsUpperWord(s: string) {
    |s| > 0 && forall i :: 0 <= i < |s| ==> IsAsciiUpper(s[i])
  }

  /** Whether `pat` occurs in `s` starting at position `i`. */
  predicate OccursAt(s: string, pat: string, i: int) {
    0 <= i && i + |pat| <= |s| && s[i..i + |pat|] == pat
  }

  /** `s.indexOf(pat, from)`: the first occurrence at or after `from`, or -1. */
  function IndexOfFrom(s: string, pat: string, from: nat): (i: int)
    ensures i == -1 || (from <= i && OccursAt(s, pat, i))
    ensures i == -1 ==> forall j :: from <= j ==> !OccursAt(s, pat, j)
    ensures i != -1 ==> forall j :: from <= j < i ==> !OccursAt(s, pat, j)
    decreases |s| - from
  {
    if from + |pat| > |s| then -1
    else if s[from..from + |pat|] == pat then from
    else IndexOfFrom(s, pat, from + 1)
  }

  /** `s.replace(pat, rep)` with a literal pattern: only the first occurrence is replaced. */
  function ReplaceFirst(s: string, pat: string, rep: string): (r: string)
    ensures (forall j :: !OccursAt(s, pat, j)) ==> r == s
    ensures forall i :: OccursAt(s, pat, i) && (forall j :: 0 <= j < i ==> !OccursAt(s, pat, j))
                        ==> r == s[..i] + rep + s[i + |pat|..]
  {
    var i := IndexOfFrom(s, pat, 0);
    if i == -1 then s else s[..i] + rep + s[i + |pat|..]
  }
}
