/** The string operations the URL reader relies on: Go's `strings.TrimSpace`
    (with `unicode.IsSpace` as its notion of white space) and the splitting of
    a text into the segments that successive `ReadString` calls return. */
module Text {

  /** The characters with the Unicode White_Space property, one by one. */
  const WHITE_SPACE: seq<char> := [
    '\t', '\n', '\U{B}', '\U{C}', '\r', ' ', '\U{85}', '\U{A0}', '\U{1680}',
    '\U{2000}', '\U{2001}', '\U{2002}', '\U{2003}', '\U{2004}', '\U{2005}',
    '\U{2006}', '\U{2007}', '\U{2008}', '\U{2009}', '\U{200A}',
    '\U{2028}', '\U{2029}', '\U{202F}', '\U{205F}', '\U{3000}']

  /** Go's `unicode.IsSpace`: the Latin-1 white-space characters, and above
      U+00FF the characters with the Unicode White_Space property. */
  predicate IsSpace(c: char) {
    if c <= '\U{FF}' then
      c == '\t' || c == '\n' || c == '\U{B}' || c == '\U{C}' || c == '\r' || c == ' '
      || c == '\U{85}' || c == '\U{A0}'
    else
      c == '\U{1680}' || ('\U{2000}' <= c <= '\U{200A}')
      || c == '\U{2028}' || c == '\U{2029}' || c == '\U{202F}' || c == '\U{205F}' || c == '\U{3000}'
  }

  /** The two halves of `IsSpace` together are exactly White_Space. */
  lemma IsSpaceIsWhiteSpace(c: char)
    ensures IsSpace(c) <==> c in WHITE_SPACE
  {
  }

  predicate AllSpace(s: seq<char>) {
    forall k :: 0 <= k < |s| ==> IsSpace(s[k])
  }

  /** Neither the first nor the last character of `s` is white space. */
  predicate NoOuterSpace(s: seq<char>) {
    s == [] || (!IsSpace(s[0]) && !IsSpace(s[|s| - 1]))
  }

  /** `r` is `s` with a white-space prefix and a white-space suffix cut off,
      and nothing white is left at either end of `r`. */
  ghost predicate IsTrimmingOf(r: seq<char>, s: seq<char>) {
    NoOuterSpace(r) && exists i, j :: CutsAt(r, s, i, j)
  }

  /** `r` is `s[i..j]`, and `s` is white outside that window. */
  predicate CutsAt(r: seq<char>, s: seq<char>, i: int, j: int) {
    0 <= i <= j <= |s| && r == s[i..j] && AllSpace(s[..i]) && AllSpace(s[j..])
  }

  /** The first index at or after `i` whose character is not white space
      (`|s|` if there is none): where `strings.TrimSpace` starts. */
  function SkipSpace(s: seq<char>, i: nat): (start: nat)
    requires i <= |s|
    ensures i <= start <= |s|
    decreases |s| - i
  {
    if i < |s| && IsSpace(s[i]) then SkipSpace(s, i + 1) else i
  }

  /** `SkipSpace` passes over white space only, and stops at the first
      character that is not. */
  lemma {:induction false} SkipSpaceStopsAtText(s: seq<char>, i: nat)
    requires i <= |s|
    ensures var start := SkipSpace(s, i);
      (forall k :: i <= k < start ==> IsSpace(s[k])) && (start < |s| ==> !IsSpace(s[start]))
    decreases |s| - i
  {
    if i < |s| && IsSpace(s[i]) {
      SkipSpaceStopsAtText(s, i + 1);
    }
  }

  /** The smallest `stop`, not below `start`, such that `s[stop..j]` is all
      white space: where `strings.TrimSpace` stops. */
  function BackOverSpace(s: seq<char>, start: nat, j: nat): (stop: nat)
    requires start <= j <= |s|
    ensures start <= stop <= j
    decreases j
  {
    if j > start && IsSpace(s[j - 1]) then BackOverSpace(s, start, j - 1) else j
  }

  /** `BackOverSpace` passes back over white space only, and stops after the
      last character that is not. */
  lemma {:induction false} BackOverSpaceStopsAtText(s: seq<char>, start: nat, j: nat)
    requires start <= j <= |s|
    ensures var stop := BackOverSpace(s, start, j);
      (forall k :: stop <= k < j ==> IsSpace(s[k])) && (stop > start ==> !IsSpace(s[stop - 1]))
    decreases j
  {
    if j > start && IsSpace(s[j - 1]) {
      BackOverSpaceStopsAtText(s, start, j - 1);
    }
  }

  /** Go's `strings.TrimSpace`: the window between the first and the last
      character that is not white space. It removes exactly the white space
      at both ends. */
  function TrimSpace(s: seq<char>): (r: seq<char>)
    ensures IsTrimmingOf(r, s)
  {
    var start := SkipSpace(s, 0);
    var stop := BackOverSpace(s, start, |s|);
    SkipSpaceStopsAtText(s, 0);
    BackOverSpaceStopsAtText(s, start, |s|);
    assert CutsAt(s[start..stop], s, start, stop);
    s[start..stop]
  }

  /** The trimming of a text is unique: `TrimSpace` is the only function
      meeting its contract. */
  lemma TrimmingUnique(s: seq<char>, r1: seq<char>, r2: seq<char>)
    requires IsTrimmingOf(r1, s) && IsTrimmingOf(r2, s)
    ensures r1 == r2
  {
    var i1, j1 :| CutsAt(r1, s, i1, j1);
    var i2, j2 :| CutsAt(r2, s, i2, j2);
    CutsAgree(s, r1, i1, j1, r2, i2, j2);
  }

  /** Two windows of `s` with white outside and no white at their ends are
      the same window, or both empty. */
  lemma CutsAgree(s: seq<char>, r1: seq<char>, i1: int, j1: int, r2: seq<char>, i2: int, j2: int)
    requires CutsAt(r1, s, i1, j1) && NoOuterSpace(r1)
    requires CutsAt(r2, s, i2, j2) && NoOuterSpace(r2)
    ensures r1 == r2
  {
    CutIsEmptyIffBlank(r1, s, i1, j1);
    CutIsEmptyIffBlank(r2, s, i2, j2);
    if r1 != [] {
      assert r1[0] == s[i1] && r1[|r1| - 1] == s[j1 - 1];
      assert r2[0] == s[i2] && r2[|r2| - 1] == s[j2 - 1];
      WhitePrefixAt(s, i2, i1);
      WhitePrefixAt(s, i1, i2);
      WhiteSuffixAt(s, j2, j1 - 1);
      WhiteSuffixAt(s, j1, j2 - 1);
    }
  }

  /** A trimming is empty exactly when the whole text is white. */
  lemma CutIsEmptyIffBlank(r: seq<char>, s: seq<char>, i: int, j: int)
    requires CutsAt(r, s, i, j) && NoOuterSpace(r)
    ensures r == [] <==> AllSpace(s)
  {
    assert r != [] ==> r[0] == s[i];
    if r == [] {
      forall k | 0 <= k < |s| ensures IsSpace(s[k]) {
        if k < i { assert s[..i][k] == s[k]; } else { assert s[j..][k - j] == s[k]; }
      }
    }
  }

  /** Every character of a white prefix `s[..n]` is white. */
  lemma WhitePrefixAt(s: seq<char>, n: int, k: int)
    requires 0 <= n <= |s| && 0 <= k < |s| && AllSpace(s[..n])
    ensures k < n ==> IsSpace(s[k])
  {
    if k < n { assert s[..n][k] == s[k]; }
  }

  /** Every character of a white suffix `s[n..]` is white. */
  lemma WhiteSuffixAt(s: seq<char>, n: int, k: int)
    requires 0 <= n <= |s| && 0 <= k < |s| && AllSpace(s[n..])
    ensures n <= k ==> IsSpace(s[k])
  {
    if n <= k { assert s[n..][k - n] == s[k]; }
  }

  /** Trimming a text that is white all over leaves nothing. */
  lemma TrimSpaceOfBlank(s: seq<char>)
    requires AllSpace(s)
    ensures TrimSpace(s) == []
  {
    var r := TrimSpace(s);
    var i, j :| CutsAt(r, s, i, j);
  }

  /** Trimming twice is trimming once. */
  lemma TrimSpaceIdempotent(s: seq<char>)
    ensures TrimSpace(TrimSpace(s)) == TrimSpace(s)
  {
    var r := TrimSpace(s);
    assert CutsAt(r, r, 0, |r|);
    TrimmingUnique(r, r, TrimSpace(r));
  }

  /** A white-space character at the end of a text does not change its trimming. */
  lemma TrimSpaceIgnoresTrailingSpace(s: seq<char>, c: char)
    requires IsSpace(c)
    ensures TrimSpace(s + [c]) == TrimSpace(s)
  {
    var r := TrimSpace(s);
    var i, j :| CutsAt(r, s, i, j);
    var t := s + [c];
    assert CutsAt(r, t, i, j) by {
      assert t[i..j] == r && t[..i] == s[..i] && t[j..] == s[j..] + [c];
    }
    TrimmingUnique(t, r, TrimSpace(t));
  }

  /** The first index at or after `i` holding `d`, or `|s|` when there is none. */
  function Find(s: seq<char>, d: char, i: nat): (j: nat)
    requires i <= |s|
    ensures i <= j <= |s|
    decreases |s| - i
  {
    if i == |s| || s[i] == d then i else Find(s, d, i + 1)
  }

  /** `Find` stops at a `d`, or at the end, and passes no `d` on the way. */
  lemma {:induction false} FindIsFirst(s: seq<char>, d: char, i: nat)
    requires i <= |s|
    ensures var j := Find(s, d, i);
      (j < |s| ==> s[j] == d) && forall k :: i <= k < j ==> s[k] != d
    decreases |s| - i
  {
    if i < |s| && s[i] != d {
      FindIsFirst(s, d, i + 1);
    }
  }

  /** Index of the first `d` in `s`, or `|s|` when there is none. */
  function IndexOf(s: seq<char>, d: char): nat {
    Find(s, d, 0)
  }

  /** `IndexOf` finds the first `d`. */
  lemma IndexOfIsFirst(s: seq<char>, d: char)
    ensures var i := IndexOf(s, d); i <= |s| && (i < |s| ==> s[i] == d) && d !in s[..i]
  {
    FindIsFirst(s, d, 0);
  }

  /** The first occurrence is determined by its defining properties. */
  lemma IndexOfUnique(s: seq<char>, d: char, i: nat)
    requires i <= |s| && (i < |s| ==> s[i] == d)
    requires forall k :: 0 <= k < i ==> s[k] != d
    ensures IndexOf(s, d) == i
  {
    FindIsFirst(s, d, 0);
  }

  /** The pieces of `s` between occurrences of `d`: one more piece than there
      are `d`s, the last one being what follows the final `d`. */
  function Split(s: seq<char>, d: char): (parts: seq<seq<char>>)
    ensures |parts| > 0
    decreases |s|
  {
    var i := IndexOf(s, d);
    if i == |s| then [s] else [s[..i]] + Split(s[i + 1..], d)
  }

  /** Glue `parts` back together with `d` between neighbours. */
  function Join(parts: seq<seq<char>>, d: char): seq<char>
    decreases |parts|
  {
    if |parts| == 0 then []
    else if |parts| == 1 then parts[0]
    else parts[0] + [d] + Join(parts[1..], d)
  }

  /** `Split` yields exactly one piece more than there are delimiters. */
  lemma {:induction false} SplitCount(s: seq<char>, d: char)
    ensures |Split(s, d)| == multiset(s)[d] + 1
    decreases |s|
  {
    var i := IndexOf(s, d);
    IndexOfIsFirst(s, d);
    if i < |s| {
      SplitCount(s[i + 1..], d);
      assert s == s[..i] + [d] + s[i + 1..];
      assert multiset(s[..i])[d] == 0 by {
        assert d !in s[..i];
      }
    } else {
      assert d !in s;
    }
  }

  /** No piece of `Split` contains the delimiter. */
  lemma {:induction false} SplitPiecesHaveNoDelimiter(s: seq<char>, d: char)
    ensures forall k :: 0 <= k < |Split(s, d)| ==> d !in Split(s, d)[k]
    decreases |s|
  {
    var i := IndexOf(s, d);
    IndexOfIsFirst(s, d);
    if i < |s| {
      SplitPiecesHaveNoDelimiter(s[i + 1..], d);
      var rest := Split(s[i + 1..], d);
      forall k | 0 <= k < |Split(s, d)| ensures d !in Split(s, d)[k] {
        if k > 0 { assert Split(s, d)[k] == rest[k - 1]; }
      }
    }
  }

  /** Joining the pieces gives back the text: `Split` loses nothing. */
  lemma {:induction false} JoinSplit(s: seq<char>, d: char)
    ensures Join(Split(s, d), d) == s
    decreases |s|
  {
    var i := IndexOf(s, d);
    IndexOfIsFirst(s, d);
    if i < |s| {
      var rest := Split(s[i + 1..], d);
      var parts := [s[..i]] + rest;
      JoinSplit(s[i + 1..], d);
      assert parts[0] == s[..i] && parts[1..] == rest;
      assert Join(parts, d) == s[..i] + [d] + Join(rest, d);
      assert s == s[..i] + [d] + s[i + 1..];
    }
  }

  /** A text that is empty or ends with the delimiter splits into pieces of
      which the last is empty. */
  lemma {:induction false} SplitLastEmpty(s: seq<char>, d: char)
    requires |s| == 0 || s[|s| - 1] == d
    ensures Split(s, d)[|Split(s, d)| - 1] == []
    decreases |s|
  {
    SplitCount(s, d);
    var i := IndexOf(s, d);
    IndexOfIsFirst(s, d);
    if i < |s| {
      SplitLastEmpty(s[i + 1..], d);
      SplitCount(s[i + 1..], d);
    }
  }
}
