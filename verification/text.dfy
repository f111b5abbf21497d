/**
 * The string primitives the bridge borrows from Python: `str.strip`, `str.upper`,
 * `str.lower`, case-insensitive and exact substring search, `rstrip("/")` and `replace`.
 * Strings are sequences of Unicode scalar values.
 */
module Text {
  import opened Wrappers

  /** Python's `str.isspace()` for a single character (also what `\s` matches in a `str` regex). */
  predicate IsSpace(c: char) {
    || c == ' '
    || ('\t' <= c <= '\r')
    || ('\U{1C}' <= c <= '\U{1F}')
    || c == '\U{85}' || c == '\U{A0}' || c == '\U{1680}'
    || ('\U{2000}' <= c <= '\U{200A}')
    || c == '\U{2028}' || c == '\U{2029}' || c == '\U{202F}' || c == '\U{205F}' || c == '\U{3000}'
  }

  predicate AllSpace(s: string) {
    forall i :: 0 <= i < |s| ==> IsSpace(s[i])
  }

  /** True when `s` neither starts nor ends with whitespace. */
  predicate IsTrimmed(s: string) {
    s == [] || (!IsSpace(s[0]) && !IsSpace(s[|s| - 1]))
  }

  /** Where the text starts once the whitespace in front of position `i` is skipped. */
  function SkipSpace(s: string, i: nat): (n: nat)
    requires i <= |s|
    ensures i <= n <= |s|
    ensures forall k :: i <= k < n ==> IsSpace(s[k])
    ensures n == |s| || !IsSpace(s[n])
    decreases |s| - i
  {
    if i < |s| && IsSpace(s[i]) then SkipSpace(s, i + 1) else i
  }

  /** Where the text ends once the whitespace before position `j`, down to `lo`, is dropped. */
  function SkipSpaceBack(s: string, lo: nat, j: nat): (n: nat)
    requires lo <= j <= |s|
    ensures lo <= n <= j
    ensures forall k :: n <= k < j ==> IsSpace(s[k])
    ensures n == lo || !IsSpace(s[n - 1])
  {
    if lo < j && IsSpace(s[j - 1]) then SkipSpaceBack(s, lo, j - 1) else j
  }

  /** Index of the first character `s.strip()` keeps. */
  function TrimStart(s: string): (n: nat)
    ensures n <= |s|
  {
    SkipSpace(s, 0)
  }

  /** Python's `s.strip()`: drop whitespace at both ends. */
  function Trim(s: string): (r: string)
    ensures IsTrimmed(r)
    ensures TrimStart(s) + |r| <= |s| && r == s[TrimStart(s)..TrimStart(s) + |r|]
    ensures forall k :: 0 <= k < TrimStart(s) ==> IsSpace(s[k])
    ensures forall k :: TrimStart(s) + |r| <= k < |s| ==> IsSpace(s[k])
    ensures r == [] <==> AllSpace(s)
  {
    var a := SkipSpace(s, 0);
    var b := SkipSpaceBack(s, a, |s|);
    var r := s[a..b];
    assert r != [] ==> r[0] == s[a] && r[|r| - 1] == s[b - 1];
    r
  }

  lemma TrimTrimmed(s: string)
    requires IsTrimmed(s)
    ensures Trim(s) == s
  {
  }

  /** Trimming twice is trimming once. */
  lemma TrimIdempotent(s: string)
    ensures Trim(Trim(s)) == Trim(s)
  {
    TrimTrimmed(Trim(s));
  }

  /** Blanks around a trimmed text are exactly what stripping removes. */
  lemma TrimPadded(ws: string, t: string, ws2: string)
    requires AllSpace(ws) && AllSpace(ws2) && IsTrimmed(t)
    ensures Trim(ws + t + ws2) == t
  {
    var s := ws + t + ws2;
    var r := Trim(s);
    if t == [] {
      assert s == ws + ws2;
      assert AllSpace(s);
    } else {
      assert s[|ws|] == t[0];
      assert s[|ws| + |t| - 1] == t[|t| - 1];
      assert TrimStart(s) == |ws|;
      assert r == s[|ws|..|ws| + |t|];
    }
  }

  /** ASCII upper-casing of one character. */
  function UpperChar(c: char): (u: char)
    ensures IsSpace(u) <==> IsSpace(c)
  {
    if 'a' <= c <= 'z' then (c as int - 32) as char else c
  }

  /** Python's `s.upper()` restricted to ASCII letters. */
  function Upper(s: string): (r: string)
    ensures |r| == |s|
    ensures forall i :: 0 <= i < |s| ==> r[i] == UpperChar(s[i])
  {
    seq(|s|, i requires 0 <= i < |s| => UpperChar(s[i]))
  }

  predicate IsUpper(s: string) {
    forall i :: 0 <= i < |s| ==> UpperChar(s[i]) == s[i]
  }

  lemma UpperIsUpper(s: string)
    ensures IsUpper(Upper(s))
  {
  }

  lemma UpperOfUpper(s: string)
    requires IsUpper(s)
    ensures Upper(s) == s
  {
  }

  /** Upper-casing keeps a string trimmed, since letters are never whitespace. */
  lemma UpperKeepsTrimmed(s: string)
    requires IsTrimmed(s)
    ensures IsTrimmed(Upper(s))
  {
  }

  /** Upper-casing distributes over concatenation. */
  lemma UpperAppend(a: string, b: string)
    ensures Upper(a + b) == Upper(a) + Upper(b)
  {
  }

  // ---------------------------------------------------------------------------
  // Substring search

  /** `pat` occurs at `i` in `s`, ignoring ASCII case (`re.IGNORECASE` on a literal). */
  predicate MatchAt(s: string, i: nat, pat: string) {
    i + |pat| <= |s| && forall k :: i <= k < i + |pat| ==> UpperChar(s[k]) == UpperChar(pat[k - i])
  }

  /** `pat` occurs at `i` in `s` character for character. */
  predicate OccursAt(s: string, i: nat, pat: string) {
    i + |pat| <= |s| && s[i..i + |pat|] == pat
  }

  /** One differing character rules a match out. */
  lemma MismatchAt(s: string, i: nat, pat: string, k: nat)
    requires i <= k < i + |pat| && k < |s|
    requires UpperChar(s[k]) != UpperChar(pat[k - i])
    ensures !MatchAt(s, i, pat)
  {
  }

  /** A match fixes the folded character at each covered position. */
  lemma MatchChar(s: string, i: nat, pat: string, k: nat)
    requires MatchAt(s, i, pat) && i <= k < i + |pat|
    ensures UpperChar(s[k]) == UpperChar(pat[k - i])
  {
  }

  /** Matching behind a prefix `x` is matching in the rest, shifted by `|x|`. */
  lemma MatchBehind(x: string, y: string, j: nat, pat: string)
    ensures MatchAt(x + y, |x| + j, pat) <==> MatchAt(y, j, pat)
  {
    assert (x + y)[|x|..] == y;
    MatchInSlice(x + y, |x|, |x + y|, j, pat);
  }

  /** A match that ends inside `x` is a match in `x`. */
  lemma MatchBefore(x: string, y: string, j: nat, pat: string)
    requires j + |pat| <= |x|
    ensures MatchAt(x + y, j, pat) <==> MatchAt(x, j, pat)
  {
    assert (x + y)[0..|x|] == x;
    MatchInSlice(x + y, 0, |x|, j, pat);
  }

  /** A pattern written out in full matches, ignoring case, where it is written. */
  lemma MatchWritten(x: string, pat: string, y: string)
    ensures MatchAt(x + pat + y, |x|, pat)
  {
    var s := x + pat + y;
    forall k | |x| <= k < |x| + |pat| ensures s[k] == pat[k - |x|] { }
  }

  /**
   * No match can start before a `<` and run across it when the pattern has no `<` after
   * its first character.
   */
  lemma NoMatchAcross(s: string, q: nat, pat: string, b: nat)
    requires q < b < q + |pat| && b < |s| && s[b] == '<'
    requires forall k :: 0 < k < |pat| ==> pat[k] != '<'
    ensures !MatchAt(s, q, pat)
  {
    assert pat[b - q] != '<';
    MismatchAt(s, q, pat, b);
  }

  /** Exact occurrence behind a prefix `x` is occurrence in the rest, shifted by `|x|`. */
  lemma OccursBehind(x: string, y: string, j: nat, pat: string)
    ensures OccursAt(x + y, |x| + j, pat) <==> OccursAt(y, j, pat)
  {
    if |x| + j + |pat| <= |x + y| {
      assert (x + y)[|x| + j..|x| + j + |pat|] == y[j..j + |pat|];
    }
  }

  /** A match inside a slice is a match in the whole string, shifted by the slice's start. */
  lemma MatchInSlice(s: string, lo: nat, hi: nat, j: nat, pat: string)
    requires lo <= hi <= |s|
    ensures MatchAt(s[lo..hi], j, pat) <==> j + |pat| <= hi - lo && MatchAt(s, lo + j, pat)
  {
    var t := s[lo..hi];
    if j + |pat| <= hi - lo {
      forall i | j <= i < j + |pat| ensures t[i] == s[lo + i] { }
    }
  }

  /**
   * For a pattern that starts with its only `<`: text without a match, followed by the
   * pattern, has no match anywhere before the written one.
   */
  lemma NoMatchBeforeWritten(x: string, pat: string, y: string)
    requires |pat| > 0 && pat[0] == '<' && forall k :: 0 < k < |pat| ==> pat[k] != '<'
    requires forall j: nat :: !MatchAt(x, j, pat)
    ensures forall q: nat :: q < |x| ==> !MatchAt(x + pat + y, q, pat)
  {
    var s := x + pat + y;
    assert s == x + (pat + y);
    forall q: nat | q < |x| ensures !MatchAt(s, q, pat) {
      if q + |pat| <= |x| {
        MatchBefore(x, pat + y, q, pat);
      } else {
        assert s[|x|] == pat[0];
        NoMatchAcross(s, q, pat, |x|);
      }
    }
  }

  /** The same, for text `v` behind a prefix `x`. */
  lemma NoMatchInsideWritten(x: string, v: string, pat: string, y: string)
    requires |pat| > 0 && pat[0] == '<' && forall k :: 0 < k < |pat| ==> pat[k] != '<'
    requires forall j: nat :: !MatchAt(v, j, pat)
    ensures forall q: nat :: |x| <= q < |x| + |v| ==> !MatchAt(x + v + pat + y, q, pat)
  {
    NoMatchBeforeWritten(v, pat, y);
    assert x + v + pat + y == x + (v + pat + y);
    forall q: nat | |x| <= q < |x| + |v| ensures !MatchAt(x + v + pat + y, q, pat) {
      MatchBehind(x, v + pat + y, q - |x|, pat);
    }
  }

  /** Leftmost case-insensitive occurrence of `pat` at or after `from`. */
  function FindFrom(s: string, pat: string, from: nat): (r: Option<nat>)
    requires |pat| > 0
    ensures r.Some? ==> from <= r.value && MatchAt(s, r.value, pat)
    ensures r.Some? ==> forall j: nat :: from <= j < r.value ==> !MatchAt(s, j, pat)
    ensures r.None? ==> forall j: nat :: from <= j ==> !MatchAt(s, j, pat)
    decreases |s| - from
  {
    if from + |pat| > |s| then None
    else if MatchAt(s, from, pat) then Some(from)
    else FindFrom(s, pat, from + 1)
  }

  /** Rightmost occurrence of `pat` that starts below `bound`, exact or case-insensitive. */
  function FindLastBelow(s: string, pat: string, bound: nat, fold: bool): (r: Option<nat>)
    requires |pat| > 0
    ensures r.Some? ==> r.value < bound && Hit(s, r.value, pat, fold)
    ensures r.Some? ==> forall j: nat :: r.value < j < bound ==> !Hit(s, j, pat, fold)
    ensures r.None? ==> forall j: nat :: j < bound ==> !Hit(s, j, pat, fold)
  {
    if bound == 0 then None
    else if Hit(s, bound - 1, pat, fold) then Some(bound - 1)
    else FindLastBelow(s, pat, bound - 1, fold)
  }

  predicate Hit(s: string, i: nat, pat: string, fold: bool) {
    if fold then MatchAt(s, i, pat) else OccursAt(s, i, pat)
  }

  /** Python's `s.rfind(pat)` (exact). */
  function RFind(s: string, pat: string): (r: Option<nat>)
    requires |pat| > 0
    ensures r.Some? ==> OccursAt(s, r.value, pat) && forall j: nat :: r.value < j ==> !OccursAt(s, j, pat)
    ensures r.None? ==> forall j: nat :: !OccursAt(s, j, pat)
  {
    var r := FindLastBelow(s, pat, |s| + 1, false);
    forall j: nat | true ensures Hit(s, j, pat, false) == OccursAt(s, j, pat) { }
    r
  }

  /** Last case-insensitive occurrence of `pat` in `s`. */
  function RFindFold(s: string, pat: string): (r: Option<nat>)
    requires |pat| > 0
    ensures r.Some? ==> MatchAt(s, r.value, pat) && forall j: nat :: r.value < j ==> !MatchAt(s, j, pat)
    ensures r.None? ==> forall j: nat :: !MatchAt(s, j, pat)
  {
    var r := FindLastBelow(s, pat, |s| + 1, true);
    forall j: nat | true ensures Hit(s, j, pat, true) == MatchAt(s, j, pat) { }
    r
  }

  /** Text in front of the last match moves it right by its length. */
  lemma RFindFoldBehind(x: string, y: string, pat: string)
    requires |pat| > 0 && RFindFold(y, pat).Some?
    ensures RFindFold(x + y, pat) == Some(|x| + RFindFold(y, pat).value)
  {
    var k := RFindFold(y, pat).value;
    MatchBehind(x, y, k, pat);
    var m := RFindFold(x + y, pat).value;
    MatchBehind(x, y, m - |x|, pat);
  }

  /** Text in front of the last exact occurrence moves it right by its length. */
  lemma RFindBehind(x: string, y: string, pat: string)
    requires |pat| > 0 && RFind(y, pat).Some?
    ensures RFind(x + y, pat) == Some(|x| + RFind(y, pat).value)
  {
    var k := RFind(y, pat).value;
    OccursBehind(x, y, k, pat);
    var m := RFind(x + y, pat).value;
    OccursBehind(x, y, m - |x|, pat);
  }

  /** Python's `pat in s` (exact). */
  predicate Contains(s: string, pat: string) {
    exists i :: 0 <= i <= |s| && OccursAt(s, i, pat)
  }

  // ---------------------------------------------------------------------------
  // Lower-casing, as `str.lower()` does it

  /** The dotted capital I, whose lower-case form is two characters long. */
  const DottedCapitalI: char := '\U{130}'

  /**
   * Python's `str.lower()` of one character: ASCII letters, and U+0130, which becomes
   * "i" followed by U+0307 COMBINING DOT ABOVE. Other letters are kept as they are.
   */
  function LowerChar(c: char): (r: string)
    ensures 1 <= |r| <= 2
    ensures |r| == 2 <==> c == DottedCapitalI
  {
    if 'A' <= c <= 'Z' then [(c as int + 32) as char]
    else if c == DottedCapitalI then ['i', '\U{307}']
    else [c]
  }

  /** Python's `s.lower()`; longer than `s` by one for every U+0130 in it. */
  function Lower(s: string): (r: string)
    ensures |s| <= |r| <= 2 * |s|
  {
    if s == [] then [] else LowerChar(s[0]) + Lower(s[1..])
  }

  /** Without U+0130, lower-casing keeps every character in place. */
  lemma {:induction false} LowerInPlace(s: string)
    requires DottedCapitalI !in s
    ensures |Lower(s)| == |s|
    ensures forall i :: 0 <= i < |s| ==> Lower(s)[i] == LowerChar(s[i])[0]
  {
    if s != [] {
      LowerInPlace(s[1..]);
    }
  }

  /** Lower-casing distributes over concatenation. */
  lemma {:induction false} LowerAppend(a: string, b: string)
    ensures Lower(a + b) == Lower(a) + Lower(b)
  {
    if a == [] {
      assert a + b == b;
    } else {
      assert (a + b)[0] == a[0];
      assert (a + b)[1..] == a[1..] + b;
      LowerAppend(a[1..], b);
      calc {
        Lower(a + b);
        LowerChar(a[0]) + Lower(a[1..] + b);
        LowerChar(a[0]) + (Lower(a[1..]) + Lower(b));
        (LowerChar(a[0]) + Lower(a[1..])) + Lower(b);
      }
    }
  }

  /**
   * On a lower-case or non-letter pattern character, matching the lower-cased text
   * exactly is the same as matching the original text ignoring case.
   */
  lemma LowerMatchesFold(c: char, p: char)
    requires c != DottedCapitalI && !('A' <= p <= 'Z')
    ensures LowerChar(c)[0] == p <==> UpperChar(c) == UpperChar(p)
  {
  }

  // ---------------------------------------------------------------------------
  // rstrip and replace

  /** Python's `s.rstrip(c)`: drop every trailing `c`. */
  function RStrip(s: string, c: char): (r: string)
    ensures |r| <= |s| && r == s[..|r|]
    ensures r == [] || r[|r| - 1] != c
    ensures forall i :: |r| <= i < |s| ==> s[i] == c
  {
    if s != [] && s[|s| - 1] == c then
      var r := RStrip(s[..|s| - 1], c);
      assert forall i :: |r| <= i < |s| - 1 ==> s[i] == s[..|s| - 1][i];
      r
    else s
  }

  /** Python's `s.replace(pat, repl)`: non-overlapping occurrences, scanned left to right. */
  function ReplaceAll(s: string, pat: string, repl: string): (r: string)
    requires |pat| > 0
    ensures |repl| <= |pat| ==> |r| <= |s|
    decreases |s|
  {
    if OccursAt(s, 0, pat) then repl + ReplaceAll(s[|pat|..], pat, repl)
    else if s == [] then []
    else [s[0]] + ReplaceAll(s[1..], pat, repl)
  }
}
