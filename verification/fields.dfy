/**
 * Reading fields out of one `<CMD>…</CMD>` block: the command name right under `<CMD>`
 * and the text of a named element.
 */
module Fields {
  import opened Wrappers
  import opened Text
  import opened Framing

  // ---------------------------------------------------------------------------
  // The command name

  /** What `[A-Z0-9_]` matches when case is ignored: ASCII letters of either case, digits, `_`. */
  predicate IsNameChar(c: char) {
    ('A' <= c <= 'Z') || ('a' <= c <= 'z') || ('0' <= c <= '9') || c == '_'
  }

  /** A command name as reported: upper-case letters, digits and `_`, at least one. */
  predicate IsCommandName(r: string) {
    |r| > 0 && forall k :: 0 <= k < |r| ==> ('A' <= r[k] <= 'Z') || ('0' <= r[k] <= '9') || r[k] == '_'
  }

  /** End of the run of name characters that starts at `i`. */
  function NameEnd(s: string, i: nat): (n: nat)
    requires i <= |s|
    ensures i <= n <= |s|
    ensures forall k :: i <= k < n ==> IsNameChar(s[k])
    ensures n == |s| || !IsNameChar(s[n])
    decreases |s| - i
  {
    if i < |s| && IsNameChar(s[i]) then NameEnd(s, i + 1) else i
  }

  /**
   * `\s*<([A-Z0-9_]+)>` matches at `p` with the group `s[a..e]`: blanks from `p` up to
   * a `<`, a run of name characters, then `>`.
   */
  predicate TagTail(s: string, p: nat, a: nat, e: nat) {
    && p < a < e < |s|
    && (forall k :: p <= k < a - 1 ==> IsSpace(s[k]))
    && s[a - 1] == '<'
    && (forall k :: a <= k < e ==> IsNameChar(s[k]))
    && s[e] == '>'
  }

  /**
   * `<CMD>\s*<([A-Z0-9_]+)>` matches at `i`, ignoring case, and its group is `s[a..e]`.
   */
  predicate TagMatch(s: string, i: nat, a: nat, e: nat) {
    MatchAt(s, i, Open) && TagTail(s, i + |Open|, a, e)
  }

  /** The matcher for the part after `<CMD>`: skip blanks, then `<`, the name and `>`. */
  function TagFrom(s: string, p: nat): (r: Option<(nat, nat)>)
    requires p <= |s|
    ensures r.Some? ==> p < r.value.0 < r.value.1 < |s|
    decreases |s| - p
  {
    if p == |s| then None
    else if IsSpace(s[p]) then TagFrom(s, p + 1)
    else if s[p] == '<' then
      var e := NameEnd(s, p + 1);
      if p + 1 < e < |s| && s[e] == '>' then Some((p + 1, e)) else None
    else None
  }

  /** What the matcher finds is a match. */
  lemma {:induction false} TagFromSound(s: string, p: nat)
    requires p <= |s| && TagFrom(s, p).Some?
    ensures TagTail(s, p, TagFrom(s, p).value.0, TagFrom(s, p).value.1)
    decreases |s| - p
  {
    if IsSpace(s[p]) {
      TagFromSound(s, p + 1);
    }
  }

  /** The matcher finds the only match there is: blanks cannot end early, nor the name. */
  lemma {:induction false} TagFromComplete(s: string, p: nat, a: nat, e: nat)
    requires p <= |s| && TagTail(s, p, a, e)
    ensures TagFrom(s, p) == Some((a, e))
    decreases |s| - p
  {
    if p < a - 1 {
      TagFromComplete(s, p + 1, a, e);
    }
  }

  /** `<CMD>` at `i`, case ignored, one character at a time. */
  predicate OpenAt(s: string, i: nat) {
    && i + |Open| <= |s|
    && s[i] == '<' && UpperChar(s[i + 1]) == 'C' && UpperChar(s[i + 2]) == 'M'
    && UpperChar(s[i + 3]) == 'D' && s[i + 4] == '>'
  }

  lemma OpenAtMatch(s: string, i: nat)
    ensures OpenAt(s, i) <==> MatchAt(s, i, Open)
  {
    if MatchAt(s, i, Open) {
      MatchChar(s, i, Open, i);
      MatchChar(s, i, Open, i + 1);
      MatchChar(s, i, Open, i + 2);
      MatchChar(s, i, Open, i + 3);
      MatchChar(s, i, Open, i + 4);
    }
  }

  /** The pattern matches at `i`, as the matcher sees it. */
  predicate TagAt(s: string, i: nat) {
    OpenAt(s, i) && TagFrom(s, i + |Open|).Some?
  }

  /** Where the leftmost match at or after `from` starts. */
  function FirstTag(s: string, from: nat): (r: Option<nat>)
    ensures r.Some? ==> from <= r.value && TagAt(s, r.value)
    ensures r.Some? ==> forall j: nat :: from <= j < r.value ==> !TagAt(s, j)
    ensures r.None? ==> forall j: nat :: from <= j ==> !TagAt(s, j)
    decreases |s| - from
  {
    if from + |Open| > |s| then None
    else if TagAt(s, from) then Some(from)
    else FirstTag(s, from + 1)
  }

  /** `re.search` for the pattern: the leftmost match, and its group. */
  ghost predicate IsFirstTag(s: string, i: nat, a: nat, e: nat) {
    TagMatch(s, i, a, e) && forall i': nat, a': nat, e': nat :: i' < i ==> !TagMatch(s, i', a', e')
  }

  /** The bridge's `detect_cmd_type`: a command name, or "" when there is none. */
  function DetectCmdType(block: string): (r: string)
    ensures r == "" || IsCommandName(r)
  {
    match FirstTag(block, 0)
    case None => ""
    case Some(i) =>
      TagFromSound(block, i + |Open|);
      var (a, e) := TagFrom(block, i + |Open|).value;
      Upper(block[a..e])
  }

  /** A match seen by the reference pattern is seen by the matcher, with the same group. */
  lemma TagMatchSeen(s: string, i: nat, a: nat, e: nat)
    requires TagMatch(s, i, a, e)
    ensures TagAt(s, i) && TagFrom(s, i + |Open|) == Some((a, e))
  {
    OpenAtMatch(s, i);
    TagFromComplete(s, i + |Open|, a, e);
  }

  /**
   * `DetectCmdType` is `re.search` for `<CMD>\s*<([A-Z0-9_]+)>` ignoring case: "" exactly
   * when nothing matches, and otherwise the upper-cased group of the leftmost match.
   */
  lemma DetectCmdTypeSearch(block: string)
    ensures DetectCmdType(block) == "" <==> forall i: nat, a: nat, e: nat :: !TagMatch(block, i, a, e)
    ensures DetectCmdType(block) != "" ==>
      exists i: nat, a: nat, e: nat :: IsFirstTag(block, i, a, e) && DetectCmdType(block) == Upper(block[a..e])
  {
    forall i: nat, a: nat, e: nat | TagMatch(block, i, a, e) ensures TagAt(block, i) {
      TagMatchSeen(block, i, a, e);
    }
    match FirstTag(block, 0)
    case None =>
    case Some(i) =>
      TagFromSound(block, i + |Open|);
      OpenAtMatch(block, i);
      var (a, e) := TagFrom(block, i + |Open|).value;
      assert IsFirstTag(block, i, a, e);
  }

  /** The tail pattern does not care what precedes it. */
  lemma TagTailBehind(x: string, t: string, p: nat, a: nat, e: nat)
    requires TagTail(t, p, a, e)
    ensures TagTail(x + t, |x| + p, |x| + a, |x| + e)
  {
    var s := x + t;
    forall k | |x| + p <= k < |x| + a - 1 ensures IsSpace(s[k]) {
      assert s[k] == t[k - |x|];
    }
    forall k | |x| + a <= k < |x| + e ensures IsNameChar(s[k]) {
      assert s[k] == t[k - |x|];
    }
    assert s[|x| + a - 1] == t[a - 1];
    assert s[|x| + e] == t[e];
  }

  /** The tail pattern for a written `ws<name>`. */
  lemma WrittenTagTail(ws: string, name: string, rest: string)
    requires AllSpace(ws)
    requires |name| > 0 && forall k :: 0 <= k < |name| ==> IsNameChar(name[k])
    ensures TagTail(ws + "<" + name + ">" + rest, 0, |ws| + 1, |ws| + 1 + |name|)
    ensures (ws + "<" + name + ">" + rest)[|ws| + 1..|ws| + 1 + |name|] == name
  {
    var t := ws + "<" + name + ">" + rest;
    var a := |ws| + 1;
    assert t[a..a + |name|] == name;
    forall k | 0 <= k < a - 1 ensures IsSpace(t[k]) {
      assert t[k] == ws[k];
    }
    forall k | a <= k < a + |name| ensures IsNameChar(t[k]) {
      assert t[k] == name[k - a];
    }
  }

  /** Right under a leading `<CMD>`, the tail pattern decides the name. */
  lemma DetectAfterOpen(s: string, tail: string, a: nat, e: nat)
    requires s == Open + tail && TagTail(tail, 0, a, e)
    ensures DetectCmdType(s) == Upper(tail[a..e])
  {
    assert OpenAt(s, 0) by {
      assert s[..|Open|] == Open;
    }
    TagTailBehind(Open, tail, 0, a, e);
    TagFromComplete(s, |Open|, |Open| + a, |Open| + e);
    assert FirstTag(s, 0) == Some(0);
    assert s[|Open| + a..|Open| + e] == tail[a..e];
  }

  /** The name reported is the one written under `<CMD>`, upper-cased, whatever follows. */
  lemma DetectWritten(ws: string, name: string, rest: string)
    requires AllSpace(ws)
    requires |name| > 0 && forall k :: 0 <= k < |name| ==> IsNameChar(name[k])
    ensures DetectCmdType(Open + ws + "<" + name + ">" + rest) == Upper(name)
  {
    var tail := ws + "<" + name + ">" + rest;
    var a := |ws| + 1;
    WrittenTagTail(ws, name, rest);
    assert Open + ws + "<" + name + ">" + rest == Open + tail;
    DetectAfterOpen(Open + tail, tail, a, a + |name|);
  }

  // ---------------------------------------------------------------------------
  // Element text

  /** A tag name as the bridge passes it: plain upper-case letters. */
  predicate IsTagName(tag: string) {
    |tag| > 0 && forall k :: 0 <= k < |tag| ==> 'A' <= tag[k] <= 'Z'
  }

  function OpenTag(tag: string): string {
    "<" + tag + ">"
  }

  function CloseTag(tag: string): string {
    "</" + tag + ">"
  }

  /** The text between the opening and closing tag of the element at `sp`. */
  function Inner(xml: string, sp: Span, tag: string): string
    requires sp.start + |OpenTag(tag)| + |CloseTag(tag)| <= sp.end <= |xml|
  {
    xml[sp.start + |OpenTag(tag)|..sp.end - |CloseTag(tag)|]
  }

  /**
   * The bridge's `get_tag_value`: the stripped text of the first `<TAG>…</TAG>` element,
   * case ignored and the closer the nearest one, or "" when there is none.
   */
  function GetTagValue(xml: string, tag: string): (r: string)
    requires IsTagName(tag)
    ensures IsTrimmed(r)
    ensures NoPairFrom(xml, 0, OpenTag(tag), CloseTag(tag)) ==> r == ""
  {
    match FirstPair(xml, 0, OpenTag(tag), CloseTag(tag))
    case None => ""
    case Some(sp) => Trim(Inner(xml, sp, tag))
  }

  /** Whenever the first element is `sp`, the value is its stripped text. */
  lemma GetTagValueOfFirst(xml: string, tag: string, sp: Span)
    requires IsTagName(tag)
    requires IsFirstPair(xml, 0, sp, OpenTag(tag), CloseTag(tag))
    ensures GetTagValue(xml, tag) == Trim(Inner(xml, sp, tag))
  {
    FirstPairUnique(xml, 0, sp, OpenTag(tag), CloseTag(tag));
  }

  /**
   * Reading back a written element: after text holding no opener of the tag, the value
   * of `<TAG>v</TAG>` is `v` stripped, as long as `v` holds no closer of the tag.
   */
  lemma GetTagValueWritten(pre: string, tag: string, v: string, post: string)
    requires IsTagName(tag)
    requires forall j: nat :: !MatchAt(pre, j, OpenTag(tag))
    requires forall j: nat :: !MatchAt(v, j, CloseTag(tag))
    ensures GetTagValue(pre + OpenTag(tag) + v + CloseTag(tag) + post, tag) == Trim(v)
  {
    var o, c := OpenTag(tag), CloseTag(tag);
    var s := pre + o + v + c + post;
    var sp := Span(|pre|, |pre| + |o| + |v| + |c|);
    TagShapes(tag);
    FirstPairWritten(pre, o, v, c, post);
    assert Inner(s, sp, tag) == v;
  }

  /** Both tags start with their only `<`. */
  lemma TagShapes(tag: string)
    requires IsTagName(tag)
    ensures OpenTag(tag)[0] == '<' && forall k :: 0 < k < |OpenTag(tag)| ==> OpenTag(tag)[k] != '<'
    ensures CloseTag(tag)[0] == '<' && forall k :: 0 < k < |CloseTag(tag)| ==> CloseTag(tag)[k] != '<'
  {
    var o, c := OpenTag(tag), CloseTag(tag);
    forall k | 0 < k < |o| ensures o[k] != '<' {
      if k <= |tag| { assert o[k] == tag[k - 1]; }
    }
    forall k | 0 < k < |c| ensures c[k] != '<' {
      if 2 <= k <= |tag| + 1 { assert c[k] == tag[k - 2]; }
    }
  }
}
