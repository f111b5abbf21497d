/**
 * Reframing of the N3FJP TCP stream: received text is appended to a buffer, complete
 * `<CMD>…</CMD>` blocks are taken out leftmost-first and shortest-first ignoring case,
 * and the buffer is cut back to what follows the last `</CMD>`. A size cap bounds it.
 */
module Framing {
  import opened Wrappers
  import opened Text

  const Open: string := "<CMD>"
  const Close: string := "</CMD>"

  /** Above this many characters the buffer is cut down before it is scanned. */
  const MaxBuffer: nat := 300000
  /** How many trailing characters survive that cut. */
  const KeepOnOverflow: nat := 80000

  /** The match `s[start..end]`, opener and closer included. */
  datatype Span = Span(start: nat, end: nat)

  /** `sp` is an opener at its start and a closer at its end, not overlapping. */
  predicate PairAt(s: string, sp: Span, open: string, close: string) {
    && sp.start + |open| + |close| <= sp.end <= |s|
    && MatchAt(s, sp.start, open)
    && MatchAt(s, sp.end - |close|, close)
  }

  /** No opener at or after `from` is followed by a closer: nothing left to match. */
  ghost predicate NoPairFrom(s: string, from: nat, open: string, close: string) {
    forall o: nat, c: nat :: from <= o && o + |open| <= c && MatchAt(s, o, open) ==> !MatchAt(s, c, close)
  }

  /**
   * What `open.*?close` (ignoring case, dot matching newlines) matches when searched
   * from `from`: the leftmost opener that has a closer after it, then the nearest such
   * closer. Because every later opener would need a later closer too, the leftmost
   * opener that can match at all is simply the first opener.
   */
  predicate IsFirstPair(s: string, from: nat, sp: Span, open: string, close: string) {
    && from <= sp.start
    && PairAt(s, sp, open, close)
    && (forall q: nat :: from <= q < sp.start ==> !MatchAt(s, q, open))
    && (forall q: nat :: sp.start + |open| <= q < sp.end - |close| ==> !MatchAt(s, q, close))
  }

  /** The lazy-pattern search itself. */
  function FirstPair(s: string, from: nat, open: string, close: string): (r: Option<Span>)
    requires |open| > 0 && |close| > 0
    ensures r.Some? ==> IsFirstPair(s, from, r.value, open, close)
    ensures r.None? <==> NoPairFrom(s, from, open, close)
  {
    match FindFrom(s, open, from)
    case None => None
    case Some(i) =>
      match FindFrom(s, close, i + |open|)
      case None => None
      case Some(j) => Some(Span(i, j + |close|))
  }

  /** The search has only one possible answer. */
  lemma FirstPairUnique(s: string, from: nat, sp: Span, open: string, close: string)
    requires |open| > 0 && |close| > 0
    requires IsFirstPair(s, from, sp, open, close)
    ensures FirstPair(s, from, open, close) == Some(sp)
  {
    assert MatchAt(s, sp.start, open) && MatchAt(s, sp.end - |close|, close);
  }

  /**
   * Written text `pre open v close post`, with no opener in `pre` and no closer in `v`,
   * has the written element as its first pair, when both patterns start with their only `<`.
   */
  lemma FirstPairWritten(pre: string, open: string, v: string, close: string, post: string)
    requires |open| > 0 && open[0] == '<' && forall k :: 0 < k < |open| ==> open[k] != '<'
    requires |close| > 0 && close[0] == '<' && forall k :: 0 < k < |close| ==> close[k] != '<'
    requires forall j: nat :: !MatchAt(pre, j, open)
    requires forall j: nat :: !MatchAt(v, j, close)
    ensures FirstPair(pre + open + v + close + post, 0, open, close)
         == Some(Span(|pre|, |pre| + |open| + |v| + |close|))
  {
    var s := pre + open + v + close + post;
    NoMatchBeforeWritten(pre, open, v + close + post);
    assert pre + open + (v + close + post) == s;
    NoMatchInsideWritten(pre + open, v, close, post);
    MatchWritten(pre, open, v + close + post);
    MatchWritten(pre + open + v, close, post);
    FirstPairUnique(s, 0, Span(|pre|, |pre| + |open| + |v| + |close|), open, close);
  }

  // ---------------------------------------------------------------------------
  // findall

  /**
   * Reference meaning of `findall` for `<CMD>.*?</CMD>`: a sequence of first pairs,
   * each search starting where the previous match ended, until nothing matches.
   */
  ghost predicate IsScan(s: string, from: nat, spans: seq<Span>)
    decreases |spans|
  {
    if spans == [] then NoPairFrom(s, from, Open, Close)
    else IsFirstPair(s, from, spans[0], Open, Close) && IsScan(s, spans[0].end, spans[1..])
  }

  /** The spans `findall` returns, scanning from `from`. */
  function Blocks(s: string, from: nat): (r: seq<Span>)
    ensures IsScan(s, from, r)
    ensures forall k :: 0 <= k < |r| ==> r[k].start <= r[k].end <= |s|
    decreases |s| - from
  {
    match FirstPair(s, from, Open, Close)
    case None => []
    case Some(sp) =>
      var rest := Blocks(s, sp.end);
      assert ([sp] + rest)[1..] == rest;
      [sp] + rest
  }

  /** The spans of a scan are matches, in order, not overlapping, inside the text. */
  lemma {:induction false} ScanSpansOrdered(s: string, from: nat, spans: seq<Span>)
    requires IsScan(s, from, spans)
    ensures forall k :: 0 <= k < |spans| ==> from <= spans[k].start && spans[k].start + |Open| + |Close| <= spans[k].end <= |s|
    ensures forall k :: 0 <= k < |spans| ==> PairAt(s, spans[k], Open, Close)
    ensures forall k :: 0 < k < |spans| ==> spans[k - 1].end <= spans[k].start
    decreases |spans|
  {
    if spans != [] {
      ScanSpansOrdered(s, spans[0].end, spans[1..]);
      forall k | 0 < k < |spans| ensures spans[k] == spans[1..][k - 1] { }
    }
  }

  /** `Blocks` is the only sequence of spans that meets the reference meaning. */
  lemma {:induction false} BlocksUnique(s: string, from: nat, spans: seq<Span>)
    requires IsScan(s, from, spans)
    ensures spans == Blocks(s, from)
    decreases |spans|
  {
    if spans == [] {
      var r := FirstPair(s, from, Open, Close);
      assert r.None?;
    } else {
      FirstPairUnique(s, from, spans[0], Open, Close);
      BlocksUnique(s, spans[0].end, spans[1..]);
    }
  }

  /** Where the scan stops: the end of the last match, or `from` when there is none. */
  function ScanEnd(from: nat, spans: seq<Span>): nat {
    if spans == [] then from else spans[|spans| - 1].end
  }

  /** After the last match nothing can be matched any more. */
  lemma {:induction false} ScanEndHasNoPair(s: string, from: nat, spans: seq<Span>)
    requires IsScan(s, from, spans)
    ensures NoPairFrom(s, ScanEnd(from, spans), Open, Close)
    decreases |spans|
  {
    if spans != [] {
      ScanEndHasNoPair(s, spans[0].end, spans[1..]);
      if |spans| > 1 {
        assert spans[1..][|spans| - 2] == spans[|spans| - 1];
      }
    }
  }

  // ---------------------------------------------------------------------------
  // Cutting the buffer

  /** `buf` shortened to its last `KeepOnOverflow` characters when longer than `MaxBuffer`. */
  function Capped(buf: string): (r: string)
    ensures |r| <= MaxBuffer
    ensures |r| <= |buf| && r == buf[|buf| - |r|..]
    ensures |buf| <= MaxBuffer ==> r == buf
    ensures |buf| > MaxBuffer ==> |r| == KeepOnOverflow
  {
    if |buf| > MaxBuffer then buf[|buf| - KeepOnOverflow..] else buf
  }

  /** What follows the last `</CMD>` in `buf`, ignoring case; `buf` itself when there is none. */
  function CutAfterLastClose(buf: string): (r: string)
    ensures |r| <= |buf| && r == buf[|buf| - |r|..]
    ensures forall j: nat :: !MatchAt(r, j, Close)
    ensures |r| < |buf| ==> |r| + |Close| <= |buf| && MatchAt(buf, |buf| - |r| - |Close|, Close)
    ensures r == buf <==> forall j: nat :: !MatchAt(buf, j, Close)
  {
    match RFindFold(buf, Close)
    case None => buf
    case Some(k) =>
      var r := buf[k + |Close|..];
      forall j: nat ensures !MatchAt(r, j, Close) {
        MatchInSlice(buf, k + |Close|, |buf|, j, Close);
      }
      r
  }

  /**
   * The cut as the bridge writes it: the position of the last `</cmd>` is looked up in
   * `buf.lower()` and then used to slice `buf` itself (a Python slice past the end is empty).
   */
  function CutAsWritten(buf: string): (r: string)
    ensures |r| <= |buf| && r == buf[|buf| - |r|..]
  {
    match RFind(Lower(buf), "</cmd>")
    case None => buf
    case Some(k) => if k + |Close| <= |buf| then buf[k + |Close|..] else []
  }

  /** Without U+0130, `</cmd>` in the lower-cased text sits exactly where `</CMD>` does, ignoring case. */
  lemma LowerCloseAt(buf: string, j: nat)
    requires DottedCapitalI !in buf
    ensures OccursAt(Lower(buf), j, "</cmd>") <==> MatchAt(buf, j, Close)
  {
    var low := Lower(buf);
    LowerInPlace(buf);
    if j + 6 <= |buf| {
      forall i | 0 <= i < 6 ensures low[j + i] == "</cmd>"[i] <==> UpperChar(buf[j + i]) == UpperChar(Close[i]) {
        LowerMatchesFold(buf[j + i], "</cmd>"[i]);
      }
      assert OccursAt(low, j, "</cmd>") <==> forall i :: 0 <= i < 6 ==> low[j + i] == "</cmd>"[i];
    }
  }

  /** The two cuts agree on every buffer without U+0130. */
  lemma CutAsWrittenAgrees(buf: string)
    requires DottedCapitalI !in buf
    ensures CutAsWritten(buf) == CutAfterLastClose(buf)
  {
    var low := Lower(buf);
    LowerInPlace(buf);
    forall j: nat ensures OccursAt(low, j, "</cmd>") <==> MatchAt(buf, j, Close) {
      LowerCloseAt(buf, j);
    }
    var a := RFind(low, "</cmd>");
    var b := RFindFold(buf, Close);
    if a.Some? {
      assert b.Some? by { assert MatchAt(buf, a.value, Close); }
      assert a.value == b.value by {
        assert OccursAt(low, b.value, "</cmd>");
      }
    }
  }

  /**
   * One U+0130 in front of the text moves the cut as written one character further than
   * the intended cut, whenever something follows the last closer.
   */
  lemma CutAsWrittenOvershoots(t: string)
    requires DottedCapitalI !in t
    requires RFindFold(t, Close).Some? && RFindFold(t, Close).value + |Close| < |t|
    ensures CutAfterLastClose([DottedCapitalI] + t) != []
    ensures CutAsWritten([DottedCapitalI] + t) == CutAfterLastClose([DottedCapitalI] + t)[1..]
  {
    var k := RFindFold(t, Close).value;
    RFindFoldBehind([DottedCapitalI], t, Close);
    LowerLastClose(t);
    LowerAppend([DottedCapitalI], t);
    assert Lower([DottedCapitalI]) == ['i', '\U{307}'];
    RFindBehind(['i', '\U{307}'], Lower(t), "</cmd>");
  }

  /** Without U+0130 the last `</cmd>` of the lower-cased text is the last closer of the text. */
  lemma LowerLastClose(t: string)
    requires DottedCapitalI !in t && RFindFold(t, Close).Some?
    ensures RFind(Lower(t), "</cmd>") == RFindFold(t, Close)
  {
    var k := RFindFold(t, Close).value;
    LowerCloseAt(t, k);
    var m := RFind(Lower(t), "</cmd>").value;
    LowerCloseAt(t, m);
  }

  /**
   * A buffer on which the two cuts differ. A block is found (so the buffer is cut), the
   * intended cut keeps the pending `<CMD>`, and the cut as written leaves "CMD>", from
   * which that command can never be extracted.
   */
  lemma CutAsWrittenDropsOpener(b: string)
    requires b == "\U{130}<cmd></cmd><CMD>"
    ensures Blocks(b, 0) != []
    ensures CutAfterLastClose(b) == Open
    ensures CutAsWritten(b) == "CMD>"
  {
    var t := b[1..];
    assert b == [DottedCapitalI] + t;
    assert MatchAt(b, 6, Close);
    assert MatchAt(b, 1, Open);
    assert !NoPairFrom(b, 0, Open, Close);
    ExampleLastClose(t);
    CutAsWrittenOvershoots(t);
    RFindFoldBehind([DottedCapitalI], t, Close);
  }

  lemma ExampleLastClose(t: string)
    requires t == "<cmd></cmd><CMD>"
    ensures DottedCapitalI !in t
    ensures RFindFold(t, Close) == Some(5)
  {
    ExampleNoLaterClose(t);
  }

  lemma ExampleNoLaterClose(t: string)
    requires t == "<cmd></cmd><CMD>"
    ensures MatchAt(t, 5, Close)
    ensures forall j: nat :: 5 < j ==> !MatchAt(t, j, Close)
  {
    assert MatchAt(t, 5, Close);
    assert t[6] == '/' && t[7] == 'c' && t[8] == 'm' && t[9] == 'd' && t[10] == '>';
    MismatchAt(t, 6, Close, 6);
    MismatchAt(t, 7, Close, 7);
    MismatchAt(t, 8, Close, 8);
    MismatchAt(t, 9, Close, 9);
    MismatchAt(t, 10, Close, 10);
  }

  // ---------------------------------------------------------------------------
  // One pass of the receive loop

  /** The buffer left for the next pass, and the blocks taken out of it, in order. */
  datatype Reframed = Reframed(buffer: string, blocks: seq<string>)

  /** The text of each span. */
  function Texts(s: string, spans: seq<Span>): (r: seq<string>)
    requires forall k :: 0 <= k < |spans| ==> spans[k].start <= spans[k].end <= |s|
    ensures |r| == |spans|
    ensures forall k :: 0 <= k < |r| ==> r[k] == s[spans[k].start..spans[k].end]
  {
    seq(|spans|, k requires 0 <= k < |spans| => s[spans[k].start..spans[k].end])
  }

  /**
   * One pass over the buffer `buf` (previous remainder with the new data appended):
   * cap it, take out every complete block, and when there was one, cut the buffer back
   * to what follows the last closer.
   */
  function Reframe(buf: string): (r: Reframed)
    ensures |r.buffer| <= MaxBuffer
    ensures |r.buffer| <= |Capped(buf)| && r.buffer == Capped(buf)[|Capped(buf)| - |r.buffer|..]
    ensures r.blocks == [] ==> r.buffer == Capped(buf)
    ensures r.blocks != [] ==> forall j: nat :: !MatchAt(r.buffer, j, Close)
    ensures r.blocks != [] ==> r.buffer == CutAfterLastClose(Capped(buf))
  {
    var c := Capped(buf);
    var spans := Blocks(c, 0);
    if spans == [] then
      Reframed(c, [])
    else
      ScanSpansOrdered(c, 0, spans);
      Reframed(CutAfterLastClose(c), Texts(c, spans))
  }

  /**
   * `Reframe` cuts with the corrected `CutAfterLastClose`; as long as the capped buffer holds
   * no U+0130 this is exactly the buffer the bridge's own cut leaves.
   */
  lemma ReframeAsWrittenAgrees(buf: string)
    requires DottedCapitalI !in Capped(buf)
    ensures Reframe(buf).blocks != [] ==> Reframe(buf).buffer == CutAsWritten(Capped(buf))
  {
    CutAsWrittenAgrees(Capped(buf));
  }

  /** The blocks are the texts of the `findall` spans, each framed by `<CMD>` and `</CMD>`. */
  lemma ReframedBlocks(buf: string)
    ensures var c := Capped(buf); var spans := Blocks(c, 0);
      && |Reframe(buf).blocks| == |spans|
      && (forall k :: 0 <= k < |spans| ==> Reframe(buf).blocks[k] == c[spans[k].start..spans[k].end])
      && (forall k :: 0 <= k < |spans| ==>
            var b := Reframe(buf).blocks[k];
            |b| >= |Open| + |Close| && MatchAt(b, 0, Open) && MatchAt(b, |b| - |Close|, Close))
  {
    var c := Capped(buf);
    ScanTextsFramed(c, Blocks(c, 0));
    ReframedTexts(buf);
  }

  /** Every text of a scan starts with the opener and ends with the closer. */
  lemma ScanTextsFramed(c: string, spans: seq<Span>)
    requires IsScan(c, 0, spans)
    ensures forall k :: 0 <= k < |spans| ==> spans[k].start <= spans[k].end <= |c|
    ensures forall k :: 0 <= k < |spans| ==>
      var b := Texts(c, spans)[k];
      |b| >= |Open| + |Close| && MatchAt(b, 0, Open) && MatchAt(b, |b| - |Close|, Close)
  {
    ScanSpansOrdered(c, 0, spans);
    BlockTextsFramed(c, spans);
  }

  /** The blocks handed on are the texts of the scan's spans. */
  lemma ReframedTexts(buf: string)
    ensures var c := Capped(buf);
      (forall k :: 0 <= k < |Blocks(c, 0)| ==> Blocks(c, 0)[k].start <= Blocks(c, 0)[k].end <= |c|)
      && Reframe(buf).blocks == Texts(c, Blocks(c, 0))
  {
  }

  /** The text of a matched span starts with the opener and ends with the closer. */
  lemma BlockTextFramed(c: string, sp: Span)
    requires PairAt(c, sp, Open, Close)
    ensures var b := c[sp.start..sp.end];
      |b| >= |Open| + |Close| && MatchAt(b, 0, Open) && MatchAt(b, |b| - |Close|, Close)
  {
    var b := c[sp.start..sp.end];
    MatchInSlice(c, sp.start, sp.end, 0, Open);
    MatchInSlice(c, sp.start, sp.end, |b| - |Close|, Close);
  }

  lemma BlockTextsFramed(c: string, spans: seq<Span>)
    requires forall k :: 0 <= k < |spans| ==> spans[k].start <= spans[k].end <= |c|
    requires forall k :: 0 <= k < |spans| ==> PairAt(c, spans[k], Open, Close)
    ensures forall k :: 0 <= k < |spans| ==>
      var b := Texts(c, spans)[k];
      |b| >= |Open| + |Close| && MatchAt(b, 0, Open) && MatchAt(b, |b| - |Close|, Close)
  {
    forall k | 0 <= k < |spans|
      ensures var b := Texts(c, spans)[k];
        |b| >= |Open| + |Close| && MatchAt(b, 0, Open) && MatchAt(b, |b| - |Close|, Close)
    {
      BlockTextFramed(c, spans[k]);
    }
  }

  /** An opener and a closer never overlap. */
  lemma OpenCloseDisjoint(s: string, o: nat, k: nat)
    requires MatchAt(s, o, Open) && MatchAt(s, k, Close)
    ensures o + |Open| <= k || k + |Close| <= o
  {
    CloseHead(s, k);
    if o == k {
      OpenSecond(s, o);
    } else if o < k < o + |Open| {
      OpenTail(s, o, k);
    } else if k < o < k + |Close| {
      OpenHead(s, o);
      CloseTail(s, k, o);
    }
  }

  lemma OpenHead(s: string, o: nat)
    requires MatchAt(s, o, Open)
    ensures UpperChar(s[o]) == '<'
  {
    MatchChar(s, o, Open, o);
  }

  lemma OpenSecond(s: string, o: nat)
    requires MatchAt(s, o, Open)
    ensures UpperChar(s[o + 1]) == 'C'
  {
    MatchChar(s, o, Open, o + 1);
  }

  lemma OpenTail(s: string, o: nat, k: nat)
    requires MatchAt(s, o, Open) && o < k < o + |Open|
    ensures UpperChar(s[k]) != '<'
  {
    MatchChar(s, o, Open, k);
    assert Open[k - o] in "CMD>";
  }

  lemma CloseHead(s: string, k: nat)
    requires MatchAt(s, k, Close)
    ensures UpperChar(s[k]) == '<' && UpperChar(s[k + 1]) == '/'
  {
    MatchChar(s, k, Close, k);
    MatchChar(s, k, Close, k + 1);
  }

  lemma CloseTail(s: string, k: nat, o: nat)
    requires MatchAt(s, k, Close) && k < o < k + |Close|
    ensures UpperChar(s[o]) != '<'
  {
    MatchChar(s, k, Close, o);
    assert Close[o - k] in "/CMD>";
  }

  /**
   * Cutting after the last closer never throws away the opener of a block that is still
   * incomplete: every `<CMD>` after the end of the last match lies in the kept suffix.
   */
  lemma CutKeepsIncompleteBlock(c: string, spans: seq<Span>)
    requires IsScan(c, 0, spans)
    ensures forall o: nat :: ScanEnd(0, spans) <= o && MatchAt(c, o, Open) ==>
      |c| - |CutAfterLastClose(c)| <= o
  {
    var rest := CutAfterLastClose(c);
    ScanEndHasNoPair(c, 0, spans);
    if |rest| < |c| {
      var k := |c| - |rest| - |Close|;
      forall o: nat | ScanEnd(0, spans) <= o && MatchAt(c, o, Open) ensures k + |Close| <= o {
        OpenCloseDisjoint(c, o, k);
      }
    }
  }

  /** The receive loop never discards the start of a command it has not extracted yet. */
  lemma ReframeKeepsIncompleteBlock(buf: string)
    ensures var c := Capped(buf);
      forall o: nat :: ScanEnd(0, Blocks(c, 0)) <= o && MatchAt(c, o, Open) ==>
        |c| - |Reframe(buf).buffer| <= o
  {
    var c := Capped(buf);
    CutKeepsIncompleteBlock(c, Blocks(c, 0));
  }

  /** A second pass over the remaining buffer with no new data finds nothing and changes nothing. */
  lemma ReframeSettles(buf: string)
    ensures NoPairFrom(Reframe(buf).buffer, 0, Open, Close)
    ensures Reframe(Reframe(buf).buffer) == Reframed(Reframe(buf).buffer, [])
  {
    var r := Reframe(buf);
    if r.blocks == [] {
      assert Blocks(Capped(buf), 0) == [];
    } else {
      WithoutCloseNoPair(r.buffer);
    }
    ReframeWithoutPair(r.buffer);
  }

  /** A bounded buffer without a complete block is left as it is. */
  lemma ReframeWithoutPair(s: string)
    requires |s| <= MaxBuffer && NoPairFrom(s, 0, Open, Close)
    ensures Reframe(s) == Reframed(s, [])
  {
    assert Blocks(s, 0) == [];
  }

  /** Text without a closer holds no complete block. */
  lemma WithoutCloseNoPair(s: string)
    requires forall j: nat :: !MatchAt(s, j, Close)
    ensures NoPairFrom(s, 0, Open, Close)
  {
  }
}
