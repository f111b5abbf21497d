/**
 * The optional OpenHamClock output: the address a logged QSO is posted to, the one
 * retry on another port, and the JSON object that is posted.
 */
module Ohc {
  import opened Wrappers
  import opened Text
  import opened Tables

  // ---------------------------------------------------------------------------
  // Where to post

  const QsoPath: string := "/api/n3fjp/qso"
  const DefaultBase: string := "http://localhost:3000"
  const FirstPort: string := ":3000"
  const FallbackPort: string := ":3001"

  /** The address for a base URL: trailing slashes dropped, then the QSO path. */
  function QsoUrl(base: string): (url: string)
    ensures |QsoPath| <= |url| && url[|url| - |QsoPath|..] == QsoPath
    ensures var b := url[..|url| - |QsoPath|];
      && b <= base
      && (b == [] || b[|b| - 1] != '/')
      && forall i :: |b| <= i < |base| ==> base[i] == '/'
  {
    var b := RStrip(base, '/');
    var url := b + QsoPath;
    assert url[..|url| - |QsoPath|] == b;
    assert url[|url| - |QsoPath|..] == QsoPath;
    url
  }

  /** A trailing slash on the base makes no difference. */
  lemma QsoUrlSlash(base: string)
    ensures QsoUrl(base + "/") == QsoUrl(base)
  {
    var s := base + "/";
    assert s[..|s| - 1] == base;
  }

  /** How the first attempt went. */
  datatype Outcome =
    | Delivered
    | HttpError(code: int)  // the server answered with an error status
    | Failed                // no answer: refused, unreachable, timed out

  /** The base of the retry: every ":3000" replaced by ":3001". */
  function FallbackBase(base: string): string {
    ReplaceAll(base, FirstPort, FallbackPort)
  }

  /**
   * The addresses `post_ohc_qso` tries, in order: the QSO address for `base`, and, when
   * that got no answer at all and `base` mentions port 3000, the same on port 3001.
   */
  function Attempts(base: string, first: Outcome): (urls: seq<string>)
    ensures 1 <= |urls| <= 2 && urls[0] == QsoUrl(base)
    ensures |urls| == 2 <==> first.Failed? && Contains(base, FirstPort)
    ensures |urls| == 2 ==> urls[1] == QsoUrl(FallbackBase(base))
  {
    if first.Failed? && Contains(base, FirstPort) then
      [QsoUrl(base), QsoUrl(FallbackBase(base))]
    else
      [QsoUrl(base)]
  }

  /** Every replaced piece starts with ':', so a prefix free of ':' was copied as it is. */
  lemma {:induction false} CopiedPrefix(t: string, k: nat)
    requires k <= |FallbackBase(t)|
    requires forall j :: 0 <= j < k ==> FallbackBase(t)[j] != ':'
    ensures k <= |t| && t[..k] == FallbackBase(t)[..k]
    decreases |t|
  {
    if k > 0 {
      var r := FallbackBase(t);
      if !OccursAt(t, 0, FirstPort) {
        assert t != [];
        var r' := FallbackBase(t[1..]);
        assert r == [t[0]] + r';
        forall j | 0 <= j < k - 1 ensures r'[j] != ':' {
          assert r'[j] == r[j + 1];
        }
        CopiedPrefix(t[1..], k - 1);
        assert t[..k] == [t[0]] + t[1..][..k - 1];
        assert r[..k] == [t[0]] + r'[..k - 1];
      } else {
        FallbackHead(t);
        assert false;
      }
    }
  }

  lemma FallbackHead(t: string)
    requires OccursAt(t, 0, FirstPort)
    ensures FallbackBase(t)[0] == ':'
  {
  }

  /**
   * The retry base no longer mentions port 3000: the replacement cannot create a new
   * ":3000", so the fallback is tried at most once.
   */
  lemma {:induction false} FallbackLeavesNoFirstPort(base: string)
    ensures !Contains(FallbackBase(base), FirstPort)
    decreases |base|
  {
    var r := FallbackBase(base);
    forall i | 0 <= i <= |r| ensures !OccursAt(r, i, FirstPort) {
      NoFirstPortAt(base, i);
    }
  }

  lemma {:induction false} NoFirstPortAt(base: string, i: nat)
    ensures !OccursAt(FallbackBase(base), i, FirstPort)
    decreases |base|
  {
    var r := FallbackBase(base);
    if OccursAt(r, i, FirstPort) {
      if OccursAt(base, 0, FirstPort) {
        var r' := FallbackBase(base[|FirstPort|..]);
        assert r == FallbackPort + r';
        if i >= |FallbackPort| {
          assert r'[i - |FallbackPort|..i - |FallbackPort| + |FirstPort|] == r[i..i + |FirstPort|];
          NoFirstPortAt(base[|FirstPort|..], i - |FallbackPort|);
          assert false;
        } else {
          FallbackPortFront(r');
          assert false;
        }
      } else if base == [] {
        assert false;
      } else {
        var r' := FallbackBase(base[1..]);
        assert r == [base[0]] + r';
        if i >= 1 {
          assert r'[i - 1..i - 1 + |FirstPort|] == r[i..i + |FirstPort|];
          NoFirstPortAt(base[1..], i - 1);
          assert false;
        } else {
          assert r[1..5] == "3000";
          forall j | 0 <= j < 4 ensures r'[j] != ':' {
            assert r'[j] == r[j + 1];
          }
          CopiedPrefix(base[1..], 4);
          assert false;
        }
      }
    }
  }

  /** No ":3000" starts inside a leading ":3001". */
  lemma FallbackPortFront(rest: string)
    ensures forall i: nat :: i < |FallbackPort| ==> !OccursAt(FallbackPort + rest, i, FirstPort)
  {
    var s := FallbackPort + rest;
    forall i: nat | i < |FallbackPort| ensures !OccursAt(s, i, FirstPort) {
      if i + |FirstPort| <= |s| {
        if i == 0 {
          assert s[i..i + |FirstPort|][4] == '1';
        } else {
          assert s[i..i + |FirstPort|][0] != ':';
        }
      }
    }
  }

  // ---------------------------------------------------------------------------
  // Building the request

  /** Where the first '/' or ':' of `url` lies, looking from position `i` on. */
  function FirstDelimiter(url: string, i: nat): (r: Option<nat>)
    requires i <= |url|
    ensures r.Some? ==> i <= r.value < |url| && (url[r.value] == '/' || url[r.value] == ':')
    ensures r.Some? ==> forall j :: i <= j < r.value ==> url[j] != '/' && url[j] != ':'
    ensures r.None? ==> forall j :: i <= j < |url| ==> url[j] != '/' && url[j] != ':'
    decreases |url| - i
  {
    if i == |url| then None
    else if url[i] == '/' || url[i] == ':' then Some(i)
    else FirstDelimiter(url, i + 1)
  }

  /**
   * Whether `urllib.request.Request` accepts `url`: it must open with a scheme, a
   * non-empty run free of '/' and ':' that ends in ':'. Otherwise it raises ValueError.
   */
  predicate HasScheme(url: string) {
    match FirstDelimiter(url, 0)
    case Some(k) => k > 0 && url[k] == ':'
    case None => false
  }

  /**
   * `post_ohc_qso` as written: the first request is built before the `try`, so an address
   * without a scheme raises out of it (`None`) instead of counting as a failed post.
   */
  function PostAsWritten(base: string, first: Outcome): (r: Option<seq<string>>)
    ensures r.None? <==> !HasScheme(QsoUrl(base))
    ensures r.Some? ==> r.value == Attempts(base, first)
  {
    if HasScheme(QsoUrl(base)) then Some(Attempts(base, first)) else None
  }

  /**
   * `post_ohc_qso` with the request built inside the `try`: an address without a scheme
   * is one more failed attempt, logged, and the post always returns to the bridge.
   */
  function Post(base: string, first: Outcome): (urls: seq<string>)
    ensures 1 <= |urls| <= 2 && urls[0] == QsoUrl(base)
    ensures !HasScheme(QsoUrl(base)) ==> (|urls| == 2 <==> Contains(base, FirstPort))
  {
    Attempts(base, if HasScheme(QsoUrl(base)) then first else Failed)
  }

  /** Wherever the bridge's post returns, the corrected post tries the same addresses. */
  lemma PostAgrees(base: string, first: Outcome)
    ensures PostAsWritten(base, first).Some? ==> PostAsWritten(base, first) == Some(Post(base, first))
    ensures PostAsWritten(base, first).None? ==> Post(base, first) == Attempts(base, Failed)
  {
  }

  /** A base address with neither '/' nor ':' gives a QSO address without a scheme. */
  lemma NoSchemeWithoutColon(base: string)
    requires forall i :: 0 <= i < |base| ==> base[i] != '/' && base[i] != ':'
    ensures !HasScheme(QsoUrl(base))
  {
    var u := QsoUrl(base);
    var b := u[..|u| - |QsoPath|];
    assert |b| == |base|;
    assert u[|base|] == '/' by {
      assert u[|u| - |QsoPath|..][0] == QsoPath[0];
    }
    assert forall j :: 0 <= j < |base| ==> u[j] == base[j] by {
      forall j | 0 <= j < |base| ensures u[j] == base[j] {
        assert u[j] == b[j];
      }
    }
  }

  /**
   * With `ohc.local` as base address the bridge's post raises, although a failed post
   * should never stop the bridge; the corrected post makes its one attempt and returns.
   */
  lemma PostAsWrittenRaises(base: string)
    requires base == "ohc.local"
    ensures PostAsWritten(base, Delivered) == None
    ensures Post(base, Delivered) == [QsoUrl(base)]
  {
    NoSchemeWithoutColon(base);
    assert !Contains(base, FirstPort) by {
      forall i | 0 <= i <= |base| ensures !OccursAt(base, i, FirstPort) {
        if i + |FirstPort| <= |base| {
          assert base[i..i + |FirstPort|][0] == base[i];
        }
      }
    }
  }

  // ---------------------------------------------------------------------------
  // What to post

  /** Python's `round()` on a number: to the nearest integer, ties to the even one. */
  function RoundHalfEven(x: real): (n: int)
    ensures -0.5 <= n as real - x <= 0.5
    ensures (n as real - x == 0.5 || x - n as real == 0.5) ==> n % 2 == 0
  {
    var f := x.Floor;
    var d := x - f as real;
    if d < 0.5 then f
    else if d > 0.5 then f + 1
    else if f % 2 == 0 then f
    else f + 1
  }

  /** The bridge's `mhz_to_khz`, on exact numbers. */
  function Khz(mhz: real): (k: int)
    ensures -0.5 <= k as real - mhz * 1000.0 <= 0.5
  {
    RoundHalfEven(mhz * 1000.0)
  }

  const Source: string := "n3fjp_to_timemapper_udp"

  /**
   * The JSON object posted for a logged QSO, one member per key; the optional keys are
   * `None` when the object leaves them out, and a `freq_khz` of `None` is written as null.
   * The band is in tenths of a megahertz.
   */
  datatype QsoPost = QsoPost(
    dxCall: string, bandMhz: nat, freqKhz: Option<int>, mode: string, source: string,
    deCall: Option<string>, dxGrid: Option<string>)

  /**
   * The object built in `main`: the QSO's call, band, frequency in kHz (null unless
   * positive) and normalised mode, the operator's call only when one is configured, and
   * the grid only when one was entered.
   */
  function Payload(call: string, band: nat, mhz: real, mode: string, myCall: string, grid: string)
    : (p: QsoPost)
    ensures p.dxCall == call && p.bandMhz == band && p.source == Source
    ensures p.freqKhz.None? <==> Khz(mhz) <= 0
    ensures p.freqKhz.Some? ==> p.freqKhz.value == Khz(mhz) && p.freqKhz.value > 0
    ensures p.mode == NormalizeMode(mode) && p.mode != ""
    ensures p.deCall.Some? <==> !AllSpace(myCall)
    ensures p.deCall.Some? ==> p.deCall.value == Upper(Trim(myCall)) && IsTrimmed(p.deCall.value)
    ensures p.deCall.Some? ==> p.deCall.value != ""
    ensures p.dxGrid.Some? <==> grid != ""
    ensures p.dxGrid.Some? ==> p.dxGrid.value == grid
  {
    var khz := Khz(mhz);
    var me := Trim(myCall);
    UpperKeepsTrimmed(me);
    QsoPost(
      call, band, if khz > 0 then Some(khz) else None, NormalizeMode(mode), Source,
      if me != "" then Some(Upper(me)) else None,
      if grid != "" then Some(grid) else None)
  }
}
