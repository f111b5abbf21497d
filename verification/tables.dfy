/**
 * The bridge's two lookup tables: mode names normalised for downstream consumers, and
 * the band names N3FJP reports mapped to a representative frequency.
 */
module Tables {
  import opened Wrappers
  import opened Text

  // ---------------------------------------------------------------------------
  // Modes

  /** The phone modes N3FJP may report, all forwarded as SSB. */
  const PhoneModes: set<string> := {"PH", "USB", "LSB", "SSB"}

  /** The mode as the bridge compares it: stripped and upper-cased. */
  function ModeKey(mode: string): (k: string)
    ensures IsTrimmed(k) && IsUpper(k)
  {
    UpperKeepsTrimmed(Trim(mode));
    UpperIsUpper(Trim(mode));
    Upper(Trim(mode))
  }

  /** The bridge's `normalize_mode`. */
  function NormalizeMode(mode: string): (r: string)
    ensures r != ""
    ensures IsTrimmed(r) && IsUpper(r)
  {
    var m := ModeKey(mode);
    if m in PhoneModes then "SSB"
    else if m == "DI" then "DIGI"
    else if m == "" then "UNKNOWN"
    else m
  }

  /** A stripped upper-case mode is its own key. */
  lemma ModeKeyOfUpper(k: string)
    requires IsTrimmed(k) && IsUpper(k)
    ensures ModeKey(k) == k
  {
    TrimTrimmed(k);
    UpperOfUpper(k);
  }

  /** The key of a key is itself: stripping and upper-casing settle after one round. */
  lemma ModeKeyOfKey(mode: string)
    ensures ModeKey(ModeKey(mode)) == ModeKey(mode)
  {
    ModeKeyOfUpper(ModeKey(mode));
  }

  /**
   * What each mode becomes: the phone modes and only they give "SSB" (besides "SSB"
   * itself), "DI" gives "DIGI", a blank mode gives "UNKNOWN", and any other mode is
   * passed on stripped and upper-cased.
   */
  lemma NormalizeModeClasses(mode: string)
    ensures NormalizeMode(mode) == "SSB" <==> ModeKey(mode) in PhoneModes
    ensures NormalizeMode(mode) == "DIGI" <==> ModeKey(mode) in {"DI", "DIGI"}
    ensures NormalizeMode(mode) == "UNKNOWN" <==> ModeKey(mode) in {"", "UNKNOWN"}
    ensures NormalizeMode(mode) !in {"SSB", "DIGI", "UNKNOWN"} ==> NormalizeMode(mode) == ModeKey(mode)
  {
  }

  /** Case and surrounding blanks do not matter. */
  lemma NormalizeModeOfKey(mode: string)
    ensures NormalizeMode(ModeKey(mode)) == NormalizeMode(mode)
  {
    ModeKeyOfKey(mode);
  }

  /** Normalising a normalised mode changes nothing. */
  lemma NormalizeModeIdempotent(mode: string)
    ensures NormalizeMode(NormalizeMode(mode)) == NormalizeMode(mode)
  {
    ModeKeyOfUpper(NormalizeMode(mode));
  }

  // ---------------------------------------------------------------------------
  // Bands

  /**
   * The band table of `band_to_mhz`, in tenths of a megahertz, so that 14.0 MHz is 140.
   * Every value listed is a multiple of 0.1 MHz.
   */
  const BandTable: map<string, nat> := map[
    "160" := 18, "80" := 35, "60" := 53, "40" := 70, "30" := 101, "20" := 140,
    "17" := 181, "15" := 210, "12" := 249, "10" := 280, "6" := 500, "2" := 1440
  ]

  /** The key looked up: the band stripped, upper-cased, and with every "M" removed. */
  function BandKey(band: string): (k: string)
  {
    ReplaceAll(Upper(Trim(band)), "M", "")
  }

  /** The bridge's `band_to_mhz`, in tenths of a megahertz; `None` for an unknown band. */
  function BandToMhz(band: string): (r: Option<nat>)
    ensures r.Some? <==> BandKey(band) in BandTable
    ensures r.Some? ==> r.value > 0 && r.value in BandTable.Values
  {
    var k := BandKey(band);
    if k in BandTable then Some(BandTable[k]) else None
  }

  /** Removing a one-character pattern works piece by piece. */
  lemma {:induction false} ReplaceCharAppend(a: string, b: string, pat: string, repl: string)
    requires |pat| == 1
    ensures ReplaceAll(a + b, pat, repl) == ReplaceAll(a, pat, repl) + ReplaceAll(b, pat, repl)
    decreases |a|
  {
    if a == [] {
      assert a + b == b;
    } else {
      assert (a + b)[1..] == a[1..] + b;
      assert (a + b)[..1] == a[..1];
      ReplaceCharAppend(a[1..], b, pat, repl);
    }
  }

  /** No "M" is left in a band key. */
  lemma {:induction false} ReplaceRemoves(s: string, c: char)
    ensures c !in ReplaceAll(s, [c], "")
    decreases |s|
  {
    if s != [] {
      ReplaceRemoves(s[1..], c);
    }
  }

  /** Text without the pattern's character is left as it is. */
  lemma {:induction false} ReplaceAbsent(s: string, c: char, repl: string)
    requires c !in s
    ensures ReplaceAll(s, [c], repl) == s
    decreases |s|
  {
    if s != [] {
      assert s[..1][0] == s[0];
      ReplaceAbsent(s[1..], c, repl);
      assert [s[0]] + s[1..] == s;
    }
  }

  /** A band key holds no "M". */
  lemma BandKeyShape(band: string)
    ensures 'M' !in BandKey(band)
  {
    ReplaceRemoves(Upper(Trim(band)), 'M');
  }

  /** Every key of the table is its own band key, so each listed band is found. */
  lemma BandTableKeys(k: string)
    requires k in BandTable
    ensures BandToMhz(k) == Some(BandTable[k])
  {
    assert IsTrimmed(k) && IsUpper(k) && 'M' !in k;
    TrimTrimmed(k);
    UpperOfUpper(k);
    ReplaceAbsent(k, 'M', "");
  }

  /** Blanks around the band do not change the lookup. */
  lemma BandIgnoresBlanks(ws: string, band: string, ws2: string)
    requires AllSpace(ws) && AllSpace(ws2) && IsTrimmed(band)
    ensures BandToMhz(ws + band + ws2) == BandToMhz(band)
  {
    TrimPadded(ws, band, ws2);
    TrimTrimmed(band);
  }

  /** An "m" or "M" suffix does not change the lookup: "20", "20m" and "20M" agree. */
  lemma BandIgnoresMeterSuffix(band: string, m: char)
    requires IsTrimmed(band) && (m == 'm' || m == 'M')
    ensures BandToMhz(band + [m]) == BandToMhz(band)
  {
    var b := band + [m];
    assert IsTrimmed(b) by {
      if band != [] {
        assert b[0] == band[0];
      }
    }
    BandKeyOfTrimmed(b);
    BandKeyOfTrimmed(band);
    UpperWithM(band, m);
    ReplaceCharAppend(Upper(band), "M", "M", "");
    RemoveM();
    var key := ReplaceAll(Upper(band), "M", "");
    assert BandKey(b) == key + "";
    assert key + "" == key;
  }

  lemma BandKeyOfTrimmed(b: string)
    requires IsTrimmed(b)
    ensures BandKey(b) == ReplaceAll(Upper(b), "M", "")
  {
    TrimTrimmed(b);
  }

  lemma UpperWithM(band: string, m: char)
    requires m == 'm' || m == 'M'
    ensures Upper(band + [m]) == Upper(band) + "M"
  {
    UpperAppend(band, [m]);
  }

  lemma RemoveM()
    ensures ReplaceAll("M", "M", "") == ""
  {
    assert "M"[..1] == "M";
    assert "M"[1..] == "";
  }
}
