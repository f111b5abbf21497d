/**
 * The bridge's settings: built-in defaults, overridden by the first config.json found,
 * overridden in turn by environment variables. Each phase applies its settings one after
 * the other and stops at the first value that fails to convert, keeping what it had
 * applied so far.
 */
module Config {
  import opened Wrappers
  import opened Text

  // ---------------------------------------------------------------------------
  // Settings

  datatype Settings = Settings(
    host: string, port: int, udpIp: string, udpPort: int, myCall: string,
    logPath: string, ohcEnabled: bool, ohcBase: string, ohcKey: string)

  const Defaults: Settings := Settings(
    "192.168.1.43", 1100, "127.0.0.1", 12060, "",
    "C:\\N3FJP_Proxy\\bridge.log", false, "http://localhost:3000", "")

  /** The settings that fall back to their previous value when given blank are never blank. */
  predicate Sane(s: Settings) {
    && IsTrimmed(s.host) && s.host != ""
    && IsTrimmed(s.udpIp) && s.udpIp != ""
    && IsTrimmed(s.logPath) && s.logPath != ""
    && IsTrimmed(s.ohcBase) && s.ohcBase != ""
  }

  lemma DefaultsSane()
    ensures Sane(Defaults)
  {
  }

  // ---------------------------------------------------------------------------
  // Decimal integers

  function DigitChar(d: nat): char
    requires d < 10
  {
    ('0' as int + d) as char
  }

  predicate IsDigit(c: char) {
    '0' <= c <= '9'
  }

  /** The decimal digits of `n`, most significant first, without leading zeros. */
  function Digits(n: nat): (s: string)
    ensures |s| > 0 && forall i :: 0 <= i < |s| ==> IsDigit(s[i])
  {
    if n < 10 then [DigitChar(n)] else Digits(n / 10) + [DigitChar(n % 10)]
  }

  /** The value of a run of decimal digits. */
  function DigitsValue(s: string): (n: nat)
    requires forall i :: 0 <= i < |s| ==> IsDigit(s[i])
  {
    if s == [] then 0
    else
      assert IsDigit(s[|s| - 1]);
      10 * DigitsValue(s[..|s| - 1]) + (s[|s| - 1] as int - '0' as int)
  }

  /** Reading back the digits of a number gives the number. */
  lemma {:induction false} DigitsRoundTrip(n: nat)
    ensures DigitsValue(Digits(n)) == n
  {
    if n >= 10 {
      var s := Digits(n);
      DigitsRoundTrip(n / 10);
      assert s[..|s| - 1] == Digits(n / 10);
    }
  }

  /** Python's `str()` of an integer. */
  function DecimalText(i: int): (s: string)
    ensures |s| > 0 && IsTrimmed(s)
  {
    if i < 0 then "-" + Digits(-i) else Digits(i)
  }

  /**
   * Python's `int()` of a string: blanks around an optional sign and at least one decimal
   * digit; `None` stands for the ValueError it raises otherwise.
   */
  function ParseInt(text: string): (r: Option<int>)
    ensures r.Some? ==> !AllSpace(text)
  {
    var t := Trim(text);
    var neg := |t| > 0 && t[0] == '-';
    var body := if |t| > 0 && (t[0] == '-' || t[0] == '+') then t[1..] else t;
    if body != [] && forall i :: 0 <= i < |body| ==> IsDigit(body[i]) then
      var v: int := DigitsValue(body);
      Some(if neg then -v else v)
    else None
  }

  /** `int(str(i)) == i`. */
  lemma ParseDecimalText(i: int)
    ensures ParseInt(DecimalText(i)) == Some(i)
  {
    var s := DecimalText(i);
    TrimTrimmed(s);
    if i < 0 {
      assert s[1..] == Digits(-i);
      DigitsRoundTrip(-i);
    } else {
      DigitsRoundTrip(i);
    }
  }

  // ---------------------------------------------------------------------------
  // JSON values and Python's conversions

  /**
   * A value read from config.json. Floats carry the text Python's `str()` gives them;
   * arrays and objects carry that text and their number of elements.
   */
  datatype Json =
    | Null
    | Bool(b: bool)
    | Int(i: int)
    | Float(x: real, text: string)
    | Str(s: string)
    | Container(text: string, size: nat)

  /** Python's `str(v)`. */
  function StrOf(v: Json): (r: string)
    ensures v.Str? ==> r == v.s
    ensures v.Int? ==> ParseInt(r) == Some(v.i)
  {
    match v
    case Null => "None"
    case Bool(b) => if b then "True" else "False"
    case Int(i) => ParseDecimalText(i); DecimalText(i)
    case Float(_, text) => text
    case Str(s) => s
    case Container(text, _) => text
  }

  /** Python's `int(v)`; `None` stands for the ValueError or TypeError it raises. */
  function IntOf(v: Json): (r: Option<int>)
    ensures v.Int? ==> r == Some(v.i)
    ensures v.Null? || v.Container? ==> r.None?
  {
    match v
    case Null => None
    case Bool(b) => Some(if b then 1 else 0)
    case Int(i) => Some(i)
    case Float(x, _) => Some(if x >= 0.0 then x.Floor else -((-x).Floor))
    case Str(s) => ParseInt(s)
    case Container(_, _) => None
  }

  /** Python's `bool(v)`. */
  function Truthy(v: Json): (r: bool)
    ensures v.Null? ==> !r
    ensures v.Str? && v.s != "" ==> r
  {
    match v
    case Null => false
    case Bool(b) => b
    case Int(i) => i != 0
    case Float(x, _) => x != 0.0
    case Str(s) => s != ""
    case Container(_, size) => size != 0
  }

  /** A number written in config.json survives `int(str(...))` unchanged. */
  lemma IntOfStrOfInt(i: int)
    ensures IntOf(Str(StrOf(Int(i)))) == Some(i)
  {
    ParseDecimalText(i);
  }

  // ---------------------------------------------------------------------------
  // config.json

  /** What the search for config.json found. */
  datatype FileResult =
    | NoFile                          // neither location has one
    | Broken                          // unreadable, not JSON, or not a JSON object
    | Object(fields: map<string, Json>)

  /** `str(cfg.get(key, cur)).strip() or cur`. */
  function TextFrom(m: map<string, Json>, key: string, cur: string): (r: string)
    ensures IsTrimmed(cur) && cur != "" ==> IsTrimmed(r) && r != ""
    ensures key in m && !AllSpace(StrOf(m[key])) ==> r == Trim(StrOf(m[key]))
    ensures key in m && AllSpace(StrOf(m[key])) ==> r == cur
  {
    var t := Trim(if key in m then StrOf(m[key]) else cur);
    if t != "" then t else cur
  }

  /** `int(cfg.get(key, cur))`. */
  function IntFrom(m: map<string, Json>, key: string, cur: int): (r: Option<int>)
    ensures key !in m ==> r == Some(cur)
  {
    if key in m then IntOf(m[key]) else Some(cur)
  }

  /** The config.json assignments after the UDP port, none of which can fail. */
  function FileRest(s: Settings, m: map<string, Json>): (r: Settings)
    ensures Sane(s) ==> Sane(r)
    ensures r.host == s.host && r.port == s.port && r.udpIp == s.udpIp && r.udpPort == s.udpPort
  {
    s.(myCall := Trim(if "MYCALL_FALLBACK" in m then StrOf(m["MYCALL_FALLBACK"]) else s.myCall),
       logPath := TextFrom(m, "LOG_PATH", s.logPath),
       ohcEnabled := if "ENABLE_OHC_HTTP" in m then Truthy(m["ENABLE_OHC_HTTP"]) else s.ohcEnabled,
       ohcBase := TextFrom(m, "OHC_BASE_URL", s.ohcBase),
       ohcKey := TextFrom(m, "OHC_API_KEY", s.ohcKey))
  }

  /**
   * The assignments of `apply_config` for config.json, in the source's order. When the
   * port or the UDP port does not convert, the settings after it keep their value.
   * Applying config.json never blanks the host, UDP address, log path or OHC base.
   */
  function ApplyFile(d: Settings, f: FileResult): (r: Settings)
    ensures Sane(d) ==> Sane(r)
    ensures !f.Object? ==> r == d
    ensures f.Object? ==> r.host == TextFrom(f.fields, "N3FJP_HOST", d.host)
    ensures f.Object? && IntFrom(f.fields, "N3FJP_PORT", d.port).None? ==>
      r == d.(host := r.host)
    ensures f.Object? && IntFrom(f.fields, "N3FJP_PORT", d.port).Some? ==>
      && r.port == IntFrom(f.fields, "N3FJP_PORT", d.port).value
      && r.udpIp == TextFrom(f.fields, "UDP_DEST_IP", d.udpIp)
    ensures (f.Object? && IntFrom(f.fields, "N3FJP_PORT", d.port).Some?
             && IntFrom(f.fields, "UDP_DEST_PORT", d.udpPort).None?) ==>
      r == d.(host := r.host, port := r.port, udpIp := r.udpIp)
    ensures (f.Object? && IntFrom(f.fields, "N3FJP_PORT", d.port).Some?
             && IntFrom(f.fields, "UDP_DEST_PORT", d.udpPort).Some?) ==>
      var m := f.fields;
      && r.udpPort == IntFrom(m, "UDP_DEST_PORT", d.udpPort).value
      && r.myCall == Trim(if "MYCALL_FALLBACK" in m then StrOf(m["MYCALL_FALLBACK"]) else d.myCall)
      && r.logPath == TextFrom(m, "LOG_PATH", d.logPath)
      && r.ohcEnabled == (if "ENABLE_OHC_HTTP" in m then Truthy(m["ENABLE_OHC_HTTP"]) else d.ohcEnabled)
      && r.ohcBase == TextFrom(m, "OHC_BASE_URL", d.ohcBase)
      && r.ohcKey == TextFrom(m, "OHC_API_KEY", d.ohcKey)
  {
    match f
    case NoFile => d
    case Broken => d
    case Object(m) =>
      var s1 := d.(host := TextFrom(m, "N3FJP_HOST", d.host));
      match IntFrom(m, "N3FJP_PORT", s1.port)
      case None => s1
      case Some(port) =>
        var s2 := s1.(port := port, udpIp := TextFrom(m, "UDP_DEST_IP", s1.udpIp));
        match IntFrom(m, "UDP_DEST_PORT", s2.udpPort)
        case None => s2
        case Some(udpPort) => FileRest(s2.(udpPort := udpPort), m)
  }

  /**
   * A port that does not convert stops the file phase: the host read before it is kept,
   * everything after it keeps the value it had.
   */
  lemma ApplyFileStopsAtBadPort(d: Settings, m: map<string, Json>)
    requires "N3FJP_PORT" in m && IntOf(m["N3FJP_PORT"]).None?
    ensures ApplyFile(d, Object(m)) == d.(host := TextFrom(m, "N3FJP_HOST", d.host))
  {
  }

  /** The host from config.json: a non-blank value read as text wins over the default. */
  lemma FileHost(d: Settings, m: map<string, Json>)
    ensures "N3FJP_HOST" in m && !AllSpace(StrOf(m["N3FJP_HOST"])) ==>
      ApplyFile(d, Object(m)).host == Trim(StrOf(m["N3FJP_HOST"]))
    ensures "N3FJP_HOST" in m && AllSpace(StrOf(m["N3FJP_HOST"])) ==>
      ApplyFile(d, Object(m)).host == d.host
  {
  }

  // ---------------------------------------------------------------------------
  // Environment

  /** The environment: a variable that is unset is absent from the map. */
  type Env = map<string, string>

  /** `if os.getenv(key):` — set and not empty. */
  predicate IsSetNonEmpty(env: Env, key: string) {
    key in env && env[key] != ""
  }

  /** `os.getenv(key).strip() or cur`, under `if os.getenv(key):`. */
  function TextEnv(env: Env, key: string, cur: string): (r: string)
    ensures IsTrimmed(cur) && cur != "" ==> IsTrimmed(r) && r != ""
    ensures !IsSetNonEmpty(env, key) || AllSpace(env[key]) ==> r == cur
    ensures IsSetNonEmpty(env, key) && !AllSpace(env[key]) ==> r == Trim(env[key])
  {
    if IsSetNonEmpty(env, key) then
      var t := Trim(env[key]);
      if t != "" then t else cur
    else cur
  }

  /** `int(os.getenv(key))` under `if os.getenv(key):`. */
  function IntEnv(env: Env, key: string, cur: int): (r: Option<int>)
    ensures key !in env || env[key] == "" ==> r == Some(cur)
    ensures r.None? ==> key in env && ParseInt(env[key]).None?
  {
    if IsSetNonEmpty(env, key) then ParseInt(env[key]) else Some(cur)
  }

  /**
   * The environment overrides of `apply_config`, in the source's order. MYCALL_FALLBACK
   * is applied whenever it is set, even to a blank value; a port that does not convert
   * stops the phase.
   */
  function ApplyEnv(d: Settings, env: Env): (r: Settings)
    ensures Sane(d) ==> Sane(r)
    ensures r.host == TextEnv(env, "N3FJP_HOST", d.host)
    ensures r.ohcEnabled == d.ohcEnabled && r.ohcBase == d.ohcBase && r.ohcKey == d.ohcKey
    ensures IntEnv(env, "N3FJP_PORT", d.port).None? ==> r == d.(host := r.host)
    ensures IntEnv(env, "N3FJP_PORT", d.port).Some? ==>
      r.port == IntEnv(env, "N3FJP_PORT", d.port).value && r.udpIp == TextEnv(env, "UDP_DEST_IP", d.udpIp)
    ensures IntEnv(env, "N3FJP_PORT", d.port).Some? && IntEnv(env, "UDP_DEST_PORT", d.udpPort).None? ==>
      r == d.(host := r.host, port := r.port, udpIp := r.udpIp)
    ensures IntEnv(env, "N3FJP_PORT", d.port).Some? && IntEnv(env, "UDP_DEST_PORT", d.udpPort).Some? ==>
      && r.udpPort == IntEnv(env, "UDP_DEST_PORT", d.udpPort).value
      && r.myCall == (if "MYCALL_FALLBACK" in env then Trim(env["MYCALL_FALLBACK"]) else d.myCall)
      && r.logPath == TextEnv(env, "LOG_PATH", d.logPath)
  {
    var s1 := d.(host := TextEnv(env, "N3FJP_HOST", d.host));
    match IntEnv(env, "N3FJP_PORT", s1.port)
    case None => s1
    case Some(port) =>
      var s2 := s1.(port := port, udpIp := TextEnv(env, "UDP_DEST_IP", s1.udpIp));
      match IntEnv(env, "UDP_DEST_PORT", s2.udpPort)
      case None => s2
      case Some(udpPort) =>
        s2.(udpPort := udpPort,
            myCall := if "MYCALL_FALLBACK" in env then Trim(env["MYCALL_FALLBACK"]) else s2.myCall,
            logPath := TextEnv(env, "LOG_PATH", s2.logPath))
  }

  /** A port in the environment that does not convert stops the environment phase. */
  lemma ApplyEnvStopsAtBadPort(d: Settings, env: Env)
    requires IsSetNonEmpty(env, "N3FJP_PORT") && ParseInt(env["N3FJP_PORT"]).None?
    ensures ApplyEnv(d, env) == d.(host := TextEnv(env, "N3FJP_HOST", d.host))
  {
  }

  /**
   * MYCALL_FALLBACK set in the environment replaces the call even when it is blank,
   * provided both ports before it convert; unlike the other texts it has no fallback.
   */
  lemma EnvMyCall(d: Settings, env: Env)
    requires "MYCALL_FALLBACK" in env
    requires IntEnv(env, "N3FJP_PORT", d.port).Some? && IntEnv(env, "UDP_DEST_PORT", d.udpPort).Some?
    ensures ApplyEnv(d, env).myCall == Trim(env["MYCALL_FALLBACK"])
  {
  }

  /** The effective settings: defaults, then config.json, then the environment. */
  function Effective(f: FileResult, env: Env): (r: Settings)
    ensures Sane(r)
  {
    DefaultsSane();
    ApplyEnv(ApplyFile(Defaults, f), env)
  }

  /**
   * Precedence for the host: a non-blank N3FJP_HOST in the environment wins; otherwise a
   * non-blank one in config.json; otherwise the default.
   */
  lemma HostPrecedence(f: FileResult, env: Env)
    ensures IsSetNonEmpty(env, "N3FJP_HOST") && !AllSpace(env["N3FJP_HOST"]) ==>
      Effective(f, env).host == Trim(env["N3FJP_HOST"])
    ensures !(IsSetNonEmpty(env, "N3FJP_HOST") && !AllSpace(env["N3FJP_HOST"])) ==>
      Effective(f, env).host == ApplyFile(Defaults, f).host
  {
  }

  /**
   * Precedence for the N3FJP port: a non-empty N3FJP_PORT in the environment that reads as
   * an integer wins; an empty or unset one leaves the port config.json gave.
   */
  lemma PortPrecedence(f: FileResult, env: Env)
    ensures IsSetNonEmpty(env, "N3FJP_PORT") && ParseInt(env["N3FJP_PORT"]).Some? ==>
      Effective(f, env).port == ParseInt(env["N3FJP_PORT"]).value
    ensures !IsSetNonEmpty(env, "N3FJP_PORT") ==> Effective(f, env).port == ApplyFile(Defaults, f).port
  {
  }

  /** The OpenHamClock settings come from config.json alone. */
  lemma OhcFromFileOnly(f: FileResult, env: Env)
    ensures Effective(f, env).ohcEnabled == ApplyFile(Defaults, f).ohcEnabled
    ensures Effective(f, env).ohcBase == ApplyFile(Defaults, f).ohcBase
    ensures Effective(f, env).ohcKey == ApplyFile(Defaults, f).ohcKey
  {
  }
}
