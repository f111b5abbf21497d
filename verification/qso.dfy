/**
 * The QSO-forwarding state machine of one N3FJP connection: the bridge remembers the
 * call and grid typed into N3FJP, arms a send when a QSO is entered, asks N3FJP for the
 * band, mode and frequency, and forwards the QSO once the answer arrives.
 */
module Qso {
  import opened Wrappers
  import opened Text
  import opened Framing
  import opened Fields
  import opened Tables
  import opened Ohc

  // ---------------------------------------------------------------------------
  // What goes out on the wire

  newtype Byte = b: int | 0 <= b < 256

  /** The ASCII characters of `s` as bytes; anything else is dropped (`errors="ignore"`). */
  function Ascii(s: string): (bytes: seq<Byte>)
    ensures |bytes| <= |s|
    ensures (forall i :: 0 <= i < |s| ==> s[i] < '\U{80}') ==>
      |bytes| == |s| && forall i :: 0 <= i < |s| ==> bytes[i] as int == s[i] as int
  {
    if s == [] then []
    else (if s[0] < '\U{80}' then [s[0] as int as Byte] else []) + Ascii(s[1..])
  }

  /** What the bytes of one character are: the character itself if it is ASCII, else nothing. */
  lemma AsciiChar(ch: char)
    ensures Ascii([ch]) == (if ch < '\U{80}' then [ch as int as Byte] else [])
  {
    assert [ch][1..] == [];
  }

  /** Encoding keeps the ASCII characters in order: it distributes over concatenation. */
  lemma {:induction false} AsciiAppend(a: string, b: string)
    ensures Ascii(a + b) == Ascii(a) + Ascii(b)
    decreases |a|
  {
    if a == [] {
      assert a + b == b;
    } else {
      assert (a + b)[0] == a[0];
      assert (a + b)[1..] == a[1..] + b;
      AsciiAppend(a[1..], b);
    }
  }

  /** What `send_cmd` writes for a command: its ASCII bytes, then CR LF. */
  function Wire(xml: string): (bytes: seq<Byte>)
    ensures |bytes| >= 2 && bytes[|bytes| - 2..] == [13, 10]
    ensures (forall i :: 0 <= i < |xml| ==> xml[i] < '\U{80}') ==>
      |bytes| == |xml| + 2 && forall i :: 0 <= i < |xml| ==> bytes[i] as int == xml[i] as int
  {
    var a := Ascii(xml);
    assert (a + [13, 10])[|a|..] == [13, 10];
    a + [13, 10]
  }

  const SubscribeRequest: string := "<CMD><SETUPDATESTATE><VALUE>TRUE</VALUE></CMD>"
  const ReadBmfRequest: string := "<CMD><READBMF></CMD>"

  // ---------------------------------------------------------------------------
  // State, events and actions

  /** What the QSO machine needs from the configuration. */
  datatype Settings = Settings(myCall: string, ohcEnabled: bool, ohcBase: string, ohcKey: string)

  /**
   * The per-connection state. The band is in tenths of a megahertz; the frequency is in
   * megahertz as N3FJP reported it.
   */
  datatype State = State(
    lastCall: string, lastMode: string, lastFreq: real, lastBand: Option<nat>,
    lastGrid: string, pendingSend: bool, pendingCall: string)

  /** The state right after connecting. */
  const Fresh: State := State("", "SSB", 0.0, None, "", false, "")

  /** A block as the machine sees it. */
  datatype Event =
    | SetupResponse(value: string)
    | Update(control: string, value: string)
    | Enter
    | ReadBmf(band: string, modeTest: string, mode: string, freq: string)
    | Ignored  // no command name, or one the bridge does not act on

  /** The contact packet sent for a logged QSO (its XML rendering aside). */
  datatype Contact = Contact(myCall: string, call: string, mode: string, band: nat, freq: real)

  datatype Action =
    | Send(xml: string)                               // a command to N3FJP, written by `Wire`
    | Emit(contact: Contact)                          // the contact packet over UDP
    | Post(base: string, apiKey: string, body: QsoPost)  // the OpenHamClock post

  datatype Stepped = Stepped(state: State, actions: seq<Action>)

  /** A tag name fixed by the bridge. */
  type Tag = t: string | IsTagName(t) witness "VALUE"

  const ValueTag: Tag := "VALUE"
  const ControlTag: Tag := "CONTROL"
  const BandTag: Tag := "BAND"
  const ModeTestTag: Tag := "MODETEST"
  const ModeTag: Tag := "MODE"
  const FreqTag: Tag := "FREQ"

  /** The command names the bridge acts on. */
  const SetupName: string := "SETUPDATESTATERESPONSE"
  const UpdateName: string := "UPDATERESPONSE"
  const EnterName: string := "ENTEREVENT"
  const ReadBmfName: string := "READBMFRESPONSE"

  /**
   * How a block is read: the command name of the stripped block decides the event, and
   * each event carries the fields that name needs, looked up in the stripped block. Any
   * other name, or none, is ignored.
   */
  function Classify(block: string): (e: Event)
    ensures var cmd := DetectCmdType(Trim(block));
      && (e.SetupResponse? <==> cmd == SetupName)
      && (e.Update? <==> cmd == UpdateName)
      && (e.Enter? <==> cmd == EnterName)
      && (e.ReadBmf? <==> cmd == ReadBmfName)
    ensures var b := Trim(block);
      && (e.SetupResponse? ==> e.value == GetTagValue(b, ValueTag))
      && (e.Update? ==> e.control == Upper(GetTagValue(b, ControlTag)) && e.value == GetTagValue(b, ValueTag))
      && (e.ReadBmf? ==> e.band == GetTagValue(b, BandTag) && e.modeTest == GetTagValue(b, ModeTestTag)
                         && e.mode == GetTagValue(b, ModeTag) && e.freq == GetTagValue(b, FreqTag))
    ensures e.Update? ==> IsUpper(e.control)
  {
    var b := Trim(block);
    var cmd := DetectCmdType(b);
    if cmd == SetupName then SetupResponse(GetTagValue(b, ValueTag))
    else if cmd == UpdateName then
      UpperIsUpper(GetTagValue(b, ControlTag));
      Update(Upper(GetTagValue(b, ControlTag)), GetTagValue(b, ValueTag))
    else if cmd == EnterName then Enter
    else if cmd == ReadBmfName then
      TrimTrimmed(GetTagValue(b, FreqTag));
      ReadBmf(GetTagValue(b, BandTag), GetTagValue(b, ModeTestTag), GetTagValue(b, ModeTag),
              Trim(GetTagValue(b, FreqTag)))
    else Ignored
  }

  /**
   * A block written as `<CMD>`, blanks, `<name>` and the rest (not ending in a blank) is
   * read by its name, whatever its case: the four names the bridge knows give their
   * events with the fields found in the block, and every other name is ignored.
   */
  lemma ClassifyWritten(ws: string, name: string, rest: string)
    requires AllSpace(ws)
    requires |name| > 0 && forall k :: 0 <= k < |name| ==> IsNameChar(name[k])
    requires rest == [] || !IsSpace(rest[|rest| - 1])
    ensures var b := Open + ws + "<" + name + ">" + rest; var e := Classify(b);
      && (e.SetupResponse? <==> Upper(name) == SetupName)
      && (e.Update? <==> Upper(name) == UpdateName)
      && (e.Enter? <==> Upper(name) == EnterName)
      && (e.ReadBmf? <==> Upper(name) == ReadBmfName)
      && (e.Ignored? <==> Upper(name) !in {SetupName, UpdateName, EnterName, ReadBmfName})
      && (e.SetupResponse? ==> e == SetupResponse(GetTagValue(b, ValueTag)))
      && (e.Update? ==> e == Update(Upper(GetTagValue(b, ControlTag)), GetTagValue(b, ValueTag)))
      && (e.ReadBmf? ==> e == ReadBmf(GetTagValue(b, BandTag), GetTagValue(b, ModeTestTag),
                                      GetTagValue(b, ModeTag), GetTagValue(b, FreqTag)))
  {
    var b := Open + ws + "<" + name + ">" + rest;
    assert b[0] == '<';
    assert IsTrimmed(b) by {
      if rest == [] {
        assert b[|b| - 1] == '>';
      } else {
        assert b[|b| - 1] == rest[|rest| - 1];
      }
    }
    TrimTrimmed(b);
    DetectWritten(ws, name, rest);
  }

  /** A block in which no `<CMD>`, blanks, `<name>` occurs anywhere is ignored. */
  lemma ClassifyWithoutCommand(block: string)
    requires forall i: nat, a: nat, e: nat :: !TagMatch(Trim(block), i, a, e)
    ensures Classify(block) == Ignored
  {
    DetectCmdTypeSearch(Trim(block));
  }

  // ---------------------------------------------------------------------------
  // One step

  /** An UPDATERESPONSE: remember a non-blank call (upper-cased) or grid. */
  function Remember(st: State, control: string, value: string): (r: State)
    ensures control == "TXTENTRYCALL" && !AllSpace(value) ==> r == st.(lastCall := Upper(Trim(value)))
    ensures control == "TXTENTRYGRID" && !AllSpace(value) ==> r == st.(lastGrid := Trim(value))
    ensures control !in {"TXTENTRYCALL", "TXTENTRYGRID"} || AllSpace(value) ==> r == st
  {
    var call := Upper(Trim(value));
    var st1 := if control == "TXTENTRYCALL" && call != "" then st.(lastCall := call) else st;
    var grid := Trim(value);
    if control == "TXTENTRYGRID" && grid != "" then st1.(lastGrid := grid) else st1
  }

  /** An ENTEREVENT: arm a send for the remembered call and forget band and frequency. */
  function Arm(st: State): (r: State)
    ensures r.pendingSend && r.pendingCall == st.lastCall
    ensures r.lastBand.None? && r.lastFreq == 0.0
    ensures r.lastMode == (if st.lastMode == "" then "SSB" else st.lastMode)
    ensures r.lastCall == st.lastCall && r.lastGrid == st.lastGrid
  {
    st.(pendingCall := st.lastCall, pendingSend := true, lastBand := None, lastFreq := 0.0,
        lastMode := if st.lastMode == "" then "SSB" else st.lastMode)
  }

  /** The frequency read from FREQ, or 0 when it does not parse. */
  function FreqOf(parse: string -> Option<real>, text: string): (f: real)
    ensures parse(text).None? ==> f == 0.0
    ensures parse(text).Some? ==> f == parse(text).value
  {
    parse(text).GetOr(0.0)
  }

  /** The mode read from a READBMFRESPONSE: MODETEST when present, MODE otherwise. */
  function ModeOf(modeTest: string, mode: string): (m: string)
    ensures IsTrimmed(m) && IsUpper(m)
    ensures modeTest != "" ==> m == ModeKey(modeTest)
    ensures modeTest == "" ==> m == ModeKey(mode)
  {
    ModeKey(if modeTest != "" then modeTest else mode)
  }

  /** Whether an armed answer carries everything a packet needs. */
  predicate Complete(st: State) {
    st.pendingCall != "" && st.lastBand.Some? && st.lastFreq != 0.0
  }

  /** The actions for a complete armed answer: the contact packet, then the post if enabled. */
  function Forward(cfg: Settings, st: State): (acts: seq<Action>)
    requires Complete(st)
    ensures |acts| == (if cfg.ohcEnabled then 2 else 1)
    ensures acts[0] == Emit(Contact(cfg.myCall, st.pendingCall, if st.lastMode != "" then st.lastMode else "SSB",
                                    st.lastBand.value, st.lastFreq))
    ensures cfg.ohcEnabled ==> acts[1].Post? && acts[1].base == cfg.ohcBase && acts[1].apiKey == cfg.ohcKey
    ensures cfg.ohcEnabled ==>
      acts[1].body == Payload(st.pendingCall, st.lastBand.value, st.lastFreq, st.lastMode, cfg.myCall, st.lastGrid)
  {
    var mode := if st.lastMode != "" then st.lastMode else "SSB";
    var contact := Contact(cfg.myCall, st.pendingCall, mode, st.lastBand.value, st.lastFreq);
    if cfg.ohcEnabled then
      [Emit(contact),
       Post(cfg.ohcBase, cfg.ohcKey,
            Payload(st.pendingCall, st.lastBand.value, st.lastFreq, st.lastMode, cfg.myCall, st.lastGrid))]
    else [Emit(contact)]
  }

  /** A READBMFRESPONSE: record band, mode and frequency, and forward an armed QSO. */
  function Answer(cfg: Settings, parse: string -> Option<real>, st: State,
                  band: string, modeTest: string, mode: string, freq: string): (r: Stepped)
  {
    var m := ModeOf(modeTest, mode);
    var st1 := st.(lastFreq := FreqOf(parse, freq),
                   lastMode := if m != "" then m else st.lastMode,
                   lastBand := BandToMhz(band));
    if !st.pendingSend then Stepped(st1, [])
    else
      var acts := if Complete(st1) then Forward(cfg, st1) else [];
      Stepped(st1.(pendingSend := false, pendingCall := "", lastGrid := ""), acts)
  }

  /** The handling of one block's event. */
  function Step(cfg: Settings, parse: string -> Option<real>, st: State, ev: Event): (r: Stepped)
  {
    match ev
    case SetupResponse(_) => Stepped(st, [])
    case Ignored => Stepped(st, [])
    case Update(control, value) => Stepped(Remember(st, control, value), [])
    case Enter => Stepped(Arm(st), [Send(ReadBmfRequest)])
    case ReadBmf(band, modeTest, mode, freq) => Answer(cfg, parse, st, band, modeTest, mode, freq)
  }

  // ---------------------------------------------------------------------------
  // Properties of one step

  /** The machine's invariant: a mode is always known, and nothing is pending unless armed. */
  predicate Inv(st: State) {
    st.lastMode != "" && (!st.pendingSend ==> st.pendingCall == "")
  }

  lemma FreshInv()
    ensures Inv(Fresh)
  {
  }

  /** Every step keeps the invariant. */
  lemma StepKeepsInv(cfg: Settings, parse: string -> Option<real>, st: State, ev: Event)
    requires Inv(st)
    ensures Inv(Step(cfg, parse, st, ev).state)
  {
  }

  /** The contact packets among the actions. */
  function Packets(acts: seq<Action>): (ps: seq<Contact>)
    ensures |ps| <= |acts|
    ensures forall c :: c in ps <==> Emit(c) in acts
  {
    if acts == [] then []
    else (if acts[0].Emit? then [acts[0].contact] else []) + Packets(acts[1..])
  }

  lemma {:induction false} PacketsAppend(a: seq<Action>, b: seq<Action>)
    ensures Packets(a + b) == Packets(a) + Packets(b)
  {
    if a == [] {
      assert a + b == b;
    } else {
      assert (a + b)[1..] == a[1..] + b;
      PacketsAppend(a[1..], b);
    }
  }

  /** The commands sent to N3FJP among the actions. */
  function Requests(acts: seq<Action>): (rs: seq<string>)
    ensures |rs| <= |acts|
    ensures forall x :: x in rs <==> Send(x) in acts
  {
    if acts == [] then []
    else (if acts[0].Send? then [acts[0].xml] else []) + Requests(acts[1..])
  }

  lemma {:induction false} RequestsAppend(a: seq<Action>, b: seq<Action>)
    ensures Requests(a + b) == Requests(a) + Requests(b)
  {
    if a == [] {
      assert a + b == b;
    } else {
      assert (a + b)[1..] == a[1..] + b;
      RequestsAppend(a[1..], b);
    }
  }

  /** Only an ENTEREVENT sends a command to N3FJP, and that command is READBMF. */
  lemma StepRequests(cfg: Settings, parse: string -> Option<real>, st: State, ev: Event)
    ensures Requests(Step(cfg, parse, st, ev).actions) == (if ev.Enter? then [ReadBmfRequest] else [])
  {
    var acts := Step(cfg, parse, st, ev).actions;
    if ev.Enter? {
      assert acts == [Send(ReadBmfRequest)];
    } else {
      assert forall a :: a in acts ==> !a.Send?;
    }
  }

  /**
   * The packet a step should send, stated from the step's inputs: one for the answer to an
   * armed QSO whose call is known, whose band is in the table and whose frequency parsed
   * to something other than 0. It carries the armed call, the answer's band and frequency,
   * and the answer's mode or, when the answer has none, the previous one.
   */
  function Expected(cfg: Settings, parse: string -> Option<real>, st: State, ev: Event): Option<Contact> {
    if ev.ReadBmf? && st.pendingSend && st.pendingCall != "" && BandToMhz(ev.band).Some?
       && FreqOf(parse, ev.freq) != 0.0
    then
      var m := ModeOf(ev.modeTest, ev.mode);
      Some(Contact(cfg.myCall, st.pendingCall, if m != "" then m else st.lastMode,
                   BandToMhz(ev.band).value, FreqOf(parse, ev.freq)))
    else None
  }

  /** Forwarding sends exactly one packet, whether or not it also posts. */
  lemma ForwardPackets(cfg: Settings, st: State)
    requires Complete(st)
    ensures Packets(Forward(cfg, st)) == [Forward(cfg, st)[0].contact]
  {
    var acts := Forward(cfg, st);
    assert acts == [acts[0]] + acts[1..];
    PacketsAppend([acts[0]], acts[1..]);
    assert Packets(acts[1..]) == [];
  }

  lemma AnswerPackets(cfg: Settings, parse: string -> Option<real>, st: State,
                      band: string, modeTest: string, mode: string, freq: string)
    requires Inv(st)
    ensures var e := Expected(cfg, parse, st, ReadBmf(band, modeTest, mode, freq));
      Packets(Answer(cfg, parse, st, band, modeTest, mode, freq).actions)
        == (if e.Some? then [e.value] else [])
  {
    var m := ModeOf(modeTest, mode);
    var st1 := st.(lastFreq := FreqOf(parse, freq),
                   lastMode := if m != "" then m else st.lastMode,
                   lastBand := BandToMhz(band));
    if st.pendingSend && Complete(st1) {
      ForwardPackets(cfg, st1);
    }
  }

  /**
   * A step sends exactly the packet `Expected` describes: at most one, and only as the
   * answer to an armed QSO.
   */
  lemma StepPackets(cfg: Settings, parse: string -> Option<real>, st: State, ev: Event)
    requires Inv(st)
    ensures var e := Expected(cfg, parse, st, ev);
      Packets(Step(cfg, parse, st, ev).actions) == (if e.Some? then [e.value] else [])
  {
    match ev
    case ReadBmf(band, modeTest, mode, freq) =>
      AnswerPackets(cfg, parse, st, band, modeTest, mode, freq);
    case Enter =>
      assert Packets([Send(ReadBmfRequest)]) == [];
    case _ =>
  }

  /**
   * Answering an armed QSO always disarms it and forgets the call and the grid, whether
   * or not a packet went out; an answer with nothing armed only records what it reports.
   */
  lemma AnswerDisarms(cfg: Settings, parse: string -> Option<real>, st: State, ev: Event)
    requires ev.ReadBmf?
    ensures var r := Step(cfg, parse, st, ev).state;
      && !r.pendingSend && r.pendingCall == (if st.pendingSend then "" else st.pendingCall)
      && r.lastGrid == (if st.pendingSend then "" else st.lastGrid)
      && r.lastCall == st.lastCall
      && r.lastBand == BandToMhz(ev.band) && r.lastFreq == FreqOf(parse, ev.freq)
  {
  }

  /** An ENTEREVENT arms the remembered call and asks N3FJP for band, mode and frequency. */
  lemma EnterArms(cfg: Settings, parse: string -> Option<real>, st: State)
    requires Inv(st)
    ensures var r := Step(cfg, parse, st, Enter);
      && r.state == st.(pendingSend := true, pendingCall := st.lastCall, lastBand := None, lastFreq := 0.0)
      && r.actions == [Send(ReadBmfRequest)]
  {
  }

  /** A blank MODETEST falls back to MODE, and a blank mode keeps the previous one. */
  lemma AnswerMode(cfg: Settings, parse: string -> Option<real>, st: State, ev: Event)
    requires ev.ReadBmf? && IsTrimmed(ev.modeTest)
    ensures var r := Step(cfg, parse, st, ev).state;
      && (ev.modeTest != "" ==> r.lastMode == Upper(ev.modeTest))
      && (ev.modeTest == "" && !AllSpace(ev.mode) ==> r.lastMode == Upper(Trim(ev.mode)))
      && (ev.modeTest == "" && AllSpace(ev.mode) ==> r.lastMode == st.lastMode)
  {
    TrimTrimmed(ev.modeTest);
  }

  // ---------------------------------------------------------------------------
  // Runs of events

  /** The machine over a sequence of events: the final state and all actions, in order. */
  function Run(cfg: Settings, parse: string -> Option<real>, st: State, evs: seq<Event>): (r: Stepped)
    decreases |evs|
  {
    if evs == [] then Stepped(st, [])
    else
      var s1 := Step(cfg, parse, st, evs[0]);
      var rest := Run(cfg, parse, s1.state, evs[1..]);
      Stepped(rest.state, s1.actions + rest.actions)
  }

  function Enters(evs: seq<Event>): (n: nat)
    ensures n <= |evs|
  {
    if evs == [] then 0 else (if evs[0].Enter? then 1 else 0) + Enters(evs[1..])
  }

  /** Runs keep the invariant. */
  lemma {:induction false} RunKeepsInv(cfg: Settings, parse: string -> Option<real>, st: State, evs: seq<Event>)
    requires Inv(st)
    ensures Inv(Run(cfg, parse, st, evs).state)
    decreases |evs|
  {
    if evs != [] {
      StepKeepsInv(cfg, parse, st, evs[0]);
      RunKeepsInv(cfg, parse, Step(cfg, parse, st, evs[0]).state, evs[1..]);
    }
  }

  /**
   * At most one packet per logged QSO: over any run, the packets sent plus a send still
   * armed at the end never exceed the ENTEREVENTs seen plus a send armed at the start.
   */
  lemma {:induction false} PacketsPerEnter(cfg: Settings, parse: string -> Option<real>, st: State, evs: seq<Event>)
    requires Inv(st)
    ensures var r := Run(cfg, parse, st, evs);
      |Packets(r.actions)| + (if r.state.pendingSend then 1 else 0)
        <= Enters(evs) + (if st.pendingSend then 1 else 0)
    decreases |evs|
  {
    if evs != [] {
      var s1 := Step(cfg, parse, st, evs[0]);
      StepPackets(cfg, parse, st, evs[0]);
      StepKeepsInv(cfg, parse, st, evs[0]);
      PacketsPerEnter(cfg, parse, s1.state, evs[1..]);
      var rest := Run(cfg, parse, s1.state, evs[1..]);
      PacketsAppend(s1.actions, rest.actions);
      if evs[0].ReadBmf? {
        AnswerDisarms(cfg, parse, st, evs[0]);
      }
    }
  }

  /** Over any run, the commands sent to N3FJP are one READBMF per ENTEREVENT. */
  lemma {:induction false} RunRequests(cfg: Settings, parse: string -> Option<real>, st: State, evs: seq<Event>)
    ensures var rs := Requests(Run(cfg, parse, st, evs).actions);
      |rs| == Enters(evs) && forall x :: x in rs ==> x == ReadBmfRequest
    decreases |evs|
  {
    if evs != [] {
      var s1 := Step(cfg, parse, st, evs[0]);
      StepRequests(cfg, parse, st, evs[0]);
      RunRequests(cfg, parse, s1.state, evs[1..]);
      var rest := Run(cfg, parse, s1.state, evs[1..]);
      RequestsAppend(s1.actions, rest.actions);
    }
  }

  /**
   * When OpenHamClock is enabled, the step that sends a packet also posts, and the post
   * describes the same contact: its call, band, frequency and mode (normalised) are the
   * packet's, with the grid remembered before the answer.
   */
  lemma StepPosts(cfg: Settings, parse: string -> Option<real>, st: State, ev: Event)
    requires Inv(st) && cfg.ohcEnabled && Expected(cfg, parse, st, ev).Some?
    ensures var acts := Step(cfg, parse, st, ev).actions; var c := Expected(cfg, parse, st, ev).value;
      && |acts| == 2 && acts[0] == Emit(c)
      && acts[1] == Post(cfg.ohcBase, cfg.ohcKey, Payload(c.call, c.band, c.freq, c.mode, cfg.myCall, st.lastGrid))
  {
  }

  /** From a fresh connection there are never more packets than ENTEREVENTs. */
  lemma FreshPacketsPerEnter(cfg: Settings, parse: string -> Option<real>, evs: seq<Event>)
    ensures |Packets(Run(cfg, parse, Fresh, evs).actions)| <= Enters(evs)
  {
    PacketsPerEnter(cfg, parse, Fresh, evs);
  }

  /**
   * A logged QSO is forwarded exactly once: after an ENTEREVENT with a remembered call,
   * an answer with a known band and a non-zero frequency sends one packet for that call.
   */
  lemma LoggedQsoSendsOne(cfg: Settings, parse: string -> Option<real>, st: State,
                          band: string, modeTest: string, mode: string, freq: string)
    requires Inv(st) && st.lastCall != ""
    requires BandToMhz(band).Some? && FreqOf(parse, freq) != 0.0
    ensures var ps := Packets(Run(cfg, parse, st, [Enter, ReadBmf(band, modeTest, mode, freq)]).actions);
      |ps| == 1 && ps[0].call == st.lastCall && ps[0].band == BandToMhz(band).value
  {
    var ev := ReadBmf(band, modeTest, mode, freq);
    var s1 := Step(cfg, parse, st, Enter);
    var s2 := Step(cfg, parse, s1.state, ev);
    RunPair(cfg, parse, st, Enter, ev);
    EnterArms(cfg, parse, st);
    StepPackets(cfg, parse, st, Enter);
    StepPackets(cfg, parse, s1.state, ev);
    PacketsAppend(s1.actions, s2.actions);
  }

  /** A run of two events is the two steps one after the other. */
  lemma RunPair(cfg: Settings, parse: string -> Option<real>, st: State, e1: Event, e2: Event)
    ensures var s1 := Step(cfg, parse, st, e1);
      var s2 := Step(cfg, parse, s1.state, e2);
      Run(cfg, parse, st, [e1, e2]) == Stepped(s2.state, s1.actions + s2.actions)
  {
    var evs := [e1, e2];
    var s1 := Step(cfg, parse, st, e1);
    var s2 := Step(cfg, parse, s1.state, e2);
    assert evs[1..] == [e2];
    assert [e2][1..] == [];
    assert Run(cfg, parse, s1.state, [e2]) == Stepped(s2.state, s2.actions + []);
    assert s2.actions + [] == s2.actions;
  }
}
