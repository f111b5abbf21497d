/**
 * One connection to N3FJP: subscribe on connect, then, for every chunk of text received,
 * re-frame the buffer, classify each complete block and step the QSO state machine.
 *
 * The loop is written for any classifier and step function (a `Machine`), so that what it
 * does with blocks is proved once; `Bridge` is the bridge's own machine.
 */
module Session {
  import opened Wrappers
  import opened Framing
  import opened Qso
  import C = Config

  /** How blocks become events, and how an event changes the state. */
  datatype Machine = Machine(classify: string -> Event, step: (State, Event) -> Stepped)

  /** The bridge's machine: `Qso.Classify` and `Qso.Step` under the given settings. */
  function Bridge(cfg: Settings, parse: string -> Option<real>): (m: Machine)
    ensures forall block :: m.classify(block) == Classify(block)
    ensures forall st, ev :: m.step(st, ev) == Step(cfg, parse, st, ev)
  {
    Machine(Classify, (st, ev) => Step(cfg, parse, st, ev))
  }

  /** The QSO settings that the effective configuration gives the state machine. */
  function QsoSettings(c: C.Settings): (s: Settings)
    ensures s.myCall == c.myCall && s.ohcEnabled == c.ohcEnabled
    ensures s.ohcBase == c.ohcBase && s.ohcKey == c.ohcKey
  {
    Settings(c.myCall, c.ohcEnabled, c.ohcBase, c.ohcKey)
  }

  /** The state the bridge keeps for one connection: the unframed text and the QSO state. */
  datatype Conn = Conn(buffer: string, qso: State)

  /** Just connected: nothing buffered, nothing remembered. */
  const Connected: Conn := Conn("", Fresh)

  /** What one or more receives did: the connection after them, the events, the actions. */
  datatype Received = Received(conn: Conn, events: seq<Event>, actions: seq<Action>)

  /** The machine stepped through a run of events. */
  function RunWith(step: (State, Event) -> Stepped, st: State, evs: seq<Event>): (r: Stepped)
    decreases |evs|
  {
    if evs == [] then Stepped(st, [])
    else
      var s1 := step(st, evs[0]);
      var rest := RunWith(step, s1.state, evs[1..]);
      Stepped(rest.state, s1.actions + rest.actions)
  }

  /** The events of a run of complete blocks, one per block. */
  function Events(m: Machine, blocks: seq<string>): (evs: seq<Event>)
    ensures |evs| == |blocks|
    ensures forall i :: 0 <= i < |blocks| ==> evs[i] == m.classify(blocks[i])
  {
    seq(|blocks|, i requires 0 <= i < |blocks| => m.classify(blocks[i]))
  }

  /**
   * One pass of the receive loop, `data` being the text just received ("" when the read
   * timed out): the buffer is re-framed, and each block it held is handled in order.
   */
  function Receive(m: Machine, c: Conn, data: string): (r: Received)
    ensures |r.conn.buffer| <= MaxBuffer
    ensures r.events == Events(m, Reframe(c.buffer + data).blocks)
    ensures r.conn.buffer == Reframe(c.buffer + data).buffer
    ensures RunWith(m.step, c.qso, r.events) == Stepped(r.conn.qso, r.actions)
  {
    var rf := Reframe(c.buffer + data);
    var evs := Events(m, rf.blocks);
    var run := RunWith(m.step, c.qso, evs);
    Received(Conn(rf.buffer, run.state), evs, run.actions)
  }

  /**
   * A run of receives on one connection. The buffer stays within 300000 characters, and
   * the connection's state and actions are those of the machine run over the events of
   * every receive, in order. Which events there are can depend on how the text was split:
   * a receive that pushes the buffer over 300000 characters drops what came before.
   */
  function Feed(m: Machine, c: Conn, chunks: seq<string>): (r: Received)
    ensures |c.buffer| <= MaxBuffer ==> |r.conn.buffer| <= MaxBuffer
    ensures RunWith(m.step, c.qso, r.events) == Stepped(r.conn.qso, r.actions)
    ensures chunks == [] ==> r == Received(c, [], [])
    decreases |chunks|
  {
    if chunks == [] then Received(c, [], [])
    else
      var r1 := Receive(m, c, chunks[0]);
      var rest := Feed(m, r1.conn, chunks[1..]);
      RunWithAppend(m.step, c.qso, r1.events, rest.events);
      Received(rest.conn, r1.events + rest.events, r1.actions + rest.actions)
  }

  /**
   * A whole connection: the subscription request goes out first, then come the actions of
   * every chunk received.
   */
  function Session(m: Machine, chunks: seq<string>): (acts: seq<Action>)
    ensures |acts| >= 1 && acts[0] == Send(SubscribeRequest)
    ensures acts[1..] == Feed(m, Connected, chunks).actions
  {
    [Send(SubscribeRequest)] + Feed(m, Connected, chunks).actions
  }

  /** Running two runs of events back to back is running their concatenation. */
  lemma {:induction false} RunWithAppend(step: (State, Event) -> Stepped, st: State, a: seq<Event>, b: seq<Event>)
    ensures var ra := RunWith(step, st, a);
      var rb := RunWith(step, ra.state, b);
      RunWith(step, st, a + b) == Stepped(rb.state, ra.actions + rb.actions)
    decreases |a|
  {
    if a == [] {
      assert a + b == b;
    } else {
      assert (a + b)[0] == a[0];
      assert (a + b)[1..] == a[1..] + b;
      var s1 := step(st, a[0]);
      RunWithAppend(step, s1.state, a[1..], b);
      var ra := RunWith(step, s1.state, a[1..]);
      var rb := RunWith(step, ra.state, b);
      assert s1.actions + (ra.actions + rb.actions) == (s1.actions + ra.actions) + rb.actions;
    }
  }

  /** A receive that completes no block changes no state and does nothing. */
  lemma ReceiveWithoutBlock(m: Machine, c: Conn, data: string)
    requires NoPairFrom(Capped(c.buffer + data), 0, Open, Close)
    ensures Receive(m, c, data) == Received(Conn(Capped(c.buffer + data), c.qso), [], [])
  {
    var cp := Capped(c.buffer + data);
    assert Blocks(cp, 0) == [];
  }

  /**
   * Text that completes no block is kept as it is, so receiving it and then more text is
   * receiving both at once, as long as the buffer does not overflow in between.
   */
  lemma SplitWithoutBlock(m: Machine, c: Conn, a: string, b: string)
    requires |c.buffer + a| <= MaxBuffer
    requires Reframe(c.buffer + a).blocks == []
    ensures Feed(m, c, [a, b]) == Feed(m, c, [a + b])
  {
    var c1 := Conn(c.buffer + a, c.qso);
    ReceiveQuiet(m, c, a);
    FeedAfterQuiet(m, c, a, b, c1);
    FeedOne(m, c1, b);
    FeedOne(m, c, a + b);
    ReceiveAppended(m, c, a, b);
  }

  /** A receive that takes out no block and does not overflow keeps all the text. */
  lemma ReceiveQuiet(m: Machine, c: Conn, a: string)
    requires |c.buffer + a| <= MaxBuffer
    requires Reframe(c.buffer + a).blocks == []
    ensures Receive(m, c, a) == Received(Conn(c.buffer + a, c.qso), [], [])
  {
  }

  /** After a receive that did nothing but keep text, the rest is fed from what it kept. */
  lemma FeedAfterQuiet(m: Machine, c: Conn, a: string, b: string, c1: Conn)
    requires Receive(m, c, a) == Received(c1, [], [])
    ensures Feed(m, c, [a, b]) == Feed(m, c1, [b])
  {
    PairTail(a, b);
    var rest := Feed(m, c1, [b]);
    EmptyAppend(rest.events);
    EmptyAppend(rest.actions);
  }

  lemma PairTail(a: string, b: string)
    ensures [a, b][1..] == [b]
  {
  }

  lemma EmptyAppend<T>(s: seq<T>)
    ensures [] + s == s
  {
  }

  /** Receiving `b` after `a` was kept in the buffer is receiving `a + b` at once. */
  lemma ReceiveAppended(m: Machine, c: Conn, a: string, b: string)
    ensures Receive(m, Conn(c.buffer + a, c.qso), b) == Receive(m, c, a + b)
  {
    AppendAssoc(c.buffer, a, b);
    ReceiveSameText(m, Conn(c.buffer + a, c.qso), b, c, a + b);
  }

  /** A receive depends only on the text buffered with the new data, and the QSO state. */
  lemma ReceiveSameText(m: Machine, c: Conn, x: string, d: Conn, y: string)
    requires c.qso == d.qso && c.buffer + x == d.buffer + y
    ensures Receive(m, c, x) == Receive(m, d, y)
  {
  }

  lemma AppendAssoc<T>(x: seq<T>, y: seq<T>, z: seq<T>)
    ensures (x + y) + z == x + (y + z)
  {
  }

  /** Feeding one chunk is one receive. */
  lemma FeedOne(m: Machine, c: Conn, x: string)
    ensures Feed(m, c, [x]) == Receive(m, c, x)
  {
    assert [x][1..] == [];
    var r := Receive(m, c, x);
    assert r.events + [] == r.events && r.actions + [] == r.actions;
  }

  /**
   * Feeding two runs of chunks back to back is feeding the second from where the first
   * left the connection, with their events and actions one after the other. With `FeedOne`,
   * this makes a feed the receives of its chunks, in order.
   */
  lemma {:induction false} FeedAppend(m: Machine, c: Conn, xs: seq<string>, ys: seq<string>)
    ensures var r1 := Feed(m, c, xs); var r2 := Feed(m, r1.conn, ys);
      Feed(m, c, xs + ys) == Received(r2.conn, r1.events + r2.events, r1.actions + r2.actions)
    decreases |xs|
  {
    if xs == [] {
      EmptyAppend(ys);
      var r2 := Feed(m, c, ys);
      EmptyAppend(r2.events);
      EmptyAppend(r2.actions);
    } else {
      ConsAppend(xs, ys);
      var r0 := Receive(m, c, xs[0]);
      FeedAppend(m, r0.conn, xs[1..], ys);
      var q1 := Feed(m, r0.conn, xs[1..]);
      var q2 := Feed(m, q1.conn, ys);
      FeedCons(m, c, xs + ys);
      FeedCons(m, c, xs);
      AppendAssoc(r0.events, q1.events, q2.events);
      AppendAssoc(r0.actions, q1.actions, q2.actions);
    }
  }

  /** A feed of at least one chunk is its first receive, then the feed of the rest. */
  lemma FeedCons(m: Machine, c: Conn, xs: seq<string>)
    requires xs != []
    ensures var r0 := Receive(m, c, xs[0]); var rest := Feed(m, r0.conn, xs[1..]);
      Feed(m, c, xs) == Received(rest.conn, r0.events + rest.events, r0.actions + rest.actions)
  {
  }

  lemma ConsAppend<T>(xs: seq<T>, ys: seq<T>)
    requires xs != []
    ensures (xs + ys)[0] == xs[0] && (xs + ys)[1..] == xs[1..] + ys
  {
  }

  /**
   * What the bridge sends N3FJP over a whole connection: the subscription request first
   * and only there, then one READBMF request per ENTEREVENT and nothing else.
   */
  lemma SessionRequests(cfg: Settings, parse: string -> Option<real>, chunks: seq<string>)
    ensures var acts := Session(Bridge(cfg, parse), chunks);
      var r := Feed(Bridge(cfg, parse), Connected, chunks);
      && acts[0] == Send(SubscribeRequest)
      && (forall i :: 1 <= i < |acts| && acts[i].Send? ==> acts[i].xml == ReadBmfRequest)
      && |Requests(acts)| == 1 + Enters(r.events)
  {
    var m := Bridge(cfg, parse);
    var acts := Session(m, chunks);
    var r := Feed(m, Connected, chunks);
    BridgeRuns(cfg, parse, Fresh, r.events);
    RunRequests(cfg, parse, Fresh, r.events);
    RequestsAppend([Send(SubscribeRequest)], r.actions);
    forall i | 1 <= i < |acts| && acts[i].Send?
      ensures acts[i].xml == ReadBmfRequest
    {
      assert acts[i] == r.actions[i - 1];
      assert acts[i].xml in Requests(r.actions);
    }
  }

  /** The bridge's runs are `Qso.Run`. */
  lemma {:induction false} BridgeRuns(cfg: Settings, parse: string -> Option<real>, st: State, evs: seq<Event>)
    ensures RunWith(Bridge(cfg, parse).step, st, evs) == Run(cfg, parse, st, evs)
    decreases |evs|
  {
    if evs != [] {
      BridgeRuns(cfg, parse, Step(cfg, parse, st, evs[0]).state, evs[1..]);
    }
  }

  /** The connection's QSO state keeps the state machine's invariant. */
  lemma FeedKeepsInv(cfg: Settings, parse: string -> Option<real>, c: Conn, chunks: seq<string>)
    requires Inv(c.qso)
    ensures Inv(Feed(Bridge(cfg, parse), c, chunks).conn.qso)
  {
    var r := Feed(Bridge(cfg, parse), c, chunks);
    BridgeRuns(cfg, parse, c.qso, r.events);
    RunKeepsInv(cfg, parse, c.qso, r.events);
  }

  /**
   * At most one UDP packet per logged QSO over a whole connection, however the text was
   * split into chunks.
   */
  lemma SessionPacketsPerEnter(cfg: Settings, parse: string -> Option<real>, chunks: seq<string>)
    ensures var r := Feed(Bridge(cfg, parse), Connected, chunks);
      |Packets(Session(Bridge(cfg, parse), chunks))| <= Enters(r.events)
  {
    var r := Feed(Bridge(cfg, parse), Connected, chunks);
    BridgeRuns(cfg, parse, Fresh, r.events);
    FreshPacketsPerEnter(cfg, parse, r.events);
    PacketsAppend([Send(SubscribeRequest)], r.actions);
  }
}
