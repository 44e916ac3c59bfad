/**
 * A whole conversation: for every good upgrade request and every text message there is a run in which
 * the server sends exactly the 101 and the echo.
 */
module Conversation {
  import opened Bytes
  import opened FrameCodec
  import opened StreamParser
  import opened Fragmentation
  import opened Outbound
  import opened Connection
  import opened ConnectionOrder
  import opened ConnectionRuns
  import opened EarlyWrites
  import opened Closing
  import opened UpgradeRequest

  /** A connection whose handshake is done. */
  function Talking(phase: Phase, todo: seq<Op>): Conn {
    Fresh(true).(parser := Live(phase), tlsDone := true, out := Output([], [], false, Drained), todo := todo)
  }

  /** The same with the 101 sent. */
  function Upgraded(response: seq<byte>, todo: seq<Op>): Conn {
    Talking(Open([], Idle), todo).(upgraded := true, history := [Upgrade(response)], out := Output([], response, false, Drained))
  }

  /** A TLS layer that takes all it is offered. */
  function Willing(): nat -> WriteResult {
    (k: nat) => Wrote(0x1_0000_0000_0000_0000)
  }

  lemma WillingTakes()
    ensures forall k :: Willing()(k).Wrote?
  {
  }

  /** A flush with such a TLS layer, as a step of its own. */
  lemma FlushStep(c: Setup, s: Conn, op: Op, rest: seq<Op>)
    requires op.FlushIfTls? || op.FlushUnlessClosing?
    requires Conserved(s.history, s.out) && s.fdOpen && s.tlsDone && !s.closing && s.todo == [op] + rest
    ensures ValidQueue(s.out.queue)
    ensures Next(c, s, Step(NeedsRead, Willing(), false)) == s.(todo := rest, out := Output([], HistoryBytes(s.history), false, Drained))
  {
    StillValid(s);
    WillingTakes();
    hide Conserved, HistoryBytes, Flush, Willing, ValidQueue;
    assert s.todo[0] == op && s.todo[1..] == rest;
    FlushSends(s.(todo := rest), Willing());
    hide DoFlush;
  }

  lemma TlsHandshake(c: Setup)
    ensures Reached(c, Talking(Awaiting([]), [Read]))
  {
    hide Reached;
    ReachFresh(c, true);
    var s1 := Fresh(true).(todo := [Accept(true, false)]);
    Reach(c, Fresh(true), Wake(Ready(true, false)), s1);
    var s2 := Fresh(true).(tlsDone := true, todo := [FlushNow, Read]);
    assert [FlushNow] + Tail(true, false) + [] == [FlushNow, Read];
    Reach(c, s1, Step(Finished, Willing(), false), s2);
    assert [FlushNow, Read][1..] == [Read];
    Reach(c, s2, Step(Finished, Willing(), false), Talking(Awaiting([]), [Read]));
  }

  function Business(response: seq<byte>, f: Frame): seq<Op> {
    [MarkUpgraded, Enqueue(Upgrade(response)), WantOutput, FlushIfTls, Submit(f), ReadNext]
  }

  lemma RequestRead(c: Setup, data: seq<byte>, response: seq<byte>, f: Frame)
    requires data != [] && f.opcode == OP_TEXT
    requires Feed(c, Awaiting([]), data) == Fed(Some(response), [f], Live(Open([], Idle)))
    requires Reached(c, Talking(Awaiting([]), [Read]))
    ensures Reached(c, Talking(Open([], Idle), Business(response, f)))
  {
    hide Feed, Reached;
    assert [Read][1..] == [];
    assert [f][1..] == [] && FrameOps([f]) == [Submit(f)];
    assert UpgradeOps(Some(response)) + FrameOps([f]) + [ReadNext] + [] == Business(response, f);
    Reach(c, Talking(Awaiting([]), [Read]), Step(Data(data), Willing(), false), Talking(Open([], Idle), Business(response, f)));
  }

  lemma UpgradeHistory(response: seq<byte>)
    ensures HistoryBytes([Upgrade(response)]) == response && Conserved([Upgrade(response)], Output([Item(response, 0)], [], true, Drained))
  {
    assert [Upgrade(response)][..0] == [];
    assert [] + response == response;
    assert [Item(response, 0)][1..] == [] && response[0..] == response && response + [] == response;
  }

  /** The same with the 101 queued. */
  function With101(response: seq<byte>, interest: bool, todo: seq<Op>): Conn {
    Upgraded(response, todo).(out := Output([Item(response, 0)], [], interest, Drained))
  }

  lemma UpgradeQueued(c: Setup, response: seq<byte>, f: Frame)
    requires Reached(c, Talking(Open([], Idle), Business(response, f)))
    ensures Reached(c, With101(response, false, Business(response, f)[2..]))
  {
    hide Reached;
    var ops := Business(response, f);
    var s0 := Talking(Open([], Idle), ops);
    var s1 := s0.(upgraded := true, todo := ops[1..]);
    Reach(c, s0, Step(NeedsRead, Willing(), false), s1);
    assert ops[1..][1..] == ops[2..] && [] + [Upgrade(response)] == [Upgrade(response)] && [] + [Item(response, 0)] == [Item(response, 0)];
    Reach(c, s1, Step(NeedsRead, Willing(), false), With101(response, false, ops[2..]));
  }

  lemma UpgradeSent(c: Setup, response: seq<byte>, f: Frame)
    requires Reached(c, With101(response, false, Business(response, f)[2..]))
    ensures Reached(c, Upgraded(response, [Submit(f), ReadNext]))
  {
    var rest := [Submit(f), ReadNext];
    var s0, s1 := With101(response, false, [WantOutput, FlushIfTls] + rest), With101(response, true, [FlushIfTls] + rest);
    UpgradeHistory(response);
    assert Business(response, f)[2..] == [WantOutput, FlushIfTls] + rest;
    assert [WantOutput, FlushIfTls] + rest == [WantOutput] + ([FlushIfTls] + rest);
    hide Reached, HistoryBytes, Conserved, Next, Willing, Business;
    WantsOutput(c, s0, [FlushIfTls] + rest);
    FlushStep(c, s1, FlushIfTls, rest);
    assert s0.todo[0] == WantOutput && s1.todo[0] == FlushIfTls;
    Reach(c, s0, Step(NeedsRead, Willing(), false), s1);
    Reach(c, s1, Step(NeedsRead, Willing(), false), Upgraded(response, rest));
  }

  lemma WantsOutput(c: Setup, s: Conn, rest: seq<Op>)
    requires ValidQueue(s.out.queue) && s.fdOpen && s.todo == [WantOutput] + rest
    ensures Next(c, s, Step(NeedsRead, Willing(), false)) == s.(todo := rest, out := s.out.(interest := true))
  {
    assert s.todo[0] == WantOutput && s.todo[1..] == rest;
  }

  lemma TextSubmitted(c: Setup, response: seq<byte>, f: Frame)
    requires Reached(c, Upgraded(response, [Submit(f), ReadNext]))
    ensures Reached(c, Upgraded(response, []).(tasks := [f]))
  {
    hide Reached;
    assert [Submit(f), ReadNext][1..] == [ReadNext] && [] + [f] == [f] && [ReadNext][1..] == [] && [Read] + [] == [Read] && [Read][1..] == [];
    var s1 := Upgraded(response, [ReadNext]).(tasks := [f]);
    Reach(c, Upgraded(response, [Submit(f), ReadNext]), Step(NeedsRead, Willing(), false), s1);
    Reach(c, s1, Step(NeedsRead, Willing(), false), s1.(todo := [Read]));
    Reach(c, s1.(todo := [Read]), Step(NeedsRead, Willing(), false), s1.(todo := []));
  }

  /** The echo is queued. */
  function WithEcho(response: seq<byte>, echo: WireFrame, interest: bool): Conn {
    Upgraded(response, []).(history := [Upgrade(response), Queued.Message(echo)],
                            out := Output([Item(FrameBytes(echo), 0)], response, interest, Drained))
  }

  lemma OnePush(response: seq<byte>, echo: WireFrame)
    ensures PushAll(Upgraded(response, []).(lock := Some([echo])), [echo]) == WithEcho(response, echo, false).(lock := Some([echo]))
  {
    hide FrameBytes;
    assert [echo][1..] == [];
    assert [Upgrade(response)] + [Queued.Message(echo)] == [Upgrade(response), Queued.Message(echo)];
    assert [] + [Item(FrameBytes(echo), 0)] == [Item(FrameBytes(echo), 0)];
  }

  lemma EchoQueued(c: Setup, response: seq<byte>, f: Frame)
    requires Reached(c, Upgraded(response, []).(tasks := [f])) && f.opcode == OP_TEXT && |f.payload| < MAX_LENGTH
    ensures Reached(c, WithEcho(response, ServerFrame(OP_TEXT, f.payload), true).(bell := 1))
  {
    hide Reached, FrameBytes;
    var echo := ServerFrame(OP_TEXT, f.payload);
    var s0 := Upgraded(response, []).(tasks := [f]);
    var s1 := Upgraded(response, []).(lock := Some([echo]));
    assert [f][..0] + [f][1..] == [];
    Reach(c, s0, WorkerLock(0, [echo]), s1);
    OnePush(response, echo);
    hide PushAll;
    var s2 := WithEcho(response, echo, false).(raising := 1);
    Reach(c, s1, WorkerPush, s2);
    var s3 := WithEcho(response, echo, true).(ringing := 1);
    Reach(c, s2, WorkerWantsOutput, s3);
    Reach(c, s3, WorkerRings, WithEcho(response, echo, true).(bell := 1));
  }

  lemma EchoHistory(response: seq<byte>, echo: WireFrame)
    ensures
      var s := WithEcho(response, echo, true);
      HistoryBytes(s.history) == response + FrameBytes(echo) && Conserved(s.history, s.out)
  {
    hide FrameBytes;
    UpgradeHistory(response);
    var h := [Upgrade(response), Queued.Message(echo)];
    assert h[..1] == [Upgrade(response)];
    var q := [Item(FrameBytes(echo), 0)];
    assert q[1..] == [] && FrameBytes(echo)[0..] == FrameBytes(echo) && FrameBytes(echo) + [] == FrameBytes(echo);
    assert Unsent(q) == FrameBytes(echo);
  }

  lemma EchoSent(c: Setup, response: seq<byte>, echo: WireFrame)
    requires Reached(c, WithEcho(response, echo, true).(bell := 1))
    ensures Reached(c, WithEcho(response, echo, false).(out := Output([], response + FrameBytes(echo), false, Drained)))
  {
    EchoHistory(response, echo);
    var s := WithEcho(response, echo, true);
    var s1, s2 := s.(bell := 1, todo := [DrainBell, FlushUnlessClosing]), s.(todo := [FlushUnlessClosing]);
    BellRings(c, s);
    assert [FlushUnlessClosing] == [FlushUnlessClosing] + [];
    FlushStep(c, s2, FlushUnlessClosing, []);
    hide Reached, FrameBytes, Conserved, HistoryBytes, Next, Willing;
    Reach(c, s.(bell := 1), Wake(Bell), s1);
    Reach(c, s1, Step(NeedsRead, Willing(), false), s2);
    Reach(c, s2, Step(NeedsRead, Willing(), false),
          WithEcho(response, echo, false).(out := Output([], response + FrameBytes(echo), false, Drained)));
  }

  lemma BellRings(c: Setup, s: Conn)
    requires ValidQueue(s.out.queue) && s.todo == []
    ensures
      var s1 := s.(bell := 1, todo := [DrainBell, FlushUnlessClosing]);
      && Next(c, s.(bell := 1), Wake(Bell)) == s1
      && Next(c, s1, Step(NeedsRead, Willing(), false)) == s.(bell := 0, todo := [FlushUnlessClosing])
  {
    assert [DrainBell, FlushUnlessClosing][1..] == [FlushUnlessClosing];
  }

  /**
   * For every good request and every text message that fits, under any key: a run leads to a state in which
   * the server has sent exactly the 101 for the request and the message as a text frame, and waits.
   */
  lemma TextEchoed(c: Setup, first: seq<byte>, hs: seq<Header>, key: seq<byte>, text: seq<byte>, mask: Mask)
    requires GoodRequest(c, first, hs, key) && |text| <= c.wire.maxPayload && |text| < MAX_LENGTH
    ensures exists s ::
      && Reached(c, s) && s.todo == [] && s.fdOpen && !s.closing && s.tasks == [] && s.out.queue == []
      && s.out.sent == Response(c.accept(key)) + FrameBytes(WireFrame(true, OP_TEXT, None, text))
  {
    var f := WireFrame(true, OP_TEXT, Some(mask), text);
    var data := Request(first, hs) + WriteFrames([f]);
    var response, shown := Response(c.accept(key)), Frame(OP_TEXT, true, text);
    assert Whole(c.wire, f);
    assert [data][1..] == [] && data + [] == data;
    HandshakeAndFrames(c, first, hs, key, [f], [data]);
    assert Shown([f]) == [shown];
    hide GoodRequest, Response, FrameBytes, Whole, Decode, TryUpgrade;
    OneFeed(c, data);
    hide Feed, FeedAll, Reached;
    assert data != [] by { RequestNotEmpty(first, hs, WriteFrames([f])); }
    TlsHandshake(c);
    RequestRead(c, data, response, shown);
    UpgradeQueued(c, response, shown);
    UpgradeSent(c, response, shown);
    TextSubmitted(c, response, shown);
    EchoQueued(c, response, shown);
    EchoSent(c, response, ServerFrame(OP_TEXT, text));
  }

  lemma OneFeed(c: Setup, data: seq<byte>)
    ensures FeedAll(c, Awaiting([]), [data]) == Feed(c, Awaiting([]), data)
  {
    FreshParsersSettled(c);
    assert [data][1..] == [] && Concat([data]) == data + [] == data;
    FeedAllIsOneFeed(c, Awaiting([]), [data]);
    hide Feed, FeedAll, Settled;
  }

  lemma RequestNotEmpty(first: seq<byte>, hs: seq<Header>, tail: seq<byte>)
    ensures Request(first, hs) + tail != []
  {
  }
}
