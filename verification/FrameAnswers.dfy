/** What received frames lead to: which answers are queued, and which messages reach the workers. */
module FrameAnswers {
  import opened Bytes
  import opened FrameCodec
  import opened Outbound
  import opened Connection
  import opened ConnectionOrder

  /** The frames up to the first Close, which is the last one looked at. */
  function UpToClose(frames: seq<Frame>): seq<Frame> {
    if frames == [] then []
    else if frames[0].opcode == OP_CLOSE then [frames[0]]
    else [frames[0]] + UpToClose(frames[1..])
  }

  /** The payloads of the frames with that opcode, in order. */
  function Payloads(opcode: byte, frames: seq<Frame>): seq<seq<byte>> {
    if frames == [] then []
    else (if frames[0].opcode == opcode then [frames[0].payload] else []) + Payloads(opcode, frames[1..])
  }

  /** For each Close payload, the payload of the Close sent back. */
  function CloseReplies(payloads: seq<seq<byte>>): (r: seq<seq<byte>>)
    ensures |r| == |payloads|
  {
    seq(|payloads|, i requires 0 <= i < |payloads| => WriteBE(CloseReply(payloads[i]), 2))
  }

  function DataFrames(frames: seq<Frame>): seq<Frame> {
    if frames == [] then []
    else (if DataOpcode(frames[0].opcode) then [frames[0]] else []) + DataFrames(frames[1..])
  }

  /** The payloads of the frames with that opcode among those the operations queue. */
  function QueuedPayloads(opcode: byte, ops: seq<Op>): seq<seq<byte>> {
    if ops == [] then []
    else
      QueuedBy(opcode, ops[0]) + QueuedPayloads(opcode, ops[1..])
  }

  function QueuedBy(opcode: byte, op: Op): seq<seq<byte>> {
    if op.Enqueue? && op.item.Message? && op.item.frame.opcode == opcode then [op.item.frame.payload] else []
  }

  function Submitted(ops: seq<Op>): seq<Frame> {
    if ops == [] then [] else SubmittedBy(ops[0]) + Submitted(ops[1..])
  }

  lemma {:induction false} QueuedAppend(opcode: byte, a: seq<Op>, b: seq<Op>)
    ensures QueuedPayloads(opcode, a + b) == QueuedPayloads(opcode, a) + QueuedPayloads(opcode, b)
    decreases |a|
  {
    if a == [] {
      assert a + b == b;
    } else {
      hide QueuedBy;
      assert (a + b)[0] == a[0] && (a + b)[1..] == a[1..] + b;
      QueuedAppend(opcode, a[1..], b);
      Associate(QueuedBy(opcode, a[0]), QueuedPayloads(opcode, a[1..]), QueuedPayloads(opcode, b));
    }
  }

  function SubmittedBy(op: Op): seq<Frame> {
    if op.Submit? then [op.task] else []
  }

  lemma {:induction false} SubmittedAppend(a: seq<Op>, b: seq<Op>)
    ensures Submitted(a + b) == Submitted(a) + Submitted(b)
    decreases |a|
  {
    if a == [] {
      assert a + b == b;
    } else {
      hide SubmittedBy;
      assert (a + b)[0] == a[0] && (a + b)[1..] == a[1..] + b;
      SubmittedAppend(a[1..], b);
      Associate(SubmittedBy(a[0]), Submitted(a[1..]), Submitted(b));
    }
  }

  lemma SendQueues(f: WireFrame, opcode: byte)
    ensures QueuedPayloads(opcode, Send(f)) == if f.opcode == opcode then [f.payload] else []
    ensures Submitted(Send(f)) == []
  {
    var ops := Send(f);
    assert ops[1..] == [WantOutput, FlushIfTls] && ops[1..][1..] == [FlushIfTls] && ops[1..][1..][1..] == [];
    assert QueuedPayloads(opcode, ops[1..][1..]) == [] && Submitted(ops[1..][1..]) == [];
    assert QueuedPayloads(opcode, ops[1..]) == [] && Submitted(ops[1..]) == [];
  }

  lemma CloseQueues(f: WireFrame, opcode: byte)
    ensures QueuedPayloads(opcode, [StartClosing] + Send(f)) == if f.opcode == opcode then [f.payload] else []
    ensures Submitted([StartClosing] + Send(f)) == []
  {
    var ops := [StartClosing] + Send(f);
    SendQueues(f, opcode);
    hide Send;
    assert ops[0] == StartClosing && ops[1..] == Send(f);
  }

  /** What a single frame queues under an opcode. */
  function Answers(opcode: byte, f: Frame): seq<seq<byte>> {
    if f.opcode == OP_PING && opcode == OP_PONG then [f.payload]
    else if f.opcode == OP_CLOSE && opcode == OP_CLOSE then [WriteBE(CloseReply(f.payload), 2)]
    else []
  }

  lemma OneAnswer(f: Frame, opcode: byte)
    requires Presentable(f)
    ensures QueuedPayloads(opcode, OneFrame(f)) == Answers(opcode, f)
    ensures Submitted(OneFrame(f)) == if DataOpcode(f.opcode) then [f] else []
  {
    if f.opcode == OP_PING {
      SendQueues(ServerFrame(OP_PONG, f.payload), opcode);
    } else if f.opcode == OP_CLOSE {
      CloseQueues(ServerFrame(OP_CLOSE, WriteBE(CloseReply(f.payload), 2)), opcode);
    } else if DataOpcode(f.opcode) {
      assert OneFrame(f)[1..] == [];
    }
  }

  /**
   * Up to the first Close every Ping is answered by one Pong with its payload, every text or binary
   * message goes to the workers once, in order, and the Close is answered by one Close with the status
   * code that answers its own.
   */
  lemma {:induction false} EveryFrameAnswered(frames: seq<Frame>)
    requires forall f :: f in frames ==> Presentable(f)
    ensures QueuedPayloads(OP_PONG, FrameOps(frames)) == Payloads(OP_PING, UpToClose(frames))
    ensures Submitted(FrameOps(frames)) == DataFrames(UpToClose(frames))
    ensures QueuedPayloads(OP_CLOSE, FrameOps(frames)) == CloseReplies(Payloads(OP_CLOSE, UpToClose(frames)))
    ensures QueuedPayloads(OP_TEXT, FrameOps(frames)) == [] && QueuedPayloads(OP_BINARY, FrameOps(frames)) == []
    decreases |frames|
  {
    if frames != [] {
      var f := frames[0];
      assert f in frames;
      AllAnswers(f);
      hide OneFrame, Presentable;
      if f.opcode == OP_CLOSE {
        assert [f][1..] == [];
      } else {
        var rest := frames[1..];
        EveryFrameAnswered(rest);
        assert ([f] + UpToClose(rest))[1..] == UpToClose(rest);
        AppendAll(OneFrame(f), FrameOps(rest));
      }
    }
  }

  lemma AllAnswers(f: Frame)
    requires Presentable(f)
    ensures QueuedPayloads(OP_PONG, OneFrame(f)) == Answers(OP_PONG, f)
    ensures QueuedPayloads(OP_CLOSE, OneFrame(f)) == Answers(OP_CLOSE, f)
    ensures QueuedPayloads(OP_TEXT, OneFrame(f)) == [] && QueuedPayloads(OP_BINARY, OneFrame(f)) == []
    ensures Submitted(OneFrame(f)) == if DataOpcode(f.opcode) then [f] else []
  {
    hide OneFrame;
    OneAnswer(f, OP_PONG);
    OneAnswer(f, OP_CLOSE);
    OneAnswer(f, OP_TEXT);
    OneAnswer(f, OP_BINARY);
  }

  lemma AppendAll(a: seq<Op>, b: seq<Op>)
    ensures Submitted(a + b) == Submitted(a) + Submitted(b)
    ensures forall opcode :: QueuedPayloads(opcode, a + b) == QueuedPayloads(opcode, a) + QueuedPayloads(opcode, b)
  {
    SubmittedAppend(a, b);
    forall opcode
      ensures QueuedPayloads(opcode, a + b) == QueuedPayloads(opcode, a) + QueuedPayloads(opcode, b)
    {
      QueuedAppend(opcode, a, b);
    }
  }

  /** The status codes a Close frame may carry: 1000 to 4999 without those that are never sent. */
  predicate MaySend(code: nat) {
    1000 <= code <= 4999 && code !in {1004, 1005, 1006, 1015}
  }

  /** The status code sent back is always one that may be sent: the peer's own if it may, else 1000 or 1002. */
  lemma CloseReplyAllowed(payload: seq<byte>)
    ensures CloseReply(payload) in {1000, 1002} || MaySend(CloseReply(payload))
    ensures |payload| < 2 ==> CloseReply(payload) == 1000
    ensures |payload| >= 2 ==>
      if MaySend(ReadBE(payload[..2])) then WriteBE(CloseReply(payload), 2) == payload[..2] else CloseReply(payload) == 1002
  {
    if |payload| >= 2 {
      WriteReadBE(payload[..2]);
    }
  }
}
