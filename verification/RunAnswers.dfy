/** Over whole runs: every Ping and Close that arrives is answered, once, in order, with the right payload. */
module RunAnswers {
  import opened Bytes
  import opened FrameCodec
  import opened StreamParser
  import opened Outbound
  import opened Connection
  import opened ConnectionOrder
  import opened ConnectionRuns
  import opened FrameAnswers

  /** The payloads of the frames with that opcode that were ever queued, in order. */
  function HistoryPayloads(opcode: byte, h: seq<Queued>): seq<seq<byte>> {
    if h == [] then [] else HistoryPayloads(opcode, h[..|h| - 1]) + PayloadOf(opcode, h[|h| - 1])
  }

  function PayloadOf(opcode: byte, q: Queued): seq<seq<byte>> {
    if q.Message? && q.frame.opcode == opcode then [q.frame.payload] else []
  }

  /** Queued already, or about to be queued by the operations left. */
  function Answered(opcode: byte, s: Conn): seq<seq<byte>> {
    HistoryPayloads(opcode, s.history) + QueuedPayloads(opcode, s.todo)
  }

  /** The frames the parser gives for what a read brings. */
  function BatchOf(c: Setup, parser: Status, tls: Tls): seq<Frame> {
    if tls.Data? && tls.bytes != [] && parser.Live? && Feed(c, parser.phase, tls.bytes).status.Live?
    then Feed(c, parser.phase, tls.bytes).frames else []
  }

  /** The frames a step takes from the parser. */
  function Batch(c: Setup, s: Conn, a: Action): seq<Frame> {
    if a.Step? && s.todo != [] && Reads(s.todo[0]) then BatchOf(c, s.parser, a.tls) else []
  }

  predicate Reads(op: Op) {
    op.EarlyRead? || op.Read?
  }

  /** What these frames are to be answered with: a Pong per Ping, a Close for the Close. */
  function Owed(opcode: byte, frames: seq<Frame>): seq<seq<byte>> {
    if opcode == OP_PONG then Payloads(OP_PING, UpToClose(frames))
    else CloseReplies(Payloads(OP_CLOSE, UpToClose(frames)))
  }

  function AllOwed(opcode: byte, c: Setup, states: seq<Conn>, actions: seq<Action>, n: nat): seq<seq<byte>>
    requires n <= |actions| && n < |states|
    decreases n
  {
    if n == 0 then []
    else AllOwed(opcode, c, states, actions, n - 1) + Owed(opcode, Batch(c, states[n - 1], actions[n - 1]))
  }

  predicate Reply(opcode: byte) {
    opcode == OP_PONG || opcode == OP_CLOSE
  }

  lemma NothingOwed(opcode: byte)
    ensures Owed(opcode, []) == []
  {
  }

  // ---------------------------------------------------------------- one step

  lemma QueuedOne(opcode: byte, op: Op, rest: seq<Op>)
    ensures QueuedPayloads(opcode, [op] + rest) == QueuedBy(opcode, op) + QueuedPayloads(opcode, rest)
  {
    assert ([op] + rest)[1..] == rest;
  }

  lemma NoneQueued(opcode: byte, ops: seq<Op>)
    requires forall op :: op in ops ==> QueuedBy(opcode, op) == []
    ensures QueuedPayloads(opcode, ops) == []
  {
    if ops != [] {
      assert ops[0] in ops;
      NoneQueued(opcode, ops[1..]);
    }
  }

  /** Operations put in front that queue no answer. */
  lemma BeforeAnswers(opcode: byte, s: Conn, ops: seq<Op>)
    requires forall op :: op in ops ==> QueuedBy(opcode, op) == []
    ensures Answered(opcode, Before(ops, s)) == Answered(opcode, s)
  {
    NoneQueued(opcode, ops);
    QueuedAppend(opcode, ops, s.todo);
    assert [] + QueuedPayloads(opcode, s.todo) == QueuedPayloads(opcode, s.todo);
  }

  lemma SameAnswers(opcode: byte, s: Conn, s': Conn)
    requires s'.history == s.history && s'.todo == s.todo
    ensures Answered(opcode, s') == Answered(opcode, s)
  {
  }

  lemma InboundAnswers(opcode: byte, c: Setup, s: Conn, data: seq<byte>, next: Op)
    requires Reply(opcode) && Reading(s) && QueuedBy(opcode, next) == [] && s.parser.Live?
    requires Feed(c, s.parser.phase, data).status.Live?
    ensures Answered(opcode, Inbound(c, s, data, next))
         == HistoryPayloads(opcode, s.history) + Owed(opcode, Feed(c, s.parser.phase, data).frames)
  {
    var r := Feed(c, s.parser.phase, data);
    ParserMoves(c, s, data);
    hide Feed, Reading, Presentable;
    EveryFrameAnswered(r.frames);
    OnlyFrameAnswers(opcode, r.accepted, r.frames, next, s.todo);
  }

  lemma OnlyFrameAnswers(opcode: byte, accepted: Option<seq<byte>>, frames: seq<Frame>, next: Op, rest: seq<Op>)
    requires Reply(opcode) && QueuedBy(opcode, next) == []
    ensures QueuedPayloads(opcode, UpgradeOps(accepted) + FrameOps(frames) + [next] + rest)
         == QueuedPayloads(opcode, FrameOps(frames)) + QueuedPayloads(opcode, rest)
  {
    UpgradeQueues(opcode, accepted);
    QueuedOne(opcode, next, []);
    hide UpgradeOps, FrameOps, QueuedBy;
    QueuedAppend(opcode, UpgradeOps(accepted) + FrameOps(frames) + [next], rest);
    QueuedAppend(opcode, UpgradeOps(accepted) + FrameOps(frames), [next]);
    QueuedAppend(opcode, UpgradeOps(accepted), FrameOps(frames));
    assert [next] + [] == [next];
  }

  lemma UpgradeQueues(opcode: byte, accepted: Option<seq<byte>>)
    ensures QueuedPayloads(opcode, UpgradeOps(accepted)) == []
  {
    NoneQueued(opcode, UpgradeOps(accepted));
  }

  lemma RestQueuesNothing(opcode: byte, s: Conn)
    requires Reading(s)
    ensures QueuedPayloads(opcode, s.todo) == [] && Answered(opcode, s) == HistoryPayloads(opcode, s.history)
  {
    NoneQueued(opcode, s.todo);
  }

  /** A read whose plaintext the parser does not take. */
  lemma RefusedAnswers(opcode: byte, c: Setup, s: Conn, data: seq<byte>, next: Op)
    requires s.parser.Dead? || Feed(c, s.parser.phase, data).status.Dead?
    ensures Answered(opcode, Inbound(c, s, data, next)) == Answered(opcode, s)
  {
    if s.parser.Live? {
      var parser := Feed(c, s.parser.phase, data).status;
      BeforeAnswers(opcode, s.(parser := parser), [Close]);
      SameAnswers(opcode, s, s.(parser := parser));
      hide Feed, Answered;
    }
  }

  lemma BatchAnswers(opcode: byte, c: Setup, s: Conn, data: seq<byte>, next: Op)
    requires Reply(opcode) && Reading(s) && (next.EarlyNext? || next.ReadNext?)
    ensures
      var frames := if s.parser.Live? && Feed(c, s.parser.phase, data).status.Live? then Feed(c, s.parser.phase, data).frames else [];
      Answered(opcode, Inbound(c, s, data, next)) == Answered(opcode, s) + Owed(opcode, frames)
  {
    RestQueuesNothing(opcode, s);
    NothingOwed(opcode);
    hide *;
    if s.parser.Live? && Feed(c, s.parser.phase, data).status.Live? {
      InboundAnswers(opcode, c, s, data, next);
    } else {
      RefusedAnswers(opcode, c, s, data, next);
    }
  }

  lemma EarlyReadAnswers(opcode: byte, c: Setup, s: Conn, r: bool, w: bool, tls: Tls)
    requires Reply(opcode) && Reading(s)
    requires !tls.Data? || tls.bytes == []
    ensures Answered(opcode, DoEarlyRead(c, s, r, w, tls)) == Answered(opcode, s)
  {
    hide Answered;
    match tls
    case Data(_) => BeforeAnswers(opcode, s, [EarlyRead(r, w)]);
    case Finished => BeforeAnswers(opcode, s.(earlyDone := true), [Accept(r, w)]); SameAnswers(opcode, s, s.(earlyDone := true));
    case NeedsRead => PendingAnswers(opcode, s, false, w);
    case NeedsWrite => PendingAnswers(opcode, s, true, w);
    case Refused => BeforeAnswers(opcode, s, [Close]);
  }

  lemma PendingAnswers(opcode: byte, s: Conn, interest: bool, w: bool)
    ensures Answered(opcode, Pending(s, interest, w)) == Answered(opcode, s)
  {
    SameAnswers(opcode, s, Watch(s, interest));
    BeforeAnswers(opcode, Watch(s, interest), if w then [FlushNow] else []);
  }

  lemma AcceptAnswers(opcode: byte, s: Conn, r: bool, w: bool, tls: Tls)
    ensures Answered(opcode, DoAccept(s, r, w, tls)) == Answered(opcode, s)
  {
    hide Answered;
    match tls
    case Finished =>
      var t := Watch(s.(tlsDone := true), false);
      SameAnswers(opcode, s, t);
      BeforeAnswers(opcode, t, [FlushNow] + Tail(r, w));
    case NeedsRead => PendingAnswers(opcode, s, false, w);
    case NeedsWrite => PendingAnswers(opcode, s, true, w);
    case _ => BeforeAnswers(opcode, s, [Close]);
  }

  lemma ReadAnswers(opcode: byte, c: Setup, s: Conn, tls: Tls)
    requires !tls.Data? || tls.bytes == []
    ensures Answered(opcode, DoRead(c, s, tls)) == Answered(opcode, s)
  {
    SameAnswers(opcode, s, Watch(s, true));
    BeforeAnswers(opcode, s, [Close]);
    hide Answered;
  }

  lemma PopAnswers(opcode: byte, s: Conn)
    requires s.todo != [] && QueuedBy(opcode, s.todo[0]) == []
    ensures Answered(opcode, s.(todo := s.todo[1..])) == Answered(opcode, s)
  {
    assert QueuedPayloads(opcode, s.todo) == [] + QueuedPayloads(opcode, s.todo[1..]);
  }

  lemma EarlyReadBatch(opcode: byte, c: Setup, s: Conn, r: bool, w: bool, tls: Tls)
    requires Reply(opcode) && Reading(s)
    ensures Answered(opcode, DoEarlyRead(c, s, r, w, tls)) == Answered(opcode, s) + Owed(opcode, BatchOf(c, s.parser, tls))
  {
    if tls.Data? && tls.bytes != [] {
      BatchAnswers(opcode, c, s, tls.bytes, EarlyNext(r, w));
      hide Inbound, Feed, Answered, Owed;
    } else {
      EarlyReadAnswers(opcode, c, s, r, w, tls);
      NothingOwed(opcode);
      hide DoEarlyRead, Answered, Owed;
    }
  }

  lemma ReadBatch(opcode: byte, c: Setup, s: Conn, tls: Tls)
    requires Reply(opcode) && Reading(s)
    ensures Answered(opcode, DoRead(c, s, tls)) == Answered(opcode, s) + Owed(opcode, BatchOf(c, s.parser, tls))
  {
    if tls.Data? && tls.bytes != [] {
      BatchAnswers(opcode, c, s, tls.bytes, ReadNext);
      hide Inbound, Feed, Answered, Owed;
    } else {
      ReadAnswers(opcode, c, s, tls);
      NothingOwed(opcode);
      hide DoRead, Answered, Owed;
    }
  }

  lemma HandshakeAnswers(opcode: byte, c: Setup, s: Conn, op: Op, tls: Tls, writes: nat -> WriteResult, timeIsUp: bool)
    requires ValidQueue(s.out.queue) && ReadingOp(op) && !Reads(op)
    ensures Answered(opcode, Do(c, s, op, tls, writes, timeIsUp)) == Answered(opcode, s)
  {
    hide Answered, DoAccept;
    match op
    case Accept(r, w) => AcceptAnswers(opcode, s, r, w, tls);
    case ReadNext => BeforeAnswers(opcode, s, [Read]);
    case EarlyNext(r, w) =>
      SameAnswers(opcode, s, s.(earlyDone := true));
      BeforeAnswers(opcode, s.(earlyDone := true), [Accept(r, w)]);
      BeforeAnswers(opcode, s, [EarlyRead(r, w)]);
  }

  lemma BatchStep(opcode: byte, c: Setup, s: Conn, op: Op, tls: Tls, writes: nat -> WriteResult, timeIsUp: bool)
    requires Reply(opcode) && Reading(s) && ValidQueue(s.out.queue) && Reads(op)
    ensures Answered(opcode, Do(c, s, op, tls, writes, timeIsUp)) == Answered(opcode, s) + Owed(opcode, BatchOf(c, s.parser, tls))
  {
    hide Answered, DoEarlyRead, DoRead, Owed, BatchOf, Reading;
    if op.EarlyRead? {
      EarlyReadBatch(opcode, c, s, op.readable, op.writable, tls);
    } else {
      ReadBatch(opcode, c, s, tls);
    }
  }

  /** Reading operations: exactly what the received frames are owed is added. */
  lemma ReadingAnswers(opcode: byte, c: Setup, s: Conn, tls: Tls, writes: nat -> WriteResult, timeIsUp: bool)
    requires Reply(opcode) && Ordered(s) && ValidQueue(s.out.queue) && s.todo != [] && ReadingOp(s.todo[0])
    ensures Answered(opcode, Next(c, s, Step(tls, writes, timeIsUp)))
         == Answered(opcode, s) + Owed(opcode, Batch(c, s, Step(tls, writes, timeIsUp)))
  {
    var s0, op := s.(todo := s.todo[1..]), s.todo[0];
    PopAnswers(opcode, s);
    ReadingOps(s);
    NothingOwed(opcode);
    hide Ordered, Reading, Answered, Owed, BatchOf, Do, ReadingOp;
    if Reads(op) {
      BatchStep(opcode, c, s0, op, tls, writes, timeIsUp);
    } else {
      HandshakeAnswers(opcode, c, s0, op, tls, writes, timeIsUp);
    }
  }

  /** Queueing moves an answer from the operations to the history. */
  lemma EnqueueAnswers(opcode: byte, s: Conn)
    requires s.todo != [] && s.todo[0].Enqueue?
    ensures Answered(opcode, DoEnqueue(s.(todo := s.todo[1..]), s.todo[0].item)) == Answered(opcode, s)
  {
    var q := s.todo[0].item;
    hide Push, QueuedBytes;
    assert (s.history + [q])[..|s.history|] == s.history;
    assert QueuedBy(opcode, s.todo[0]) == PayloadOf(opcode, q);
    Associate(HistoryPayloads(opcode, s.history), PayloadOf(opcode, q), QueuedPayloads(opcode, s.todo[1..]));
  }

  lemma FlushAnswers(opcode: byte, c: Setup, s: Conn, op: Op, tls: Tls, writes: nat -> WriteResult, timeIsUp: bool)
    requires ValidQueue(s.out.queue) && IsFlush(op)
    ensures Answered(opcode, Do(c, s, op, tls, writes, timeIsUp)) == Answered(opcode, s)
  {
    SameAnswers(opcode, s, DoFlush(s, writes));
    BeforeAnswers(opcode, DoFlush(s, writes), [Close]);
    hide Answered, Flush;
  }

  lemma PlainAnswers(opcode: byte, c: Setup, s: Conn, op: Op, tls: Tls, writes: nat -> WriteResult, timeIsUp: bool)
    requires Reply(opcode) && ValidQueue(s.out.queue) && !ReadingOp(op) && !IsFlush(op) && !op.Enqueue?
    ensures Answered(opcode, Do(c, s, op, tls, writes, timeIsUp)) == Answered(opcode, s)
  {
    if op.PingIfDue? {
      BeforeAnswers(opcode, s, [Enqueue(Message(ServerFrame(OP_PING, []))), WantOutput]);
      hide Answered;
    } else if op.CloseIfIdle? {
      BeforeAnswers(opcode, s, [Close]);
      hide Answered;
    }
  }

  lemma OtherAnswers(opcode: byte, c: Setup, s: Conn, tls: Tls, writes: nat -> WriteResult, timeIsUp: bool)
    requires Reply(opcode) && ValidQueue(s.out.queue) && s.todo != [] && !ReadingOp(s.todo[0])
    ensures Answered(opcode, Next(c, s, Step(tls, writes, timeIsUp))) == Answered(opcode, s)
  {
    var s0, op := s.(todo := s.todo[1..]), s.todo[0];
    if op.Enqueue? {
      EnqueueAnswers(opcode, s);
      hide Answered, DoEnqueue;
    } else {
      PopAnswers(opcode, s);
      hide Answered, Do;
      if IsFlush(op) {
        FlushAnswers(opcode, c, s0, op, tls, writes, timeIsUp);
      } else {
        PlainAnswers(opcode, c, s0, op, tls, writes, timeIsUp);
      }
    }
  }

  lemma {:induction false} PushAllAnswers(opcode: byte, s: Conn, replies: seq<WireFrame>)
    requires Reply(opcode) && forall f :: f in replies ==> DataOpcode(f.opcode)
    ensures Answered(opcode, PushAll(s, replies)) == Answered(opcode, s)
    decreases |replies|
  {
    if replies != [] {
      hide QueuedBytes;
      var q := Message(replies[0]);
      assert replies[0] in replies;
      assert (s.history + [q])[..|s.history|] == s.history;
      assert PayloadOf(opcode, q) == [];
      assert Answered(opcode, DoEnqueue(s, q)) == Answered(opcode, s);
      PushAllAnswers(opcode, DoEnqueue(s, q), replies[1..]);
    }
  }

  lemma PushAnswers(opcode: byte, c: Setup, s: Conn)
    requires Reply(opcode) && Ordered(s) && ValidQueue(s.out.queue) && s.lock.Some?
    ensures Answered(opcode, Next(c, s, WorkerPush)) == Answered(opcode, s)
  {
    PushAllAnswers(opcode, s, s.lock.value);
    hide PushAll, Answered;
    SameAnswers(opcode, PushAll(s, s.lock.value), Next(c, s, WorkerPush));
  }

  lemma HandlerQueuesNothing(opcode: byte, s: Conn, e: Event)
    requires Reply(opcode)
    ensures QueuedPayloads(opcode, Handler(s, e)) == []
  {
    NoneQueued(opcode, Handler(s, e));
  }

  lemma WakeAnswers(opcode: byte, c: Setup, s: Conn, e: Event)
    requires Reply(opcode) && ValidQueue(s.out.queue) && s.todo == []
    ensures Answered(opcode, Next(c, s, Wake(e))) == Answered(opcode, s)
  {
    HandlerQueuesNothing(opcode, s, e);
    hide Handler;
  }

  lemma OutsideAnswers(opcode: byte, c: Setup, s: Conn, a: Action)
    requires ValidQueue(s.out.queue) && !a.Step? && !a.WorkerPush? && !a.Wake?
    ensures Answered(opcode, Next(c, s, a)) == Answered(opcode, s)
  {
    SameAnswers(opcode, s, Next(c, s, a));
  }

  lemma NextAnswers(opcode: byte, c: Setup, s: Conn, a: Action)
    requires Reply(opcode) && Ordered(s) && ValidQueue(s.out.queue) && Enabled(s, a)
    ensures Answered(opcode, Next(c, s, a)) == Answered(opcode, s) + Owed(opcode, Batch(c, s, a))
  {
    NothingOwed(opcode);
    hide Next, Answered, Ordered, Owed, Feed, LegalReplies;
    match a
    case Step(tls, writes, timeIsUp) =>
      if ReadingOp(s.todo[0]) {
        ReadingAnswers(opcode, c, s, tls, writes, timeIsUp);
      } else {
        OtherAnswers(opcode, c, s, tls, writes, timeIsUp);
      }
    case WorkerPush => PushAnswers(opcode, c, s);
    case Wake(e) => WakeAnswers(opcode, c, s, e);
    case _ => OutsideAnswers(opcode, c, s, a);
  }

  // ---------------------------------------------------------------- whole runs

  lemma {:induction false} RunAnswers(opcode: byte, c: Setup, states: seq<Conn>, actions: seq<Action>, n: nat)
    requires Reply(opcode) && Run(c, states, actions) && n < |states|
    ensures Answered(opcode, states[n]) == AllOwed(opcode, c, states, actions, n)
    decreases n
  {
    if n == 0 {
      var noEarlyData :| states[0] == Fresh(noEarlyData);
    } else {
      RunAnswers(opcode, c, states, actions, n - 1);
      RunKeeps(c, states, actions, n - 1);
      StillValid(states[n - 1]);
      hide Answered, Owed, Batch, Next, Ordered, Woken, Conserved;
      NextAnswers(opcode, c, states[n - 1], actions[n - 1]);
    }
  }

  /**
   * Whenever the IO thread waits, the Pongs ever queued are one per Ping received, with its payload and in
   * order, and the Closes are one per Close, with the status code that answers it (counting in each
   * batch of received frames those up to its first Close).
   */
  lemma EverythingAnswered(c: Setup, states: seq<Conn>, actions: seq<Action>, n: nat)
    requires Run(c, states, actions) && n < |states| && states[n].todo == []
    ensures HistoryPayloads(OP_PONG, states[n].history) == AllOwed(OP_PONG, c, states, actions, n)
    ensures HistoryPayloads(OP_CLOSE, states[n].history) == AllOwed(OP_CLOSE, c, states, actions, n)
  {
    RunAnswers(OP_PONG, c, states, actions, n);
    RunAnswers(OP_CLOSE, c, states, actions, n);
    hide Run, AllOwed;
  }
}
