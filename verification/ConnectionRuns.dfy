/**
 * What every run of a connection keeps: no byte lost or reordered, nothing queued behind a Close that
 * should not be, no lost wakeup, and a client that reads exactly what was queued.
 */
module ConnectionRuns {
  import opened Bytes
  import opened FrameCodec
  import opened StreamParser
  import opened Fragmentation
  import opened Outbound
  import opened Connection
  import opened ConnectionOrder

  // ---------------------------------------------------------------- conservation

  lemma {:induction false} PushAllConserves(s: Conn, replies: seq<WireFrame>)
    requires Conserved(s.history, s.out)
    ensures Conserved(PushAll(s, replies).history, PushAll(s, replies).out)
    decreases |replies|
  {
    if replies != [] {
      hide Conserved, Push, QueuedBytes;
      PushConserves(s.history, s.out, Queued.Message(replies[0]));
      PushAllConserves(DoEnqueue(s, Queued.Message(replies[0])), replies[1..]);
    }
  }

  lemma InterestFree(history: seq<Queued>, out: Output)
    requires Conserved(history, out)
    ensures forall b :: Conserved(history, out.(interest := b))
  {
  }

  lemma InboundKeepsOutput(c: Setup, s: Conn, data: seq<byte>, next: Op)
    ensures Inbound(c, s, data, next).history == s.history && Inbound(c, s, data, next).out == s.out
  {
    hide Feed, FrameOps, UpgradeOps;
  }

  ghost predicate ConservedIn(s: Conn) {
    Conserved(s.history, s.out)
  }

  lemma AcceptConserves(s: Conn, r: bool, w: bool, tls: Tls)
    requires ConservedIn(s)
    ensures ConservedIn(DoAccept(s, r, w, tls))
  {
    InterestFree(s.history, s.out);
    hide Conserved, Tail;
  }

  lemma ReadingConserves(c: Setup, s: Conn, op: Op, tls: Tls, writes: nat -> WriteResult, timeIsUp: bool)
    requires ConservedIn(s) && ValidQueue(s.out.queue) && ReadingOp(op)
    ensures ConservedIn(Do(c, s, op, tls, writes, timeIsUp))
  {
    hide Conserved, DoEarlyRead, DoRead, DoAccept;
    if op.EarlyRead? {
      EarlyReadConserves(c, s, op.readable, op.writable, tls);
    } else if op.Read? {
      ReadConserves(c, s, tls);
    } else if op.Accept? {
      AcceptConserves(s, op.readable, op.writable, tls);
    }
  }

  lemma EarlyReadConserves(c: Setup, s: Conn, r: bool, w: bool, tls: Tls)
    requires ConservedIn(s)
    ensures ConservedIn(DoEarlyRead(c, s, r, w, tls))
  {
    InterestFree(s.history, s.out);
    hide Conserved, Inbound;
    if tls.Data? {
      InboundKeepsOutput(c, s, tls.bytes, EarlyNext(r, w));
    }
  }

  lemma ReadConserves(c: Setup, s: Conn, tls: Tls)
    requires ConservedIn(s)
    ensures ConservedIn(DoRead(c, s, tls))
  {
    InterestFree(s.history, s.out);
    hide Conserved, Inbound;
    if tls.Data? {
      InboundKeepsOutput(c, s, tls.bytes, ReadNext);
    }
  }

  lemma QueueingConserves(c: Setup, s: Conn, op: Op, tls: Tls, writes: nat -> WriteResult, timeIsUp: bool)
    requires ConservedIn(s) && ValidQueue(s.out.queue) && (op.Enqueue? || IsFlush(op))
    ensures ConservedIn(Do(c, s, op, tls, writes, timeIsUp))
  {
    hide Conserved, Flush, Push, QueuedBytes;
    if op.Enqueue? {
      PushConserves(s.history, s.out, op.item);
    } else {
      FlushConserves(s.history, s.out, writes);
    }
  }

  lemma DoConserves(c: Setup, s: Conn, op: Op, tls: Tls, writes: nat -> WriteResult, timeIsUp: bool)
    requires ConservedIn(s)
    ensures ValidQueue(s.out.queue)
    ensures ConservedIn(Do(c, s, op, tls, writes, timeIsUp))
  {
    if ReadingOp(op) {
      hide Do;
      ReadingConserves(c, s, op, tls, writes, timeIsUp);
    } else if op.Enqueue? || IsFlush(op) {
      hide Do;
      QueueingConserves(c, s, op, tls, writes, timeIsUp);
    } else {
      InterestFree(s.history, s.out);
      hide Conserved;
    }
  }

  lemma StepConserves(c: Setup, s: Conn, tls: Tls, writes: nat -> WriteResult, timeIsUp: bool)
    requires ConservedIn(s)
    ensures ValidQueue(s.out.queue) && ConservedIn(Next(c, s, Step(tls, writes, timeIsUp)))
  {
    hide Do, Conserved;
    if s.todo != [] {
      DoConserves(c, s.(todo := s.todo[1..]), s.todo[0], tls, writes, timeIsUp);
    } else {
      StillValid(s);
    }
  }

  lemma StillValid(s: Conn)
    requires ConservedIn(s)
    ensures ValidQueue(s.out.queue)
  {
  }

  lemma PushConservesAll(c: Setup, s: Conn)
    requires ConservedIn(s) && ValidQueue(s.out.queue)
    ensures ConservedIn(Next(c, s, WorkerPush))
  {
    hide Conserved, PushAll;
    if s.lock.Some? {
      PushAllConserves(s, s.lock.value);
    }
  }

  /** Steps that neither run an operation nor queue anything. */
  lemma OutsideConserves(c: Setup, s: Conn, a: Action)
    requires ConservedIn(s) && ValidQueue(s.out.queue) && !a.Step? && !a.WorkerPush?
    ensures ConservedIn(Next(c, s, a))
  {
    InterestFree(s.history, s.out);
    hide Conserved, Handler;
  }

  lemma NextConserves(c: Setup, s: Conn, a: Action)
    requires Conserved(s.history, s.out)
    ensures ValidQueue(s.out.queue)
    ensures Conserved(Next(c, s, a).history, Next(c, s, a).out)
  {
    hide Next, Conserved;
    StillValid(s);
    match a
    case Step(tls, writes, timeIsUp) => StepConserves(c, s, tls, writes, timeIsUp);
    case WorkerPush => PushConservesAll(c, s);
    case _ => OutsideConserves(c, s, a);
  }

  // ---------------------------------------------------------------- no lost wakeup

  /** Something will make the IO thread look at the queue again. */
  predicate WillLook(s: Conn) {
    || s.bell > 0
    || s.out.interest
    || s.raising + s.ringing > 0
    || FlushPending(s.todo)
    || s.out.lastFlush == BlockedOnRead
    || s.out.lastFlush == FlushEnd.Broken
  }

  ghost predicate Woken(s: Conn) {
    s.fdOpen && s.tlsDone && !s.closing && s.out.queue != [] ==> WillLook(s)
  }

  lemma {:induction false} PendingBehind(ops: seq<Op>, rest: seq<Op>)
    requires FlushPending(rest)
    ensures FlushPending(ops + rest)
  {
    if ops == [] {
      assert ops + rest == rest;
    } else {
      PendingBehind(ops[1..], rest);
      assert (ops + rest)[1..] == ops[1..] + rest;
    }
  }

  /** An operation put in front of the others hides no flush. */
  lemma BeforeWoken(s: Conn, ops: seq<Op>)
    requires Woken(s)
    ensures Woken(Before(ops, s))
  {
    if FlushPending(s.todo) {
      PendingBehind(ops, s.todo);
    }
  }

  lemma FlushedWoken(s: Conn, writes: nat -> WriteResult)
    requires ValidQueue(s.out.queue)
    ensures Woken(DoFlush(s, writes))
  {
    hide WriteLoop;
  }

  lemma InboundWoken(c: Setup, s: Conn, data: seq<byte>, next: Op)
    requires Woken(s)
    ensures Woken(Inbound(c, s, data, next))
  {
    hide Feed, FrameOps, UpgradeOps, WillLook;
    if s.parser.Live? {
      var r := Feed(c, s.parser.phase, data);
      var s1 := s.(parser := r.status);
      assert Woken(s1) by {
        assert WillLook(s1) == WillLook(s) by { SameLook(s, s1); }
      }
      BeforeWoken(s1, [Close]);
      BeforeWoken(s1, UpgradeOps(r.accepted) + FrameOps(r.frames) + [next]);
    }
  }

  lemma SameLook(s: Conn, s': Conn)
    requires s'.bell == s.bell && s'.out == s.out && s'.raising == s.raising && s'.ringing == s.ringing && s'.todo == s.todo
    ensures WillLook(s') == WillLook(s)
  {
  }

  /** Reading operations, with the operation already taken off the list. */
  lemma ReadingWoken(c: Setup, s: Conn, op: Op, tls: Tls, writes: nat -> WriteResult, timeIsUp: bool)
    requires Woken(s) && ReadingOp(op) && ValidQueue(s.out.queue) && (op.Read? || op.ReadNext? || !s.tlsDone)
    ensures Woken(Do(c, s, op, tls, writes, timeIsUp))
  {
    hide Inbound;
    if tls.Data? {
      InboundWoken(c, s, tls.bytes, if op.EarlyRead? then EarlyNext(op.readable, op.writable) else ReadNext);
    }
    BeforeWoken(s, [Close]);
    BeforeWoken(s, [Read]);
    if op.Accept? {
      assert FlushPending([FlushNow] + Tail(op.readable, op.writable) + s.todo);
    }
  }

  lemma PopWoken(s: Conn)
    requires Woken(s) && s.todo != [] && !IsFlush(s.todo[0])
    ensures Woken(s.(todo := s.todo[1..]))
  {
  }

  lemma PendingAfter(s: Conn)
    requires InOrder(s) && s.todo != [] && (s.todo[0].Enqueue? || s.todo[0].DrainBell? || s.todo[0].PingIfDue?)
    ensures FlushPending(s.todo[1..])
  {
  }

  lemma FlushWoken(c: Setup, s: Conn, op: Op, tls: Tls, writes: nat -> WriteResult, timeIsUp: bool)
    requires ValidQueue(s.out.queue) && IsFlush(op)
    ensures Woken(Do(c, s, op, tls, writes, timeIsUp))
  {
    FlushedWoken(s, writes);
    hide Flush, WillLook;
    BeforeWoken(DoFlush(s, writes), [Close]);
  }

  lemma PlainWoken(c: Setup, s: Conn, op: Op, tls: Tls, writes: nat -> WriteResult, timeIsUp: bool)
    requires ValidQueue(s.out.queue) && Woken(s) && !ReadingOp(op) && !IsFlush(op)
    requires op.Enqueue? || op.DrainBell? || op.PingIfDue? ==> FlushPending(s.todo)
    ensures Woken(Do(c, s, op, tls, writes, timeIsUp))
  {
    hide QueuedBytes;
    if op.CloseIfIdle? {
      BeforeWoken(s, [Close]);
    } else if op.PingIfDue? {
      BeforeWoken(s, [Enqueue(Queued.Message(ServerFrame(OP_PING, []))), WantOutput]);
    }
  }

  lemma OtherWoken(c: Setup, s: Conn, tls: Tls, writes: nat -> WriteResult, timeIsUp: bool)
    requires Woken(s) && ValidQueue(s.out.queue) && InOrder(s) && s.todo != [] && !ReadingOp(s.todo[0])
    ensures Woken(Do(c, s.(todo := s.todo[1..]), s.todo[0], tls, writes, timeIsUp))
  {
    if s.todo[0].Enqueue? || s.todo[0].DrainBell? || s.todo[0].PingIfDue? {
      PendingAfter(s);
    }
    hide InOrder, Do;
    if IsFlush(s.todo[0]) {
      FlushWoken(c, s.(todo := s.todo[1..]), s.todo[0], tls, writes, timeIsUp);
    } else {
      PopWoken(s);
      PlainWoken(c, s.(todo := s.todo[1..]), s.todo[0], tls, writes, timeIsUp);
    }
  }

  lemma {:induction false} PushAllOnlyQueues(s: Conn, replies: seq<WireFrame>)
    ensures PushAll(s, replies) == s.(history := PushAll(s, replies).history, out := PushAll(s, replies).out)
    decreases |replies|
  {
    if replies != [] {
      PushAllOnlyQueues(DoEnqueue(s, Queued.Message(replies[0])), replies[1..]);
    }
  }

  lemma StepWoken(c: Setup, s: Conn, tls: Tls, writes: nat -> WriteResult, timeIsUp: bool)
    requires Woken(s) && Ordered(s) && ValidQueue(s.out.queue) && s.todo != []
    ensures Woken(Next(c, s, Step(tls, writes, timeIsUp)))
  {
    hide Sound, Do, Orderly, Woken;
    if ReadingOp(s.todo[0]) {
      NoFlush(s.todo[0]);
      PopWoken(s);
      ReadingOps(s);
      ReadingWoken(c, s.(todo := s.todo[1..]), s.todo[0], tls, writes, timeIsUp);
    } else {
      OtherWoken(c, s, tls, writes, timeIsUp);
    }
  }

  lemma NoFlush(op: Op)
    requires ReadingOp(op)
    ensures !IsFlush(op)
  {
  }

  lemma PushWoken(c: Setup, s: Conn)
    requires ValidQueue(s.out.queue) && s.lock.Some?
    ensures Woken(Next(c, s, WorkerPush))
  {
    PushAllOnlyQueues(s, s.lock.value);
    hide PushAll, FlushPending;
  }

  lemma OutsideWoken(c: Setup, s: Conn, a: Action)
    requires Woken(s) && ValidQueue(s.out.queue) && Enabled(s, a) && !a.Step? && !a.WorkerPush?
    ensures Woken(Next(c, s, a))
  {
    hide LegalReplies, Handler;
    if a.Wake? {
      assert !FlushPending(s.todo);
    }
  }

  lemma NextWoken(c: Setup, s: Conn, a: Action)
    requires Woken(s) && Ordered(s) && Conserved(s.history, s.out) && Enabled(s, a)
    ensures ValidQueue(s.out.queue) && Woken(Next(c, s, a))
  {
    StillValid(s);
    hide Next, Woken, Ordered, Conserved, LegalReplies;
    match a
    case Step(tls, writes, timeIsUp) => StepWoken(c, s, tls, writes, timeIsUp);
    case WorkerPush => PushWoken(c, s);
    case _ => OutsideWoken(c, s, a);
  }

  // ---------------------------------------------------------------- runs

  lemma {:induction false} RunKeeps(c: Setup, states: seq<Conn>, actions: seq<Action>, n: nat)
    requires Run(c, states, actions) && n < |states|
    ensures Ordered(states[n]) && Conserved(states[n].history, states[n].out) && Woken(states[n])
    decreases n
  {
    hide Ordered, Conserved, Woken, Next;
    if n == 0 {
      var noEarlyData :| states[0] == Fresh(noEarlyData);
      FreshKeeps(noEarlyData);
    } else {
      RunKeeps(c, states, actions, n - 1);
      NextConserves(c, states[n - 1], actions[n - 1]);
      NextOrdered(c, states[n - 1], actions[n - 1]);
      NextWoken(c, states[n - 1], actions[n - 1]);
    }
  }

  lemma FreshKeeps(noEarlyData: bool)
    ensures Ordered(Fresh(noEarlyData)) && Conserved(Fresh(noEarlyData).history, Fresh(noEarlyData).out)
    ensures Woken(Fresh(noEarlyData))
  {
    FreshOrdered(noEarlyData);
  }

  /** Bytes sent and bytes waiting are together everything ever queued, in order. */
  lemma NoByteLost(c: Setup, states: seq<Conn>, actions: seq<Action>, n: nat)
    requires Run(c, states, actions) && n < |states|
    ensures ValidQueue(states[n].out.queue)
    ensures states[n].out.sent + Unsent(states[n].out.queue) == HistoryBytes(states[n].history)
  {
    RunKeeps(c, states, actions, n);
  }

  /** The 101 is queued first and once; what follows are sound frames, and no text or binary frame behind a Close. */
  lemma QueueDiscipline(c: Setup, states: seq<Conn>, actions: seq<Action>, n: nat)
    requires Run(c, states, actions) && n < |states|
    ensures UpgradeFirst(states[n].history) && NoDataAfterClose(states[n].history)
  {
    RunKeeps(c, states, actions, n);
  }

  /**
   * Whenever the IO thread waits while an open, finished, non-closing connection has something to
   * send, it has been woken, is watching for writability, is about to be woken, or its last flush stopped
   * on a condition that only the next timer tick retries.
   */
  lemma NoLostWakeup(c: Setup, states: seq<Conn>, actions: seq<Action>, n: nat)
    requires Run(c, states, actions) && n < |states|
    requires states[n].todo == [] && states[n].fdOpen && states[n].tlsDone && !states[n].closing && states[n].out.queue != []
    ensures
      || states[n].bell > 0
      || states[n].out.interest
      || states[n].raising + states[n].ringing > 0
      || states[n].out.lastFlush in {BlockedOnRead, FlushEnd.Broken}
  {
    RunKeeps(c, states, actions, n);
  }

  // ---------------------------------------------------------------- the timer retries

  lemma NothingUnsent(o: Output)
    requires o.queue == []
    ensures ValidQueue(o.queue) && o.sent + Unsent(o.queue) == o.sent
  {
  }

  /** The flush of a tick, with a TLS layer that takes everything it is offered. */
  lemma FlushDrains(c: Setup, s: Conn, tls: Tls, writes: nat -> WriteResult, timeIsUp: bool)
    requires Conserved(s.history, s.out) && s.fdOpen && s.tlsDone && !s.closing
    requires s.todo != [] && s.todo[0] == FlushUnlessClosing
    requires forall k :: writes(k).Wrote?
    ensures
      var t := Next(c, s, Step(tls, writes, timeIsUp));
      t.out.queue == [] && t.history == s.history && t.out.sent == HistoryBytes(s.history)
  {
    hide WriteLoop, Unsent, HistoryBytes;
    WriteLoopDrains(s.out.queue, s.out.sent, writes, 0);
    FlushConserves(s.history, s.out, writes);
    NothingUnsent(Flush(s.out, writes));
  }

  const PING: Queued := Queued.Message(ServerFrame(OP_PING, []))

  /** The connection when a tick reaches its flush: a Ping is queued before if one is due. */
  ghost function AtTickFlush(s: Conn, due: bool): Conn {
    var s' := s.(todo := [FlushUnlessClosing, CloseIfIdle]);
    if due then Watch(DoEnqueue(s', PING), true) else s'
  }

  lemma PushValid(o: Output, data: seq<byte>)
    requires ValidQueue(o.queue)
    ensures ValidQueue(Push(o, data).queue)
  {
  }

  /** A tick queues a Ping exactly if one is due, the upgrade and the handshake are done, and the connection is not closing. */
  lemma PingExactly(c: Setup, s: Conn, tls: Tls, writes: nat -> WriteResult, timeIsUp: bool)
    requires ValidQueue(s.out.queue) && s.todo == []
    ensures
      var t := Next(c, Next(c, s, Wake(Tick)), Step(tls, writes, timeIsUp));
      t.todo == (if timeIsUp && s.tlsDone && s.upgraded && !s.closing then [Enqueue(PING), WantOutput] else [])
              + [FlushUnlessClosing, CloseIfIdle]
  {
    hide QueuedBytes, Push, Flush, ServerFrame;
    var s0 := Next(c, s, Wake(Tick));
    assert s0.todo[0] == PingIfDue && s0.todo[1..] == [FlushUnlessClosing, CloseIfIdle];
    assert [] + [FlushUnlessClosing, CloseIfIdle] == [FlushUnlessClosing, CloseIfIdle];
  }

  /** Up to its flush, a tick takes the IO thread one operation, or three if a Ping is due. */
  lemma TickReachesFlush(c: Setup, s: Conn, tls: Tls, writes: nat -> WriteResult, timeIsUp: bool)
    requires Conserved(s.history, s.out) && s.todo == [] && s.fdOpen && s.tlsDone && !s.closing
    ensures
      var step := Step(tls, writes, timeIsUp);
      var s1 := Next(c, Next(c, s, Wake(Tick)), step);
      if timeIsUp && s.upgraded then
        && ValidQueue(s1.out.queue) && ValidQueue(Next(c, s1, step).out.queue)
        && Next(c, Next(c, s1, step), step) == AtTickFlush(s, true)
      else s1 == AtTickFlush(s, false)
  {
    hide QueuedBytes, HistoryBytes, Unsent, Push, Flush, ServerFrame, Conserved;
    StillValid(s);
    PushValid(s.out, QueuedBytes(PING));
    var step := Step(tls, writes, timeIsUp);
    var s0 := Next(c, s, Wake(Tick));
    var s1 := Next(c, s0, step);
    assert s0.todo[0] == PingIfDue && s0.todo[1..] == [FlushUnlessClosing, CloseIfIdle];
    if timeIsUp && s.upgraded {
      assert s1.todo == [Enqueue(PING), WantOutput, FlushUnlessClosing, CloseIfIdle];
      var s2 := Next(c, s1, step);
      assert s2.todo == [WantOutput, FlushUnlessClosing, CloseIfIdle];
    }
  }

  lemma TickFlushConserved(s: Conn, due: bool)
    requires Conserved(s.history, s.out)
    ensures Conserved(AtTickFlush(s, due).history, AtTickFlush(s, due).out)
  {
    hide Conserved, QueuedBytes, Push;
    if due {
      PushConserves(s.history, s.out, PING);
      InterestFree(s.history + [PING], Push(s.out, QueuedBytes(PING)));
    }
  }

  /**
   * A tick that finds the TLS layer willing sends everything that is queued, and the Ping as well on
   * the ticks on which one is due.
   */
  lemma TickRetries(c: Setup, s: Conn, tls: Tls, writes: nat -> WriteResult, timeIsUp: bool)
    requires Conserved(s.history, s.out) && s.todo == [] && s.fdOpen && s.tlsDone && !s.closing
    requires forall k :: writes(k).Wrote?
    ensures
      var due := timeIsUp && s.upgraded;
      && ValidQueue(AtTickFlush(s, due).out.queue)
      && var t := Next(c, AtTickFlush(s, due), Step(tls, writes, timeIsUp));
         t.out.queue == [] && t.history == s.history + (if due then [PING] else []) && t.out.sent == HistoryBytes(t.history)
  {
    var due := timeIsUp && s.upgraded;
    TickFlushConserved(s, due);
    FlushDrains(c, AtTickFlush(s, due), tls, writes, timeIsUp);
    hide Next, Conserved;
  }

  // ---------------------------------------------------------------- from the queue to the client

  function FramesOf(h: seq<Queued>): (fs: seq<WireFrame>)
    requires UpgradeFirst(h) && h != []
    ensures |fs| == |h| - 1
  {
    seq(|h| - 1, i requires 0 <= i < |h| - 1 => assert h[i + 1].Message?; h[i + 1].frame)
  }

  lemma {:induction false} HistoryOnTheWire(h: seq<Queued>)
    requires UpgradeFirst(h) && h != []
    ensures HistoryBytes(h) == h[0].response + WriteFrames(FramesOf(h))
    decreases |h|
  {
    hide FrameBytes;
    var last := |h| - 1;
    if last == 0 {
      assert h[..0] == [] && [] + h[0].response == h[0].response;
      assert FramesOf(h) == [] && h[0].response + [] == h[0].response;
    } else {
      HistoryOnTheWire(h[..last]);
      assert FramesOf(h) == FramesOf(h[..last]) + [h[last].frame];
      WriteFramesAppend(FramesOf(h[..last]), h[last].frame);
      Associate(h[0].response, WriteFrames(FramesOf(h[..last])), FrameBytes(h[last].frame));
    }
  }

  lemma OutgoingIsWhole(c: Config, f: WireFrame)
    requires Outgoing(f) && !c.requireMask && |f.payload| <= c.maxPayload
    ensures Whole(c, f)
  {
  }

  /** Every frame queued behind the 101 fits the receiver. */
  ghost predicate Fits(client: Setup, h: seq<Queued>) {
    && !client.wire.requireMask
    && forall i :: 0 <= i < |h| && h[i].Message? ==> |h[i].frame.payload| <= client.wire.maxPayload
  }

  /** `sent` begins with the 101 as far as it goes; what follows is cut off the written frames. */
  lemma SplitSent(sent: seq<byte>, unsent: seq<byte>, response: seq<byte>, frames: seq<byte>)
    requires sent + unsent == response + frames
    ensures |sent| < |response| ==> sent <= response
    ensures |sent| >= |response| ==> sent[..|response|] == response && sent[|response|..] + unsent == frames
  {
    if |sent| < |response| {
      assert sent == (sent + unsent)[..|sent|] == (response + frames)[..|sent|] == response[..|sent|];
    } else {
      assert sent[..|response|] == (sent + unsent)[..|response|] == (response + frames)[..|response|] == response;
      assert sent[|response|..] + unsent == (sent + unsent)[|response|..] == (response + frames)[|response|..] == frames;
    }
  }

  lemma FramesFit(client: Setup, h: seq<Queued>)
    requires UpgradeFirst(h) && h != [] && Fits(client, h)
    ensures forall f :: f in FramesOf(h) ==> Whole(client.wire, f)
  {
    var fs := FramesOf(h);
    hide Whole, FramesOf;
    forall f | f in fs
      ensures Whole(client.wire, f)
    {
      var i :| 0 <= i < |fs| && fs[i] == f;
      FrameAt(h, i);
      OutgoingIsWhole(client.wire, f);
    }
  }

  lemma FrameAt(h: seq<Queued>, i: nat)
    requires UpgradeFirst(h) && h != [] && i < |h| - 1
    ensures h[i + 1].Message? && FramesOf(h)[i] == h[i + 1].frame && Outgoing(h[i + 1].frame)
  {
  }

  /** A client fed the first part of written frames sees a prefix of them, and all if there is no rest. */
  lemma ClientSees(client: Setup, fs: seq<WireFrame>, chunks: seq<seq<byte>>, unsent: seq<byte>)
    requires forall f :: f in fs ==> Whole(client.wire, f)
    requires Concat(chunks) + unsent == WriteFrames(fs)
    ensures
      var r := FeedAll(client, Open([], Idle), chunks);
      r.status.Live? && r.frames <= Shown(fs) && (unsent == [] ==> r.frames == Shown(fs))
  {
    hide FeedAll, Whole, WriteFrames, Shown;
    TruncatedStream(client, fs, chunks, unsent);
    if unsent == [] {
      assert Concat(chunks) == Concat(chunks) + [];
      WholeFramesRoundTrip(client, fs, chunks);
    }
  }

  /**
   * Wire end to end: for every run and every pattern of partial writes, the bytes sent start with the
   * 101, and what follows, however it is cut on its way, is decoded by a client into a prefix of the
   * queued frames, opcodes and payloads intact; into all of them once the queue is empty.
   * (`UpgradeFirst` holds in every run, by `QueueDiscipline`; it is what gives `FramesOf` its meaning.)
   */
  lemma WireEndToEnd(c: Setup, states: seq<Conn>, actions: seq<Action>, n: nat, client: Setup, chunks: seq<seq<byte>>)
    requires Run(c, states, actions) && n < |states|
    requires UpgradeFirst(states[n].history) && states[n].history != [] && Fits(client, states[n].history)
    requires |states[n].out.sent| >= |states[n].history[0].response|
    requires Concat(chunks) == states[n].out.sent[|states[n].history[0].response|..]
    ensures states[n].out.sent[..|states[n].history[0].response|] == states[n].history[0].response
    ensures
      var r := FeedAll(client, Open([], Idle), chunks);
      var queued := Shown(FramesOf(states[n].history));
      r.status.Live? && r.frames <= queued && (states[n].out.queue == [] ==> r.frames == queued)
  {
    var s := states[n];
    NoByteLost(c, states, actions, n);
    HistoryOnTheWire(s.history);
    var fs := FramesOf(s.history);
    FramesFit(client, s.history);
    hide Run, HistoryBytes, FeedAll, Whole, WriteFrames, UpgradeFirst, Fits, FramesOf, Unsent, Shown, ValidQueue;
    SplitSent(s.out.sent, Unsent(s.out.queue), s.history[0].response, WriteFrames(fs));
    if s.out.queue == [] {
      NothingUnsent(s.out);
    }
    ClientSees(client, fs, chunks, Unsent(s.out.queue));
  }

  /** Before the 101 is out, what has been sent is a prefix of it. */
  lemma UpgradeOnTheWire(c: Setup, states: seq<Conn>, actions: seq<Action>, n: nat)
    requires Run(c, states, actions) && n < |states| && states[n].out.sent != []
    ensures states[n].history != [] && states[n].history[0].Upgrade?
    ensures states[n].out.sent <= states[n].history[0].response || states[n].history[0].response <= states[n].out.sent
  {
    var s := states[n];
    NoByteLost(c, states, actions, n);
    QueueDiscipline(c, states, actions, n);
    HistoryOnTheWire(s.history);
    SplitSent(s.out.sent, Unsent(s.out.queue), s.history[0].response, WriteFrames(FramesOf(s.history)));
  }
}
