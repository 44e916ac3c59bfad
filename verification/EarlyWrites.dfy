/**
 * When the server writes application data before the TLS handshake is done. It is meant never to,
 * but one branch flushes a writable connection whose handshake is still pending, without asking.
 */
module EarlyWrites {
  import opened Bytes
  import opened FrameCodec
  import opened StreamParser
  import opened Outbound
  import opened Connection
  import opened ConnectionOrder
  import opened ConnectionRuns
  import opened UpgradeRequest

  // ---------------------------------------------------------------- when SSL_write is called

  /** How often a flush of this queue calls `SSL_write`. */
  function WriteCount(queue: seq<Item>, writes: nat -> WriteResult, k: nat): nat
    requires ValidQueue(queue)
    decreases Size(queue)
  {
    if queue == [] then 0
    else if queue[0].offset == |queue[0].data| then WriteCount(queue[1..], writes, k)
    else if writes(k).Wrote? then
      var m := Taken(writes(k).n, |queue[0].data| - queue[0].offset);
      AdvanceUnsent(queue, m);
      1 + WriteCount(Advance(queue, m), writes, k + 1)
    else 1
  }

  /** Whether an operation flushes in this state. */
  predicate Flushes(s: Conn, op: Op) {
    s.fdOpen && match op
      case FlushIfTls => s.tlsDone
      case FlushNow => true
      case FlushThenClose => true
      case FlushUnlessClosing => s.tlsDone && !s.closing
      case _ => false
  }

  /** How often a step calls `SSL_write`. */
  function CallsMade(s: Conn, a: Action): nat
    requires ValidQueue(s.out.queue)
  {
    if a.Step? && s.todo != [] && Flushes(s, s.todo[0]) then WriteCount(s.out.queue, a.writes, 0) else 0
  }

  /** The branch of a handshake that has to wait: it flushes a writable connection with something to send. */
  ghost predicate CallsEarly(s: Conn, a: Action) {
    && a.Step? && s.todo != [] && s.todo[0].FlushNow? && s.fdOpen
    && ValidQueue(s.out.queue) && Unsent(s.out.queue) != []
  }

  /** The same, and the TLS layer takes something. */
  ghost predicate FlushesEarly(s: Conn, a: Action) {
    CallsEarly(s, a) && a.writes(0).Wrote?
  }

  lemma {:induction false} CountPositive(queue: seq<Item>, writes: nat -> WriteResult, k: nat)
    requires ValidQueue(queue)
    ensures WriteCount(queue, writes, k) > 0 <==> Unsent(queue) != []
    decreases Size(queue)
  {
    if queue != [] {
      if queue[0].offset == |queue[0].data| {
        CountPositive(queue[1..], writes, k);
        assert queue[0].data[queue[0].offset..] == [];
      } else {
        assert |queue[0].data[queue[0].offset..]| > 0;
      }
    }
  }

  lemma {:induction false} MoreSent(queue: seq<Item>, sent: seq<byte>, writes: nat -> WriteResult, k: nat)
    requires ValidQueue(queue)
    ensures |WriteLoop(queue, sent, writes, k).1| >= |sent|
    decreases Size(queue)
  {
    if queue != [] {
      if queue[0].offset == |queue[0].data| {
        MoreSent(queue[1..], sent, writes, k);
      } else if writes(k).Wrote? {
        var m := Taken(writes(k).n, |queue[0].data| - queue[0].offset);
        AdvanceUnsent(queue, m);
        MoreSent(Advance(queue, m), sent + Piece(queue, m), writes, k + 1);
      }
    }
  }

  /** A flush sends something exactly if there is something to send and the first write takes some of it. */
  lemma {:induction false} SendsIf(queue: seq<Item>, sent: seq<byte>, writes: nat -> WriteResult, k: nat)
    requires ValidQueue(queue)
    ensures
      var sent' := WriteLoop(queue, sent, writes, k).1;
      if Unsent(queue) != [] && writes(k).Wrote? then |sent'| > |sent| else sent' == sent
    decreases Size(queue)
  {
    if queue != [] {
      if queue[0].offset == |queue[0].data| {
        SkipFinished(queue, sent, writes, k);
        SendsIf(queue[1..], sent, writes, k);
      } else {
        assert |queue[0].data[queue[0].offset..]| > 0;
        if writes(k).Wrote? {
          var m := Taken(writes(k).n, |queue[0].data| - queue[0].offset);
          hide Advance, WriteLoop;
          WriteLoopTurn(queue, sent, writes, k, m);
          MoreSent(Advance(queue, m), sent + Piece(queue, m), writes, k + 1);
        }
      }
    }
  }

  // ---------------------------------------------------------------- the exact condition

  /** The flush that ends a handler comes only after the handshake. */
  ghost predicate NoTail(s: Conn) {
    !s.tlsDone ==> FlushThenClose !in s.todo
  }

  lemma {:induction false} FrameOpsNoTail(frames: seq<Frame>)
    ensures FlushThenClose !in FrameOps(frames)
  {
    if frames != [] {
      FrameOpsNoTail(frames[1..]);
    }
  }

  lemma InboundNoTail(c: Setup, s: Conn, data: seq<byte>, next: Op)
    requires FlushThenClose !in s.todo && next != FlushThenClose
    ensures FlushThenClose !in Inbound(c, s, data, next).todo
  {
    if s.parser.Live? {
      var r := Feed(c, s.parser.phase, data);
      FrameOpsNoTail(r.frames);
      UpgradeOpsNoTail(r.accepted);
      hide Feed, FrameOps, UpgradeOps;
    }
  }

  lemma UpgradeOpsNoTail(accepted: Option<seq<byte>>)
    ensures FlushThenClose !in UpgradeOps(accepted)
  {
  }

  /** Before the end of the handshake: what a step may do to the bytes sent, and what it leaves to do. */
  ghost predicate Quiet(s: Conn, s': Conn) {
    && (s.tlsDone ==> s'.tlsDone)
    && (!s'.tlsDone ==> s'.out.sent == s.out.sent && (FlushThenClose !in s.todo ==> FlushThenClose !in s'.todo))
  }

  lemma EarlyReadQuiet(c: Setup, s: Conn, r: bool, w: bool, tls: Tls)
    ensures Quiet(s, DoEarlyRead(c, s, r, w, tls))
  {
    hide Inbound;
    if tls.Data? {
      InboundKeepsOutput(c, s, tls.bytes, EarlyNext(r, w));
      InboundStays(c, s, tls.bytes, EarlyNext(r, w));
      if FlushThenClose !in s.todo {
        InboundNoTail(c, s, tls.bytes, EarlyNext(r, w));
      }
    }
  }

  lemma ReadQuiet(c: Setup, s: Conn, tls: Tls)
    ensures Quiet(s, DoRead(c, s, tls))
  {
    hide Inbound;
    if tls.Data? {
      InboundKeepsOutput(c, s, tls.bytes, ReadNext);
      InboundStays(c, s, tls.bytes, ReadNext);
      if FlushThenClose !in s.todo {
        InboundNoTail(c, s, tls.bytes, ReadNext);
      }
    }
  }

  lemma AcceptQuiet(s: Conn, r: bool, w: bool, tls: Tls)
    ensures Quiet(s, DoAccept(s, r, w, tls))
  {
  }

  lemma ReadingQuiet(c: Setup, s: Conn, op: Op, tls: Tls, writes: nat -> WriteResult, timeIsUp: bool)
    requires ValidQueue(s.out.queue) && ReadingOp(op)
    ensures Quiet(s, Do(c, s, op, tls, writes, timeIsUp))
  {
    hide DoEarlyRead, DoRead, DoAccept;
    if op.EarlyRead? {
      EarlyReadQuiet(c, s, op.readable, op.writable, tls);
    } else if op.Read? {
      ReadQuiet(c, s, tls);
    } else if op.Accept? {
      AcceptQuiet(s, op.readable, op.writable, tls);
    }
  }

  /** Operations that do not flush in this state. */
  lemma PlainQuiet(c: Setup, s: Conn, op: Op, tls: Tls, writes: nat -> WriteResult, timeIsUp: bool)
    requires ValidQueue(s.out.queue) && !ReadingOp(op) && !Flushes(s, op)
    ensures Quiet(s, Do(c, s, op, tls, writes, timeIsUp))
  {
    hide Flush, QueuedBytes;
  }

  lemma FlushNowSends(c: Setup, s: Conn, tls: Tls, writes: nat -> WriteResult, timeIsUp: bool)
    requires ValidQueue(s.out.queue) && s.fdOpen
    ensures
      var s' := Do(c, s, FlushNow, tls, writes, timeIsUp);
      && s'.tlsDone == s.tlsDone && s'.todo == s.todo
      && if Unsent(s.out.queue) != [] && writes(0).Wrote? then |s'.out.sent| > |s.out.sent| else s'.out.sent == s.out.sent
  {
    SendsIf(s.out.queue, s.out.sent, writes, 0);
    hide WriteLoop;
  }

  /** One step that does not end the handshake sends something exactly if it is an early flush. */
  ghost predicate ExactlyThen(s: Conn, a: Action, s': Conn) {
    && !s.tlsDone && NoTail(s')
    && if FlushesEarly(s, a) then |s'.out.sent| > |s.out.sent| else s'.out.sent == s.out.sent
  }

  lemma StepExact(c: Setup, s: Conn, tls: Tls, writes: nat -> WriteResult, timeIsUp: bool)
    requires NoTail(s) && ValidQueue(s.out.queue) && s.todo != []
    requires !Next(c, s, Step(tls, writes, timeIsUp)).tlsDone
    ensures ExactlyThen(s, Step(tls, writes, timeIsUp), Next(c, s, Step(tls, writes, timeIsUp)))
  {
    hide Do;
    var s0, op := s.(todo := s.todo[1..]), s.todo[0];
    assert op in s.todo && forall x :: x in s0.todo ==> x in s.todo;
    if ReadingOp(op) {
      ReadingQuiet(c, s0, op, tls, writes, timeIsUp);
    } else if !Flushes(s0, op) {
      PlainQuiet(c, s0, op, tls, writes, timeIsUp);
    } else if op.FlushNow? {
      FlushNowSends(c, s0, tls, writes, timeIsUp);
    } else {
      FlushStays(c, s0, op, tls, writes, timeIsUp);
    }
  }

  lemma FlushStays(c: Setup, s: Conn, op: Op, tls: Tls, writes: nat -> WriteResult, timeIsUp: bool)
    requires ValidQueue(s.out.queue) && IsFlush(op)
    ensures Do(c, s, op, tls, writes, timeIsUp).tlsDone == s.tlsDone
  {
    hide Flush;
  }

  lemma PushExact(c: Setup, s: Conn)
    requires NoTail(s) && ValidQueue(s.out.queue) && s.lock.Some? && !Next(c, s, WorkerPush).tlsDone
    ensures ExactlyThen(s, WorkerPush, Next(c, s, WorkerPush))
  {
    PushAllOnlySilent(s, s.lock.value);
    hide PushAll;
  }

  lemma WakeExact(c: Setup, s: Conn, e: Event)
    requires ValidQueue(s.out.queue) && s.todo == [] && !Next(c, s, Wake(e)).tlsDone
    ensures ExactlyThen(s, Wake(e), Next(c, s, Wake(e)))
  {
  }

  lemma OutsideExact(c: Setup, s: Conn, a: Action)
    requires NoTail(s) && ValidQueue(s.out.queue) && !a.Step? && !a.WorkerPush? && !a.Wake? && !Next(c, s, a).tlsDone
    ensures ExactlyThen(s, a, Next(c, s, a))
  {
  }

  lemma NextExact(c: Setup, s: Conn, a: Action)
    requires NoTail(s) && ValidQueue(s.out.queue) && Enabled(s, a) && !Next(c, s, a).tlsDone
    ensures ExactlyThen(s, a, Next(c, s, a))
  {
    hide Next, ExactlyThen, NoTail, LegalReplies;
    match a
    case Step(tls, writes, timeIsUp) => StepExact(c, s, tls, writes, timeIsUp);
    case WorkerPush => PushExact(c, s);
    case Wake(e) => WakeExact(c, s, e);
    case _ => OutsideExact(c, s, a);
  }

  /**
   * The exact condition: before the end of the handshake something has been sent if and only if some
   * step flushed a writable, still pending connection that had something to send, and its write succeeded.
   */
  lemma {:induction false} SentEarlyExactly(c: Setup, states: seq<Conn>, actions: seq<Action>, n: nat)
    requires Run(c, states, actions) && n < |states| && !states[n].tlsDone
    ensures states[n].out.sent != [] <==> exists i :: 0 <= i < n && FlushesEarly(states[i], actions[i])
    ensures NoTail(states[n])
    decreases n
  {
    if n > 0 {
      RunKeeps(c, states, actions, n - 1);
      StillValid(states[n - 1]);
      hide Next, FlushesEarly, Ordered, Woken, Conserved, NoTail;
      TlsStays(c, states[n - 1], actions[n - 1]);
      SentEarlyExactly(c, states, actions, n - 1);
      NextExact(c, states[n - 1], actions[n - 1]);
    }
  }

  /** The handshake is never undone. */
  lemma TlsStays(c: Setup, s: Conn, a: Action)
    requires ValidQueue(s.out.queue) && Enabled(s, a)
    ensures s.tlsDone ==> Next(c, s, a).tlsDone
  {
    if a.Step? {
      hide Do;
      StepStays(c, s.(todo := s.todo[1..]), s.todo[0], a.tls, a.writes, a.timeIsUp);
    } else if a.WorkerPush? {
      PushAllOnlySilent(s, s.lock.value);
    }
  }

  lemma StepStays(c: Setup, s: Conn, op: Op, tls: Tls, writes: nat -> WriteResult, timeIsUp: bool)
    requires ValidQueue(s.out.queue)
    ensures s.tlsDone ==> Do(c, s, op, tls, writes, timeIsUp).tlsDone
  {
    if ReadingOp(op) {
      hide Do;
      ReadingQuiet(c, s, op, tls, writes, timeIsUp);
    } else if IsFlush(op) {
      hide Do;
      FlushStays(c, s, op, tls, writes, timeIsUp);
    } else {
      hide QueuedBytes;
    }
  }

  /** The same for the call itself: a step before the end of the handshake calls `SSL_write` only there. */
  lemma CalledEarlyExactly(c: Setup, states: seq<Conn>, actions: seq<Action>, n: nat)
    requires Run(c, states, actions) && n < |actions| && !states[n].tlsDone
    ensures ValidQueue(states[n].out.queue)
    ensures CallsMade(states[n], actions[n]) > 0 <==> CallsEarly(states[n], actions[n])
  {
    RunKeeps(c, states, actions, n);
    SentEarlyExactly(c, states, actions, n);
    StillValid(states[n]);
    var s, a := states[n], actions[n];
    hide Run, WriteCount, Unsent, Ordered, Conserved, Woken;
    if a.Step? && s.todo != [] {
      assert s.todo[0] in s.todo;
      CountPositive(s.out.queue, a.writes, 0);
    }
  }

  // ---------------------------------------------------------------- without early data

  /** Until the handshake is done, a connection without early data has read nothing and queued nothing. */
  ghost predicate Untouched(s: Conn) {
    !s.tlsDone ==>
      && s.earlyDone && s.history == [] && s.tasks == [] && s.lock.None? && !s.upgraded
      && forall op :: op in s.todo ==> Handshake(op)
  }

  predicate Handshake(op: Op) {
    op.Accept? || op.FlushNow? || op.FlushUnlessClosing? || op.DrainBell? || op.PingIfDue? || op.CloseIfIdle? || op.Close?
  }

  lemma HandshakeUntouched(c: Setup, s: Conn, op: Op, tls: Tls, writes: nat -> WriteResult, timeIsUp: bool)
    requires ValidQueue(s.out.queue) && Untouched(s) && !s.tlsDone && Handshake(op)
    ensures Untouched(Do(c, s, op, tls, writes, timeIsUp))
  {
    hide Flush;
  }

  lemma NextUntouched(c: Setup, s: Conn, a: Action)
    requires ValidQueue(s.out.queue) && Untouched(s) && Enabled(s, a) && !s.tlsDone
    ensures Untouched(Next(c, s, a))
  {
    if a.Step? {
      hide Do;
      assert s.todo[0] in s.todo;
      HandshakeUntouched(c, s.(todo := s.todo[1..]), s.todo[0], a.tls, a.writes, a.timeIsUp);
    }
  }

  lemma {:induction false} RunUntouched(c: Setup, states: seq<Conn>, actions: seq<Action>, n: nat)
    requires Run(c, states, actions) && states[0] == Fresh(true) && n < |states|
    ensures Untouched(states[n])
    decreases n
  {
    if n > 0 {
      RunUntouched(c, states, actions, n - 1);
      RunKeeps(c, states, actions, n - 1);
      StillValid(states[n - 1]);
      hide Untouched, Next, Ordered, Conserved, Woken;
      if states[n - 1].tlsDone {
        TlsStays(c, states[n - 1], actions[n - 1]);
        DoneIsUntouched(states[n]);
      } else {
        NextUntouched(c, states[n - 1], actions[n - 1]);
      }
    }
  }

  lemma DoneIsUntouched(s: Conn)
    requires s.tlsDone
    ensures Untouched(s)
  {
  }

  /** With 0-RTT off nothing is written before the end of the handshake, nor is a write tried, whatever the events. */
  lemma NothingEarlyWithoutEarlyData(c: Setup, states: seq<Conn>, actions: seq<Action>, n: nat)
    requires Run(c, states, actions) && states[0] == Fresh(true) && n < |states| && !states[n].tlsDone
    ensures ValidQueue(states[n].out.queue) && states[n].out.sent == [] && Unsent(states[n].out.queue) == []
    ensures n < |actions| ==> CallsMade(states[n], actions[n]) == 0
  {
    RunUntouched(c, states, actions, n);
    NoByteLost(c, states, actions, n);
    assert HistoryBytes([]) == [];
    if n < |actions| {
      CalledEarlyExactly(c, states, actions, n);
    }
  }

  // ---------------------------------------------------------------- without writable events

  /** While the handshake lasts, the IO thread is only ever told about readability. */
  ghost predicate NotWritable(states: seq<Conn>, actions: seq<Action>) {
    && |states| == |actions| + 1
    && forall i :: 0 <= i < |actions| && actions[i].Wake? && actions[i].event.Ready? && !states[i].tlsDone ==> !actions[i].event.writable
  }

  predicate Harmless(op: Op) {
    match op
    case EarlyRead(_, w) => !w
    case EarlyNext(_, w) => !w
    case Accept(_, w) => !w
    case FlushNow => false
    case FlushThenClose => false
    case _ => true
  }

  /** Before the handshake is done nothing has been sent, and nothing that would send is left to do. */
  ghost predicate Silent(s: Conn) {
    !s.tlsDone ==> s.out.sent == [] && forall op :: op in s.todo ==> Harmless(op)
  }

  lemma {:induction false} FrameOpsHarmless(frames: seq<Frame>)
    ensures forall op :: op in FrameOps(frames) ==> Harmless(op)
  {
    if frames != [] {
      FrameOpsHarmless(frames[1..]);
    }
  }

  lemma InboundSilent(c: Setup, s: Conn, data: seq<byte>, next: Op)
    requires Silent(s) && (s.tlsDone || Harmless(next))
    ensures Silent(Inbound(c, s, data, next))
  {
    if s.parser.Live? {
      var r := Feed(c, s.parser.phase, data);
      hide Feed, FrameOps;
      FrameOpsHarmless(r.frames);
    }
  }

  lemma EarlyReadSilent(c: Setup, s: Conn, r: bool, tls: Tls)
    requires Silent(s) && !s.tlsDone
    ensures Silent(DoEarlyRead(c, s, r, false, tls))
  {
    hide Inbound;
    if tls.Data? {
      InboundSilent(c, s, tls.bytes, EarlyNext(r, false));
    }
  }

  lemma InboundStays(c: Setup, s: Conn, data: seq<byte>, next: Op)
    ensures Inbound(c, s, data, next).tlsDone == s.tlsDone
  {
    hide Feed, FrameOps, UpgradeOps;
  }

  lemma EarlyReadStays(c: Setup, s: Conn, r: bool, w: bool, tls: Tls)
    ensures DoEarlyRead(c, s, r, w, tls).tlsDone == s.tlsDone
  {
    hide Inbound;
    if tls.Data? {
      InboundStays(c, s, tls.bytes, EarlyNext(r, w));
    }
  }

  lemma ReadStays(c: Setup, s: Conn, tls: Tls)
    ensures DoRead(c, s, tls).tlsDone == s.tlsDone
  {
    hide Inbound;
    if tls.Data? {
      InboundStays(c, s, tls.bytes, ReadNext);
    }
  }

  lemma ReadSilent(c: Setup, s: Conn, tls: Tls)
    requires Silent(s)
    ensures Silent(DoRead(c, s, tls))
  {
    hide Inbound;
    if tls.Data? {
      InboundSilent(c, s, tls.bytes, ReadNext);
    }
  }

  lemma ReadingSilent(c: Setup, s: Conn, op: Op, tls: Tls, writes: nat -> WriteResult, timeIsUp: bool)
    requires Silent(s) && ValidQueue(s.out.queue) && ReadingOp(op) && (s.tlsDone || Harmless(op))
    ensures Silent(Do(c, s, op, tls, writes, timeIsUp))
  {
    hide DoEarlyRead, DoRead;
    if op.EarlyRead? {
      EarlyReadStays(c, s, op.readable, op.writable, tls);
      if !s.tlsDone {
        EarlyReadSilent(c, s, op.readable, tls);
      }
    } else if op.Read? {
      ReadStays(c, s, tls);
      ReadSilent(c, s, tls);
    }
  }

  lemma OtherSilent(c: Setup, s: Conn, op: Op, tls: Tls, writes: nat -> WriteResult, timeIsUp: bool)
    requires Silent(s) && ValidQueue(s.out.queue) && !ReadingOp(op) && (s.tlsDone || Harmless(op))
    ensures Silent(Do(c, s, op, tls, writes, timeIsUp))
  {
    hide Flush, QueuedBytes;
  }

  lemma NextSilent(c: Setup, s: Conn, a: Action)
    requires Silent(s) && ValidQueue(s.out.queue) && Enabled(s, a)
    requires a.Wake? && a.event.Ready? && !s.tlsDone ==> !a.event.writable
    ensures Silent(Next(c, s, a))
  {
    match a
    case Step(tls, writes, timeIsUp) =>
      var s0 := s.(todo := s.todo[1..]);
      assert s.todo[0] in s.todo;
      assert Silent(s0);
      hide Do;
      if ReadingOp(s.todo[0]) {
        ReadingSilent(c, s0, s.todo[0], tls, writes, timeIsUp);
      } else {
        OtherSilent(c, s0, s.todo[0], tls, writes, timeIsUp);
      }
    case WorkerPush => PushAllOnlySilent(s, s.lock.value);
    case _ =>
  }

  lemma {:induction false} PushAllOnlySilent(s: Conn, replies: seq<WireFrame>)
    ensures PushAll(s, replies) == s.(history := PushAll(s, replies).history, out := PushAll(s, replies).out)
    ensures PushAll(s, replies).out.sent == s.out.sent
    decreases |replies|
  {
    hide QueuedBytes;
    if replies != [] {
      PushAllOnlySilent(DoEnqueue(s, Message(replies[0])), replies[1..]);
    }
  }

  /** As long as no event of the handshake reports writability, nothing is written before its end. */
  lemma {:induction false} NothingWrittenEarly(c: Setup, states: seq<Conn>, actions: seq<Action>, n: nat)
    requires Run(c, states, actions) && NotWritable(states, actions) && n < |states|
    ensures Silent(states[n])
    decreases n
  {
    if n > 0 {
      NothingWrittenEarly(c, states, actions, n - 1);
      RunKeeps(c, states, actions, n - 1);
      hide Silent, Next, Ordered;
      NextSilent(c, states[n - 1], actions[n - 1]);
    }
  }

  // ---------------------------------------------------------------- the branch that does write

  lemma ExtendRun(c: Setup, states: seq<Conn>, actions: seq<Action>, s: Conn, a: Action, s': Conn)
    requires Run(c, states, actions) && states[|actions|] == s
    requires ValidQueue(s.out.queue) && Enabled(s, a) && s' == Next(c, s, a)
    ensures Run(c, states + [s'], actions + [a]) && (states + [s'])[|actions| + 1] == s'
  {
    hide Next;
  }

  ghost predicate Reached(c: Setup, s: Conn) {
    exists states, actions :: Run(c, states, actions) && states[|actions|] == s
  }

  lemma ReachFresh(c: Setup, noEarlyData: bool)
    ensures Reached(c, Fresh(noEarlyData))
  {
    assert Run(c, [Fresh(noEarlyData)], []);
  }

  lemma Reach(c: Setup, s: Conn, a: Action, s': Conn)
    requires Reached(c, s) && ValidQueue(s.out.queue) && Enabled(s, a) && s' == Next(c, s, a)
    ensures Reached(c, s')
  {
    hide Next, Enabled;
    var states, actions :| Run(c, states, actions) && states[|actions|] == s;
    ExtendRun(c, states, actions, s, a, s');
  }

  /** The connection while it works through what the early data led to. */
  function Early(phase: Phase, todo: seq<Op>): Conn {
    Fresh(false).(parser := Live(phase), todo := todo)
  }

  function EarlyOps(response: seq<byte>): seq<Op> {
    [MarkUpgraded, Enqueue(Upgrade(response)), WantOutput, FlushIfTls, EarlyNext(true, true)]
  }

  /** The same once the 101 is queued. */
  function Queued101(phase: Phase, response: seq<byte>, interest: bool, todo: seq<Op>): Conn {
    Early(phase, todo).(upgraded := true, history := [Upgrade(response)], out := Output([Item(response, 0)], [], interest, NotYet))
  }

  lemma EarlyArrives(c: Setup, data: seq<byte>, response: seq<byte>, phase: Phase)
    requires data != [] && Feed(c, Awaiting([]), data) == Fed(Some(response), [], Live(phase))
    ensures Reached(c, Early(phase, EarlyOps(response)))
  {
    hide Feed, Reached;
    var idle := (k: nat) => WantWrite;
    var s0 := Fresh(false);
    ReachFresh(c, false);
    var s1 := s0.(todo := [EarlyRead(true, true)]);
    Reach(c, s0, Wake(Ready(true, true)), s1);
    assert UpgradeOps(Some(response)) + FrameOps([]) + [EarlyNext(true, true)] + [] == EarlyOps(response);
    Reach(c, s1, Step(Data(data), idle, false), Early(phase, EarlyOps(response)));
  }

  lemma EarlyQueues(c: Setup, response: seq<byte>, phase: Phase)
    requires Reached(c, Early(phase, EarlyOps(response)))
    ensures Reached(c, Queued101(phase, response, true, [FlushIfTls, EarlyNext(true, true)]))
  {
    hide Reached;
    var idle := (k: nat) => WantWrite;
    var ops := EarlyOps(response);
    var s1 := Early(phase, ops[1..]).(upgraded := true);
    Reach(c, Early(phase, ops), Step(NeedsRead, idle, false), s1);
    assert ops[1..][1..] == ops[2..] && [] + [Upgrade(response)] == [Upgrade(response)];
    var s2 := Queued101(phase, response, false, ops[2..]);
    Reach(c, s1, Step(NeedsRead, idle, false), s2);
    assert ops[2..][1..] == [FlushIfTls, EarlyNext(true, true)];
    Reach(c, s2, Step(NeedsRead, idle, false), Queued101(phase, response, true, [FlushIfTls, EarlyNext(true, true)]));
  }

  lemma EarlyWaits(c: Setup, response: seq<byte>, phase: Phase)
    requires Reached(c, Queued101(phase, response, true, [FlushIfTls, EarlyNext(true, true)]))
    ensures Reached(c, Queued101(phase, response, false, [FlushNow]))
  {
    hide Reached;
    var idle := (k: nat) => WantWrite;
    var s1 := Queued101(phase, response, true, [EarlyNext(true, true)]);
    Reach(c, Queued101(phase, response, true, [FlushIfTls, EarlyNext(true, true)]), Step(NeedsRead, idle, false), s1);
    var s2 := Queued101(phase, response, true, [EarlyRead(true, true)]);
    assert [EarlyNext(true, true)][1..] == [] && [EarlyRead(true, true)][1..] == [];
    Reach(c, s1, Step(NeedsRead, idle, false), s2);
    Reach(c, s2, Step(NeedsRead, idle, false), Queued101(phase, response, false, [FlushNow]));
  }

  /**
   * The upgrade arrives as early data, the same event also reports writability, and the handshake
   * then needs more input: application data is written although the handshake is not done.
   */
  lemma WrittenEarly(c: Setup, data: seq<byte>, response: seq<byte>, phase: Phase, writes: nat -> WriteResult) returns (s: Conn)
    requires data != [] && response != [] && Feed(c, Awaiting([]), data) == Fed(Some(response), [], Live(phase))
    requires writes(0).Wrote?
    ensures Reached(c, s) && !s.tlsDone && s.out.sent != []
  {
    hide Feed, Reached, Flush;
    EarlyArrives(c, data, response, phase);
    EarlyQueues(c, response, phase);
    EarlyWaits(c, response, phase);
    var t := Queued101(phase, response, false, [FlushNow]);
    s := Next(c, t, Step(NeedsRead, writes, false));
    Reach(c, t, Step(NeedsRead, writes, false), s);
    FirstWrite(t.out, writes, response);
  }

  /** So it is with the request of the repository's own client, sent as early data with a nonce the server accepts. */
  lemma ClientRequestWrittenEarly(c: Setup, host: seq<byte>, key: seq<byte>, nonce: seq<byte>, writes: nat -> WriteResult) returns (s: Conn)
    requires Value(host) && Value(key) && key != [] && Value(nonce)
    requires (c.nonceGate.Some? ==> c.nonceGate.value(nonce)) && writes(0).Wrote?
    ensures Reached(c, s) && !s.tlsDone && s.out.sent != []
  {
    hide Value, ClientHeaders, GoodRequest, Reached, Request, Response, TryUpgrade, JudgeRequest;
    ClientRequestGood(c, host, key, Some(nonce));
    var hs := ClientHeaders(host, key, Some(nonce));
    var request := Request(REQUEST_LINE, hs);
    UpgradeTaken(c, REQUEST_LINE, hs, key, []);
    NothingAfter(c, request, Response(c.accept(key)));
    s := WrittenEarly(c, request, Response(c.accept(key)), Open([], Idle), writes);
  }

  lemma NothingAfter(c: Setup, request: seq<byte>, response: seq<byte>)
    requires TryUpgrade(c, request + []) == Accepted(response, [])
    ensures request != [] && Feed(c, Awaiting([]), request) == Fed(Some(response), [], Live(Open([], Idle)))
  {
    assert request + [] == request && [] + request == request;
    hide JudgeRequest;
  }

  lemma FirstWrite(o: Output, writes: nat -> WriteResult, response: seq<byte>)
    requires o.queue == [Item(response, 0)] && response != [] && writes(0).Wrote?
    ensures ValidQueue(o.queue) && |Flush(o, writes).sent| > 0
  {
    var m := Taken(writes(0).n, |response|);
    WriteLoopTurn(o.queue, o.sent, writes, 0, m);
    MoreSent(Advance(o.queue, m), o.sent + Piece(o.queue, m), writes, 1);
  }
}
