/**
 * What is queued on a connection, and in which order, over every interleaving: the 101 response
 * first, sound frames only, and nothing but control frames behind a Close (section 5.5.1 of RFC 6455).
 */
module ConnectionOrder {
  import opened Bytes
  import opened FrameCodec
  import opened StreamParser
  import opened Outbound
  import opened Connection

  predicate DataOpcode(opcode: byte) {
    opcode == OP_TEXT || opcode == OP_BINARY
  }

  predicate ControlOpcode(opcode: byte) {
    opcode == OP_CLOSE || opcode == OP_PING || opcode == OP_PONG
  }

  predicate IsData(q: Queued) {
    q.Message? && DataOpcode(q.frame.opcode)
  }

  predicate IsClose(q: Queued) {
    q.Message? && q.frame.opcode == OP_CLOSE
  }

  /** A frame as a server may send it: whole, unmasked, control frames short, Close with a status code. */
  ghost predicate Outgoing(f: WireFrame) {
    && f.fin && f.mask.None? && |f.payload| < MAX_LENGTH
    && (DataOpcode(f.opcode) || (ControlOpcode(f.opcode) && |f.payload| <= 125))
    && (f.opcode == OP_CLOSE ==> |f.payload| == 2)
  }

  /** The 101 response, and then frames. */
  ghost predicate UpgradeFirst(h: seq<Queued>) {
    forall i :: 0 <= i < |h| ==> if i == 0 then h[i].Upgrade? else h[i].Message? && Outgoing(h[i].frame)
  }

  ghost predicate HasClose(h: seq<Queued>) {
    exists i :: 0 <= i < |h| && IsClose(h[i])
  }

  ghost predicate NoDataAfterClose(h: seq<Queued>) {
    forall i, j :: 0 <= i < j < |h| && IsClose(h[i]) ==> !IsData(h[j])
  }

  // ---------------------------------------------------------------- what may stand in the list of operations

  predicate IsFlush(op: Op) {
    op.FlushIfTls? || op.FlushNow? || op.FlushThenClose? || op.FlushUnlessClosing?
  }

  predicate FlushPending(todo: seq<Op>) {
    todo != [] && (IsFlush(todo[0]) || FlushPending(todo[1..]))
  }

  /** At most the flush of a writable connection is left. */
  predicate LastFlush(todo: seq<Op>) {
    todo == [] || todo == [FlushThenClose]
  }

  predicate QueuesUpgrade(todo: seq<Op>) {
    todo != [] && todo[0].Enqueue? && todo[0].item.Upgrade?
  }

  /**
   * The operations left make sense: `started` says that the 101 has been queued, `speaking` that the
   * parser is past the upgrade. Nothing is queued before the 101, a Close only once `closing` is
   * set, every queued item has a flush behind it, and handshake operations come only before the end of the handshake.
   */
  ghost predicate Orderly(todo: seq<Op>, started: bool, speaking: bool, closing: bool, tlsDone: bool)
    decreases |todo|
  {
    if todo == [] then speaking ==> started
    else
      var rest := todo[1..];
      match todo[0]
      case EarlyRead(_, _) => !tlsDone && rest == [] && (speaking ==> started)
      case EarlyNext(_, _) => !tlsDone && rest == [] && (speaking ==> started)
      case Accept(_, _) => !tlsDone && rest == [] && (speaking ==> started)
      case Read => LastFlush(rest) && (speaking ==> started)
      case ReadNext => LastFlush(rest) && (speaking ==> started)
      case MarkUpgraded => QueuesUpgrade(rest) && Orderly(rest, started, speaking, closing, tlsDone)
      case Enqueue(q) =>
        && FlushPending(rest)
        && (if q.Upgrade? then !started && speaking
            else started && Outgoing(q.frame) && !IsData(q) && (IsClose(q) ==> closing))
        && Orderly(rest, true, speaking, closing, tlsDone)
      case StartClosing => Orderly(rest, started, speaking, true, tlsDone)
      case Close => Orderly(rest, started, speaking, true, tlsDone)
      case Submit(task) => started && DataOpcode(task.opcode) && Orderly(rest, started, speaking, closing, tlsDone)
      case DrainBell => FlushPending(rest) && Orderly(rest, started, speaking, closing, tlsDone)
      case PingIfDue => FlushPending(rest) && Orderly(rest, started, speaking, closing, tlsDone)
      case CloseIfIdle => rest == [] && (speaking ==> started)
      case _ => Orderly(rest, started, speaking, closing, tlsDone)
  }

  ghost predicate Speaking(s: Conn) {
    s.parser.Live? && s.parser.phase.Open?
  }

  /** What holds of the queue's history, the parser and the workers. */
  ghost predicate Sound(s: Conn) {
    && UpgradeFirst(s.history) && NoDataAfterClose(s.history)
    && (HasClose(s.history) ==> s.closing && s.lock.None?)
    && (s.history != [] ==> s.parser.Dead? || Speaking(s))
    && (Speaking(s) ==> GoodAssembly(s.parser.phase.assembly))
    && WorkersInOrder(s)
  }

  ghost predicate InOrder(s: Conn) {
    Orderly(s.todo, s.history != [], Speaking(s), s.closing, s.tlsDone)
  }

  /** The invariant of every run. */
  ghost predicate Ordered(s: Conn) {
    && Sound(s)
    && (s.upgraded ==> s.history != [] || QueuesUpgrade(s.todo))
    && InOrder(s)
  }

  /** Workers have something to do only behind the 101, and their replies are sound data frames. */
  ghost predicate WorkersInOrder(s: Conn) {
    && (s.tasks != [] || s.lock.Some? ==> s.history != [])
    && (forall t :: t in s.tasks ==> DataOpcode(t.opcode))
    && (s.lock.Some? ==> forall f :: f in s.lock.value ==> Outgoing(f) && DataOpcode(f.opcode))
  }

  // ---------------------------------------------------------------- queueing

  lemma AppendKeepsOrder(h: seq<Queued>, q: Queued)
    requires UpgradeFirst(h) && NoDataAfterClose(h)
    requires if h == [] then q.Upgrade? else q.Message? && Outgoing(q.frame)
    requires IsData(q) ==> !HasClose(h)
    ensures UpgradeFirst(h + [q]) && NoDataAfterClose(h + [q])
    ensures HasClose(h + [q]) <==> HasClose(h) || IsClose(q)
  {
    var g := h + [q];
    forall i, j | 0 <= i < j < |g| && IsClose(g[i])
      ensures !IsData(g[j])
    {
      assert g[i] == h[i];
      if j == |h| {
        assert HasClose(h);
      }
    }
    if HasClose(h) {
      var i :| 0 <= i < |h| && IsClose(h[i]);
      assert IsClose(g[i]);
    }
    if IsClose(q) {
      assert IsClose(g[|h|]);
    }
    if HasClose(g) {
      var i :| 0 <= i < |g| && IsClose(g[i]);
      assert i == |h| || IsClose(h[i]);
    }
  }

  lemma {:induction false} PushAllKeepsOrder(s: Conn, replies: seq<WireFrame>)
    requires UpgradeFirst(s.history) && NoDataAfterClose(s.history) && s.history != [] && !HasClose(s.history)
    requires forall f :: f in replies ==> Outgoing(f) && DataOpcode(f.opcode)
    ensures
      var s' := PushAll(s, replies);
      && UpgradeFirst(s'.history) && NoDataAfterClose(s'.history) && s'.history != [] && !HasClose(s'.history)
      && s' == s.(history := s'.history, out := s'.out)
    decreases |replies|
  {
    if replies != [] {
      var q := Message(replies[0]);
      assert replies[0] in replies;
      AppendKeepsOrder(s.history, q);
      PushAllKeepsOrder(DoEnqueue(s, q), replies[1..]);
    }
  }

  // ---------------------------------------------------------------- received frames

  lemma SendOrderly(f: WireFrame, rest: seq<Op>, closing: bool, tlsDone: bool)
    requires Outgoing(f) && !DataOpcode(f.opcode) && (f.opcode == OP_CLOSE ==> closing)
    requires Orderly(rest, true, true, closing, tlsDone)
    ensures Orderly(Send(f) + rest, true, true, closing, tlsDone)
  {
    var ops := Send(f) + rest;
    var tail := [FlushIfTls] + rest;
    assert tail[1..] == rest;
    assert ops[1..] == [WantOutput] + tail && ops[1..][1..] == tail;
    assert Orderly(tail, true, true, closing, tlsDone) && FlushPending(tail);
    assert Orderly(ops[1..], true, true, closing, tlsDone);
  }

  lemma OneFrameOrderly(f: Frame, more: seq<Op>, closing: bool, tlsDone: bool)
    requires Presentable(f) && f.opcode != OP_CLOSE && Orderly(more, true, true, closing, tlsDone)
    ensures Orderly(OneFrame(f) + more, true, true, closing, tlsDone)
  {
    if f.opcode == OP_PING {
      SendOrderly(ServerFrame(OP_PONG, f.payload), more, closing, tlsDone);
    } else if f.opcode == OP_PONG {
      assert OneFrame(f) + more == more;
    } else {
      assert OneFrame(f) + more == [Submit(f)] + more && ([Submit(f)] + more)[1..] == more;
    }
  }

  lemma CloseOrderly(f: Frame, rest: seq<Op>, closing: bool, tlsDone: bool)
    requires f.opcode == OP_CLOSE && Orderly(rest, true, true, true, tlsDone)
    ensures Orderly(OneFrame(f) + rest, true, true, closing, tlsDone)
  {
    var reply := ServerFrame(OP_CLOSE, WriteBE(CloseReply(f.payload), 2));
    SendOrderly(reply, rest, true, tlsDone);
    assert OneFrame(f) + rest == [StartClosing] + (Send(reply) + rest);
    assert ([StartClosing] + (Send(reply) + rest))[1..] == Send(reply) + rest;
  }

  /** The operations for received frames are in order, in front of an orderly rest. */
  lemma {:induction false} FrameOpsOrderly(frames: seq<Frame>, rest: seq<Op>, closing: bool, tlsDone: bool)
    requires forall f :: f in frames ==> Presentable(f)
    requires Orderly(rest, true, true, closing, tlsDone) && Orderly(rest, true, true, true, tlsDone)
    ensures Orderly(FrameOps(frames) + rest, true, true, closing, tlsDone)
    decreases |frames|
  {
    hide Orderly, OneFrame, Presentable;
    if frames == [] {
      assert FrameOps(frames) + rest == rest;
    } else if frames[0].opcode == OP_CLOSE {
      CloseOrderly(frames[0], rest, closing, tlsDone);
    } else {
      assert frames[0] in frames;
      FrameOpsOrderly(frames[1..], rest, closing, tlsDone);
      var more := FrameOps(frames[1..]) + rest;
      OneFrameOrderly(frames[0], more, closing, tlsDone);
      assert FrameOps(frames) + rest == OneFrame(frames[0]) + more;
    }
  }

  lemma UpgradeOpsOrderly(response: seq<byte>, rest: seq<Op>, closing: bool, tlsDone: bool)
    requires Orderly(rest, true, true, closing, tlsDone)
    ensures Orderly(UpgradeOps(Some(response)) + rest, false, true, closing, tlsDone)
  {
    var ops := UpgradeOps(Some(response)) + rest;
    var tail := [FlushIfTls] + rest;
    var queue := [Enqueue(Upgrade(response)), WantOutput] + tail;
    assert tail[1..] == rest;
    assert queue[1..] == [WantOutput] + tail && queue[1..][1..] == tail;
    assert Orderly(tail, true, true, closing, tlsDone) && FlushPending(tail);
    assert Orderly(queue[1..], true, true, closing, tlsDone);
    assert Orderly(queue, false, true, closing, tlsDone);
    assert ops[1..] == queue;
  }

  /** Frames come only from a parser past the upgrade, they are sound, and the upgrade is accepted once. */
  lemma FeedSpeaks(c: Setup, p: Phase, data: seq<byte>)
    requires p.Open? ==> GoodAssembly(p.assembly)
    ensures
      var r := Feed(c, p, data);
      && (r.accepted.Some? ==> p.Awaiting?)
      && (r.status.Live? ==> (r.status.phase.Open? <==> p.Open? || r.accepted.Some?))
      && (r.status.Live? && r.status.phase.Awaiting? ==> r.frames == [])
      && (forall f :: f in r.frames ==> Presentable(f))
      && (r.status.Live? && r.status.phase.Open? ==> GoodAssembly(r.status.phase.assembly))
  {
    match p
    case Open(rest, g) => DecodedFramesPresentable(c.wire, rest + data, g);
    case Awaiting(buffer) =>
      match TryUpgrade(c, buffer + data)
      case Incomplete =>
      case Refused(e) =>
      case Accepted(response, rest) => DecodedFramesPresentable(c.wire, rest, Idle);
  }

  // ---------------------------------------------------------------- the operations of the IO thread

  /** Between two operations, with what the next reading operation relies on. */
  ghost predicate Reading(s: Conn) {
    && Sound(s)
    && (s.upgraded ==> s.history != []) && (Speaking(s) ==> s.history != [])
    && LastFlush(s.todo)
  }

  lemma LastFlushOrderly(todo: seq<Op>, started: bool, speaking: bool, closing: bool, tlsDone: bool)
    requires LastFlush(todo) && (speaking ==> started)
    ensures Orderly(todo, started, speaking, closing, tlsDone)
  {
    if todo != [] {
      assert todo[1..] == [];
    }
  }

  ghost predicate Continues(s: Conn, next: Op) {
    next == ReadNext || (next.EarlyNext? && s.todo == [] && !s.tlsDone)
  }

  lemma NextOrderly(s: Conn, next: Op, started: bool, speaking: bool, closing: bool)
    requires LastFlush(s.todo) && Continues(s, next) && (speaking ==> started)
    ensures Orderly([next] + s.todo, started, speaking, closing, s.tlsDone)
  {
    assert ([next] + s.todo)[1..] == s.todo;
  }

  lemma CloseFirst(s: Conn)
    requires Reading(s)
    ensures Ordered(Before([Close], s))
  {
    LastFlushOrderly(s.todo, s.history != [], Speaking(s), true, s.tlsDone);
    assert ([Close] + s.todo)[1..] == s.todo;
  }

  lemma OpsOrderly(accepted: Option<seq<byte>>, frames: seq<Frame>, tail: seq<Op>, closing: bool, tlsDone: bool)
    requires forall f :: f in frames ==> Presentable(f)
    requires Orderly(tail, true, true, closing, tlsDone) && Orderly(tail, true, true, true, tlsDone)
    ensures Orderly(UpgradeOps(accepted) + (FrameOps(frames) + tail), accepted.None?, true, closing, tlsDone)
  {
    hide Orderly, FrameOps, Presentable;
    FrameOpsOrderly(frames, tail, closing, tlsDone);
    if accepted.Some? {
      UpgradeOpsOrderly(accepted.value, FrameOps(frames) + tail, closing, tlsDone);
    } else {
      assert UpgradeOps(accepted) + (FrameOps(frames) + tail) == FrameOps(frames) + tail;
    }
  }

  lemma NoOps(tail: seq<Op>)
    ensures UpgradeOps(None) + (FrameOps([]) + tail) == tail
  {
  }

  /** What a live parser's answer means for a connection that reads. */
  lemma ParserMoves(c: Setup, s: Conn, data: seq<byte>)
    requires Reading(s) && s.parser.Live? && Feed(c, s.parser.phase, data).status.Live?
    ensures
      var r := Feed(c, s.parser.phase, data);
      var s1 := s.(parser := r.status);
      && Sound(s1) && (forall f :: f in r.frames ==> Presentable(f))
      && (Speaking(s1) ==> (s.history != [] <==> r.accepted.None?))
      && (!Speaking(s1) ==> r.accepted.None? && r.frames == [])
  {
    FeedSpeaks(c, s.parser.phase, data);
    hide Feed;
    var r := Feed(c, s.parser.phase, data);
    assert WorkersInOrder(s.(parser := r.status));
  }

  /** Plaintext that the parser takes: the operations it leads to are in order. */
  lemma AcceptedInbound(c: Setup, s: Conn, data: seq<byte>, next: Op)
    requires Reading(s) && Continues(s, next) && s.parser.Live? && Feed(c, s.parser.phase, data).status.Live?
    ensures Ordered(Inbound(c, s, data, next))
  {
    hide Feed, FrameOps, UpgradeOps, Sound, Orderly;
    var r := Feed(c, s.parser.phase, data);
    var s1 := s.(parser := r.status);
    ParserMoves(c, s, data);
    var tail := [next] + s.todo;
    var ops := UpgradeOps(r.accepted) + FrameOps(r.frames) + [next];
    assert ops + s.todo == UpgradeOps(r.accepted) + (FrameOps(r.frames) + tail);
    SameButTodo(s1, Before(ops, s1));
    NextOrderly(s, next, Speaking(s1), Speaking(s1), s.closing);
    NextOrderly(s, next, true, true, true);
    if Speaking(s1) {
      OpsOrderly(r.accepted, r.frames, tail, s.closing, s.tlsDone);
    } else {
      NextOrderly(s, next, s.history != [], false, s.closing);
      NoOps(tail);
    }
  }

  /** The list of operations, the output and the eventfd play no part in `Sound`. */
  lemma SameButTodo(s: Conn, s': Conn)
    requires Sound(s) && s'.history == s.history && s'.parser == s.parser && s'.closing == s.closing
    requires s'.lock == s.lock && s'.tasks == s.tasks
    ensures Sound(s')
  {
  }

  lemma InboundOrdered(c: Setup, s: Conn, data: seq<byte>, next: Op)
    requires Reading(s) && Continues(s, next)
    ensures Ordered(Inbound(c, s, data, next))
  {
    if s.parser.Dead? {
      LastFlushOrderly(s.todo, s.history != [], false, s.closing, s.tlsDone);
    } else if Feed(c, s.parser.phase, data).status.Dead? {
      CloseFirst(s.(parser := Feed(c, s.parser.phase, data).status));
    } else {
      AcceptedInbound(c, s, data, next);
    }
  }

  lemma PendingOrdered(s: Conn, interest: bool, writable: bool)
    requires Reading(s) && s.todo == []
    ensures Ordered(Pending(s, interest, writable))
  {
    hide Sound;
    var s' := Pending(s, interest, writable);
    SameButTodo(s, s');
    assert s'.todo == if writable then [FlushNow] else [];
    if writable {
      assert s'.todo[1..] == [];
      LastFlushOrderly([], s.history != [], Speaking(s), s.closing, s.tlsDone);
    }
  }

  /** A handshake operation, or nothing, is all that is left to do. */
  lemma HandshakeNext(s: Conn, ops: seq<Op>)
    requires Reading(s) && s.todo == [] && !s.tlsDone
    requires |ops| == 1 && (ops[0].EarlyRead? || ops[0].Accept?)
    ensures Ordered(Before(ops, s))
  {
    hide Sound;
    SameButTodo(s, Before(ops, s));
    assert (ops + s.todo)[1..] == [];
  }

  lemma EarlyReadOrdered(c: Setup, s: Conn, r: bool, w: bool, tls: Tls)
    requires Reading(s) && s.todo == [] && !s.tlsDone
    ensures Ordered(DoEarlyRead(c, s, r, w, tls))
  {
    hide Reading, Ordered, Inbound, Pending;
    match tls
    case Data(bytes) =>
      if bytes == [] {
        HandshakeNext(s, [EarlyRead(r, w)]);
      } else {
        InboundOrdered(c, s, bytes, EarlyNext(r, w));
      }
    case Finished =>
      EarlyDone(s);
      HandshakeNext(s.(earlyDone := true), [Accept(r, w)]);
    case NeedsRead => PendingOrdered(s, false, w);
    case NeedsWrite => PendingOrdered(s, true, w);
    case Refused => CloseFirst(s);
  }

  lemma EarlyDone(s: Conn)
    requires Reading(s)
    ensures Reading(s.(earlyDone := true))
  {
    hide Sound;
    SameButTodo(s, s.(earlyDone := true));
  }

  lemma TailOrderly(r: bool, w: bool, started: bool, speaking: bool, closing: bool)
    requires speaking ==> started
    ensures Orderly(Tail(r, w), started, speaking, closing, true)
    ensures Orderly([FlushNow] + Tail(r, w), started, speaking, closing, true)
  {
    assert ([FlushNow] + Tail(r, w))[1..] == Tail(r, w);
    if r && w {
      assert Tail(r, w) == [Read, FlushThenClose] && Tail(r, w)[1..] == [FlushThenClose];
    }
  }

  lemma AcceptOrdered(s: Conn, r: bool, w: bool, tls: Tls)
    requires Reading(s) && s.todo == [] && !s.tlsDone
    ensures Ordered(DoAccept(s, r, w, tls))
  {
    if tls.Finished? {
      hide Sound, Orderly;
      var s' := DoAccept(s, r, w, tls);
      SameButTodo(s, s');
      TailOrderly(r, w, s.history != [], Speaking(s), s.closing);
      assert s'.todo == [FlushNow] + Tail(r, w);
    } else if tls.NeedsRead? || tls.NeedsWrite? {
      PendingOrdered(s, tls.NeedsWrite?, w);
    } else {
      CloseFirst(s);
    }
  }

  lemma ReadOrdered(c: Setup, s: Conn, tls: Tls)
    requires Reading(s)
    ensures Ordered(DoRead(c, s, tls))
  {
    if tls.Data? && tls.bytes != [] {
      InboundOrdered(c, s, tls.bytes, ReadNext);
    } else if tls.NeedsRead? || tls.NeedsWrite? {
      hide Sound;
      SameButTodo(s, Watch(s, true));
      LastFlushOrderly(s.todo, s.history != [], Speaking(s), s.closing, s.tlsDone);
    } else {
      CloseFirst(s);
    }
  }

  /** The front operation is taken off; what `Orderly` says about it is still known. */
  lemma EnqueueOrdered(s: Conn)
    requires Ordered(s) && s.todo != [] && s.todo[0].Enqueue? && s.lock.None?
    ensures Ordered(DoEnqueue(s.(todo := s.todo[1..]), s.todo[0].item))
  {
    var q := s.todo[0].item;
    var s' := DoEnqueue(s.(todo := s.todo[1..]), q);
    AppendKeepsOrder(s.history, q);
    assert s'.history == s.history + [q];
    hide UpgradeFirst, NoDataAfterClose, HasClose, DoEnqueue, Push, QueuedBytes;
    EnqueueSound(s, s', q);
  }

  lemma EnqueueSound(s: Conn, s': Conn, q: Queued)
    requires Sound(s) && s'.history == s.history + [q] && (Speaking(s) || s.history != []) && s.lock.None?
    requires UpgradeFirst(s'.history) && NoDataAfterClose(s'.history)
    requires HasClose(s'.history) ==> HasClose(s.history) || s.closing
    requires s'.parser == s.parser && s'.closing == s.closing && s'.lock == s.lock && s'.tasks == s.tasks
    ensures Sound(s') && s'.history != []
  {
    hide UpgradeFirst, NoDataAfterClose, HasClose;
    assert s'.history[|s.history|] == q;
  }

  ghost predicate ReadingOp(op: Op) {
    op.EarlyRead? || op.EarlyNext? || op.Accept? || op.Read? || op.ReadNext?
  }

  lemma ReadingOps(s: Conn)
    requires Ordered(s) && s.todo != [] && ReadingOp(s.todo[0])
    ensures Reading(s.(todo := s.todo[1..]))
    ensures s.todo[0].Read? || s.todo[0].ReadNext? || (s.todo[1..] == [] && !s.tlsDone)
  {
    hide Sound;
    SameButTodo(s, s.(todo := s.todo[1..]));
  }

  lemma ReadingStep(c: Setup, s: Conn, tls: Tls, writes: nat -> WriteResult, timeIsUp: bool)
    requires Ordered(s) && ValidQueue(s.out.queue) && s.todo != [] && ReadingOp(s.todo[0])
    ensures Ordered(Do(c, s.(todo := s.todo[1..]), s.todo[0], tls, writes, timeIsUp))
  {
    ReadingOps(s);
    var s0 := s.(todo := s.todo[1..]);
    hide Ordered, Reading, DoEarlyRead, DoAccept, DoRead;
    match s.todo[0]
    case EarlyRead(r, w) => EarlyReadOrdered(c, s0, r, w, tls);
    case EarlyNext(r, w) =>
      EarlyDone(s0);
      if s.closing {
        HandshakeNext(s0.(earlyDone := true), [Accept(r, w)]);
      } else {
        HandshakeNext(s0, [EarlyRead(r, w)]);
      }
    case Accept(r, w) => AcceptOrdered(s0, r, w, tls);
    case Read => ReadOrdered(c, s0, tls);
    case ReadNext => ReadNextOrdered(s0);
  }

  lemma ReadNextOrdered(s: Conn)
    requires Reading(s)
    ensures Ordered(s) && Ordered(Before([Read], s))
  {
    hide Sound;
    SameButTodo(s, Before([Read], s));
    LastFlushOrderly(s.todo, s.history != [], Speaking(s), s.closing, s.tlsDone);
    assert ([Read] + s.todo)[1..] == s.todo;
  }

  // ---------------------------------------------------------------- the other operations

  lemma FlushOrdered(s: Conn, out: Output)
    requires Ordered(s)
    ensures Ordered(s.(out := out))
  {
    hide Sound, Orderly;
    SameButTodo(s, s.(out := out));
  }

  /** Operations that neither queue nor read leave an orderly rest. */
  lemma PopOrdered(s: Conn)
    requires Ordered(s) && s.todo != []
    requires !ReadingOp(s.todo[0]) && !s.todo[0].Enqueue? && !s.todo[0].MarkUpgraded?
    requires s.todo[0].StartClosing? || s.todo[0].Close? ==> s.closing
    ensures Ordered(s.(todo := s.todo[1..]))
  {
    hide Sound;
    SameButTodo(s, s.(todo := s.todo[1..]));
  }

  lemma ClosingOrdered(s: Conn)
    requires Ordered(s) && s.todo != [] && (s.todo[0].StartClosing? || s.todo[0].Close?)
    ensures Ordered(s.(todo := s.todo[1..], closing := true))
    ensures Ordered(s.(todo := s.todo[1..], closing := true, fdOpen := false))
  {
    assert WorkersInOrder(s.(todo := s.todo[1..], closing := true));
    assert WorkersInOrder(s.(todo := s.todo[1..], closing := true, fdOpen := false));
  }

  lemma UpgradedOrdered(s: Conn)
    requires Ordered(s) && s.todo != [] && s.todo[0].MarkUpgraded?
    ensures Ordered(s.(todo := s.todo[1..], upgraded := true))
  {
    hide Sound;
    SameButTodo(s, s.(todo := s.todo[1..], upgraded := true));
  }

  lemma SubmitOrdered(s: Conn)
    requires Ordered(s) && s.todo != [] && s.todo[0].Submit?
    ensures Ordered(s.(todo := s.todo[1..], tasks := s.tasks + [s.todo[0].task]))
  {
    hide UpgradeFirst, NoDataAfterClose, HasClose;
    var s' := s.(todo := s.todo[1..], tasks := s.tasks + [s.todo[0].task]);
    assert WorkersInOrder(s');
  }

  lemma PingOrdered(s: Conn)
    requires Ordered(s) && s.todo != [] && s.todo[0].PingIfDue? && s.upgraded
    ensures Ordered(Before([Enqueue(Message(ServerFrame(OP_PING, []))), WantOutput], s.(todo := s.todo[1..])))
  {
    hide Sound;
    var s' := Before([Enqueue(Message(ServerFrame(OP_PING, []))), WantOutput], s.(todo := s.todo[1..]));
    SameButTodo(s, s');
    var rest := s.todo[1..];
    assert s'.todo[1..] == [WantOutput] + rest && s'.todo[1..][1..] == rest;
    assert Orderly(s'.todo[1..], true, Speaking(s), s.closing, s.tlsDone);
  }

  lemma IdleOrdered(s: Conn)
    requires Ordered(s) && s.todo != [] && s.todo[0].CloseIfIdle?
    ensures Ordered(Before([Close], s.(todo := s.todo[1..])))
  {
    hide Sound;
    var s' := Before([Close], s.(todo := s.todo[1..]));
    SameButTodo(s, s');
    assert s'.todo == [Close] && s'.todo[1..] == [];
  }

  lemma FlushThenCloseOrdered(s: Conn, out: Output)
    requires Ordered(s) && s.todo != [] && s.todo[0].FlushThenClose? && s.closing
    ensures Ordered(Before([Close], s.(todo := s.todo[1..], out := out)))
  {
    hide Sound;
    var s' := Before([Close], s.(todo := s.todo[1..], out := out));
    SameButTodo(s, s');
    assert s'.todo[1..] == s.todo[1..];
  }

  lemma OtherStep(c: Setup, s: Conn, tls: Tls, writes: nat -> WriteResult, timeIsUp: bool)
    requires Ordered(s) && ValidQueue(s.out.queue) && s.todo != [] && !ReadingOp(s.todo[0])
    requires NeedsLock(s.todo[0]) ==> s.lock.None?
    ensures Ordered(Do(c, s.(todo := s.todo[1..]), s.todo[0], tls, writes, timeIsUp))
  {
    hide Ordered, Flush, DoEnqueue;
    var s0, op := s.(todo := s.todo[1..]), s.todo[0];
    if op.Enqueue? {
      EnqueueOrdered(s);
    } else if op.MarkUpgraded? {
      UpgradedOrdered(s);
    } else if op.StartClosing? || op.Close? {
      ClosingOrdered(s);
    } else if op.Submit? {
      SubmitOrdered(s);
    } else {
      PopOrdered(s);
      if op.PingIfDue? && s.upgraded {
        PingOrdered(s);
      } else if op.CloseIfIdle? {
        IdleOrdered(s);
      } else if op.DrainBell? {
        BellOrdered(s0, 0);
      } else if op.WantOutput? {
        FlushOrdered(s0, s.out.(interest := true));
      } else if IsFlush(op) {
        FlushOrdered(s0, Flush(s.out, writes));
        if op.FlushThenClose? && s.closing {
          FlushThenCloseOrdered(s, DoFlush(s0, writes).out);
        }
      }
    }
  }

  lemma BellOrdered(s: Conn, bell: nat)
    requires Ordered(s)
    ensures Ordered(s.(bell := bell))
  {
    hide Sound, Orderly;
    SameButTodo(s, s.(bell := bell));
  }

  // ---------------------------------------------------------------- events and workers

  /** An idle connection takes on a list of operations that is in order. */
  lemma TakenOn(s: Conn, todo: seq<Op>)
    requires Ordered(s) && s.todo == [] && Orderly(todo, s.history != [], Speaking(s), s.closing, s.tlsDone)
    ensures Ordered(s.(todo := todo))
  {
    hide Sound;
    SameButTodo(s, s.(todo := todo));
  }

  lemma IdleStarted(s: Conn)
    requires Ordered(s) && s.todo == []
    ensures Speaking(s) ==> s.history != []
  {
  }

  lemma ReadyOrderly(s: Conn, r: bool, w: bool)
    requires Speaking(s) ==> s.history != []
    ensures Orderly(Handler(s, Ready(r, w)), s.history != [], Speaking(s), s.closing, s.tlsDone)
  {
    if s.tlsDone {
      TailOrderly(r, w, s.history != [], Speaking(s), s.closing);
    } else if !r && !w {
      LastFlushOrderly([], s.history != [], Speaking(s), s.closing, s.tlsDone);
    }
  }

  lemma BellOrderly(started: bool, speaking: bool, closing: bool, tlsDone: bool)
    requires speaking ==> started
    ensures Orderly([DrainBell, FlushUnlessClosing], started, speaking, closing, tlsDone)
  {
    var rest := [DrainBell, FlushUnlessClosing][1..];
    assert rest == [FlushUnlessClosing] && rest[1..] == [];
    LastFlushOrderly([], started, speaking, closing, tlsDone);
    assert Orderly(rest, started, speaking, closing, tlsDone);
  }

  lemma TickOrderly(started: bool, speaking: bool, closing: bool, tlsDone: bool)
    requires speaking ==> started
    ensures Orderly([PingIfDue, FlushUnlessClosing, CloseIfIdle], started, speaking, closing, tlsDone)
  {
    var rest := [PingIfDue, FlushUnlessClosing, CloseIfIdle][1..];
    assert rest == [FlushUnlessClosing, CloseIfIdle] && rest[1..] == [CloseIfIdle];
    assert Orderly(rest[1..], started, speaking, closing, tlsDone);
    assert Orderly(rest, started, speaking, closing, tlsDone);
  }

  lemma HungUpOrderly(started: bool, speaking: bool, closing: bool, tlsDone: bool)
    requires speaking ==> started
    ensures Orderly([Close], started, speaking, closing, tlsDone)
  {
    LastFlushOrderly([], started, speaking, true, tlsDone);
    assert [Close][1..] == [];
  }

  lemma HandlerOrderly(s: Conn, e: Event)
    requires Ordered(s) && s.todo == []
    ensures Ordered(s.(todo := Handler(s, e)))
  {
    IdleStarted(s);
    hide Orderly, Ordered, Speaking;
    match e
    case Ready(r, w) =>
      ReadyOrderly(s, r, w);
      TakenOn(s, Handler(s, Ready(r, w)));
    case HungUp =>
      HungUpOrderly(s.history != [], Speaking(s), s.closing, s.tlsDone);
      TakenOn(s, [Close]);
    case Bell =>
      BellOrderly(s.history != [], Speaking(s), s.closing, s.tlsDone);
      TakenOn(s, [DrainBell, FlushUnlessClosing]);
    case Tick =>
      TickOrderly(s.history != [], Speaking(s), s.closing, s.tlsDone);
      TakenOn(s, [PingIfDue, FlushUnlessClosing, CloseIfIdle]);
  }

  lemma LockOrdered(c: Setup, s: Conn, k: nat, replies: seq<WireFrame>)
    requires Ordered(s) && ValidQueue(s.out.queue) && Enabled(s, WorkerLock(k, replies))
    ensures Ordered(Next(c, s, WorkerLock(k, replies)))
  {
    hide UpgradeFirst, NoDataAfterClose, HasClose, Orderly;
    assert s.tasks[k] in s.tasks;
    var s' := Next(c, s, WorkerLock(k, replies));
    assert forall t :: t in s'.tasks ==> t in s.tasks;
    assert WorkersInOrder(s');
  }

  lemma PushOrdered(c: Setup, s: Conn)
    requires Ordered(s) && ValidQueue(s.out.queue) && s.lock.Some?
    ensures Ordered(Next(c, s, WorkerPush))
  {
    PushAllKeepsOrder(s, s.lock.value);
    hide UpgradeFirst, NoDataAfterClose, HasClose, Orderly, PushAll;
    assert WorkersInOrder(Next(c, s, WorkerPush));
  }

  lemma OutsideOrdered(s: Conn, out: Output, raising: nat, ringing: nat, bell: nat)
    requires Ordered(s)
    ensures Ordered(s.(out := out, raising := raising, ringing := ringing, bell := bell))
  {
    hide Sound, Orderly;
    SameButTodo(s, s.(out := out, raising := raising, ringing := ringing, bell := bell));
  }

  /** Every step of every thread keeps the order. */
  lemma NextOrdered(c: Setup, s: Conn, a: Action)
    requires Ordered(s) && ValidQueue(s.out.queue) && Enabled(s, a)
    ensures Ordered(Next(c, s, a))
  {
    hide Ordered, Do;
    match a
    case Wake(e) => HandlerOrderly(s, e);
    case Step(tls, writes, timeIsUp) =>
      if ReadingOp(s.todo[0]) {
        ReadingStep(c, s, tls, writes, timeIsUp);
      } else {
        OtherStep(c, s, tls, writes, timeIsUp);
      }
    case WorkerLock(k, replies) => LockOrdered(c, s, k, replies);
    case WorkerPush => PushOrdered(c, s);
    case WorkerWantsOutput => OutsideOrdered(s, Watch(s, true).out, s.raising - 1, s.ringing + 1, s.bell);
    case WorkerRings => OutsideOrdered(s, s.out, s.raising, s.ringing - 1, s.bell + 1);
    case OtherRings => OutsideOrdered(s, s.out, s.raising, s.ringing, s.bell + 1);
  }

  lemma FreshOrdered(noEarlyData: bool)
    ensures Ordered(Fresh(noEarlyData))
  {
  }
}
