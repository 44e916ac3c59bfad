/**
 * One TLS connection of the server as a step system: the IO thread runs its handlers one small
 * operation at a time, and between any two of them any worker may act. Every shared access is one
 * step, memory is sequentially consistent, and the TLS layer answers as it likes.
 */
module Connection {
  import opened Bytes
  import opened FrameCodec
  import opened StreamParser
  import opened Outbound

  /** The operations of the IO thread's handlers, in the order it runs them. */
  datatype Op =
    | EarlyRead(readable: bool, writable: bool)
    | EarlyNext(readable: bool, writable: bool)
    | Accept(readable: bool, writable: bool)
    | Read
    | ReadNext
    | MarkUpgraded
    | Enqueue(item: Queued)
    | WantOutput
    | FlushIfTls
    | FlushNow
    | FlushThenClose
    | FlushUnlessClosing
    | StartClosing
    | Submit(task: Frame)
    | DrainBell
    | PingIfDue
    | CloseIfIdle
    | Close

  /** What wakes the IO thread. */
  datatype Event = Ready(readable: bool, writable: bool) | HungUp | Bell | Tick

  /** What a TLS read or handshake call answers. */
  datatype Tls = Data(bytes: seq<byte>) | Finished | NeedsRead | NeedsWrite | Refused

  /** Everything that may happen next. */
  datatype Action =
    | Wake(event: Event)
    | Step(tls: Tls, writes: nat -> WriteResult, timeIsUp: bool)
    | WorkerLock(task: nat, replies: seq<WireFrame>)
    | WorkerPush
    | WorkerWantsOutput
    | WorkerRings
    | OtherRings

  /**
   * `history` lists everything ever queued. `lock` holds the replies of the worker that has found the
   * connection open and not closing and is about to queue them. `raising` and `ringing` count the
   * workers that have queued their replies and still have to ask for EPOLLOUT, or to ring the eventfd.
   */
  datatype Conn = Conn(
    history: seq<Queued>, out: Output, parser: Status,
    tlsDone: bool, earlyDone: bool, closing: bool, upgraded: bool, fdOpen: bool,
    bell: nat, tasks: seq<Frame>, lock: Option<seq<WireFrame>>, raising: nat, ringing: nat,
    todo: seq<Op>)

  function Fresh(noEarlyData: bool): Conn {
    Conn([], Output([], [], false, NotYet), Live(Awaiting([])),
         false, noEarlyData, false, false, true, 0, [], None, 0, 0, [])
  }

  // ---------------------------------------------------------------- what a received frame leads to

  function ServerFrame(opcode: byte, payload: seq<byte>): WireFrame {
    WireFrame(true, opcode, None, payload)
  }

  function IsValidCloseCode(code: nat): bool {
    1000 <= code < 5000 && code != 1004 && code != 1005 && code != 1006 && code != 1015
  }

  /** The status code of the Close frame sent back. */
  function CloseReply(payload: seq<byte>): nat {
    if |payload| < 2 then 1000
    else if IsValidCloseCode(ReadBE(payload[..2])) then ReadBE(payload[..2])
    else 1002
  }

  function Send(f: WireFrame): seq<Op> {
    [Enqueue(Message(f)), WantOutput, FlushIfTls]
  }

  function OneFrame(f: Frame): seq<Op> {
    if f.opcode == OP_PING then Send(ServerFrame(OP_PONG, f.payload))
    else if f.opcode == OP_PONG then []
    else if f.opcode == OP_CLOSE then [StartClosing] + Send(ServerFrame(OP_CLOSE, WriteBE(CloseReply(f.payload), 2)))
    else if f.opcode == OP_TEXT || f.opcode == OP_BINARY then [Submit(f)]
    else Send(ServerFrame(OP_TEXT, Ascii("unsupported websocket opcode")))
  }

  /** Frame by frame; a Close frame ends the list, whatever stands behind it. */
  function FrameOps(frames: seq<Frame>): seq<Op> {
    if frames == [] then []
    else if frames[0].opcode == OP_CLOSE then OneFrame(frames[0])
    else OneFrame(frames[0]) + FrameOps(frames[1..])
  }

  function UpgradeOps(accepted: Option<seq<byte>>): seq<Op> {
    if accepted.None? then [] else [MarkUpgraded, Enqueue(Upgrade(accepted.value)), WantOutput, FlushIfTls]
  }

  // ---------------------------------------------------------------- the IO thread

  function Before(ops: seq<Op>, s: Conn): Conn {
    s.(todo := ops + s.todo)
  }

  /** Received plaintext goes through the parser; an error closes the connection. */
  function Inbound(c: Setup, s: Conn, data: seq<byte>, next: Op): Conn {
    if s.parser.Dead? then s
    else
      var r := Feed(c, s.parser.phase, data);
      if r.status.Dead? then Before([Close], s.(parser := r.status))
      else Before(UpgradeOps(r.accepted) + FrameOps(r.frames) + [next], s.(parser := r.status))
  }

  function Watch(s: Conn, interest: bool): Conn {
    if s.fdOpen then s.(out := s.out.(interest := interest)) else s
  }

  function DoFlush(s: Conn, writes: nat -> WriteResult): Conn
    requires ValidQueue(s.out.queue)
  {
    if s.fdOpen then s.(out := Flush(s.out, writes)) else s
  }

  /** The rest of the handler for a readable or writable connection whose handshake is done. */
  function Tail(readable: bool, writable: bool): seq<Op> {
    (if readable then [Read] else []) + (if writable then [FlushThenClose] else [])
  }

  /** A handshake that has to wait; a writable connection is flushed all the same. */
  function Pending(s: Conn, interest: bool, writable: bool): Conn {
    Before(if writable then [FlushNow] else [], Watch(s, interest))
  }

  function DoEarlyRead(c: Setup, s: Conn, r: bool, w: bool, tls: Tls): Conn {
    match tls
    case Data(bytes) =>
      if bytes == [] then Before([EarlyRead(r, w)], s) else Inbound(c, s, bytes, EarlyNext(r, w))
    case Finished => Before([Accept(r, w)], s.(earlyDone := true))
    case NeedsRead => Pending(s, false, w)
    case NeedsWrite => Pending(s, true, w)
    case Refused => Before([Close], s)
  }

  function DoAccept(s: Conn, r: bool, w: bool, tls: Tls): Conn {
    match tls
    case Finished => Before([FlushNow] + Tail(r, w), Watch(s.(tlsDone := true), false))
    case NeedsRead => Pending(s, false, w)
    case NeedsWrite => Pending(s, true, w)
    case _ => Before([Close], s)
  }

  function DoRead(c: Setup, s: Conn, tls: Tls): Conn {
    match tls
    case Data(bytes) => if bytes == [] then Before([Close], s) else Inbound(c, s, bytes, ReadNext)
    case NeedsRead => s
    case NeedsWrite => Watch(s, true)
    case _ => Before([Close], s)
  }

  function DoEnqueue(s: Conn, q: Queued): Conn {
    s.(history := s.history + [q], out := Push(s.out, QueuedBytes(q)))
  }

  /** One operation; `s` has it already taken off its list. */
  function Do(c: Setup, s: Conn, op: Op, tls: Tls, writes: nat -> WriteResult, timeIsUp: bool): Conn
    requires ValidQueue(s.out.queue)
  {
    match op
    case EarlyRead(r, w) => DoEarlyRead(c, s, r, w, tls)
    case EarlyNext(r, w) =>
      if s.closing then Before([Accept(r, w)], s.(earlyDone := true)) else Before([EarlyRead(r, w)], s)
    case Accept(r, w) => DoAccept(s, r, w, tls)
    case Read => DoRead(c, s, tls)
    case ReadNext => if s.closing then s else Before([Read], s)
    case MarkUpgraded => s.(upgraded := true)
    case Enqueue(q) => DoEnqueue(s, q)
    case WantOutput => Watch(s, true)
    case FlushIfTls => if s.tlsDone then DoFlush(s, writes) else s
    case FlushNow => DoFlush(s, writes)
    case FlushThenClose =>
      var s' := DoFlush(s, writes);
      if (!s.fdOpen || s'.out.queue == []) && s.closing then Before([Close], s') else s'
    case FlushUnlessClosing => if s.tlsDone && !s.closing then DoFlush(s, writes) else s
    case StartClosing => s.(closing := true)
    case Submit(task) => s.(tasks := s.tasks + [task])
    case DrainBell => s.(bell := 0)
    case PingIfDue =>
      if timeIsUp && s.tlsDone && s.upgraded && !s.closing
      then Before([Enqueue(Message(ServerFrame(OP_PING, []))), WantOutput], s) else s
    case CloseIfIdle => if timeIsUp then Before([Close], s) else s
    case Close => s.(closing := true, fdOpen := false)
  }

  /** What the IO thread sets out to do about an event. */
  function Handler(s: Conn, e: Event): seq<Op> {
    match e
    case Ready(r, w) =>
      if !s.fdOpen then []
      else if (r || w) && !s.tlsDone then [if s.earlyDone then Accept(r, w) else EarlyRead(r, w)]
      else Tail(r, w)
    case HungUp => [Close]
    case Bell => [DrainBell, FlushUnlessClosing]
    case Tick => [PingIfDue, FlushUnlessClosing, CloseIfIdle]
  }

  // ---------------------------------------------------------------- steps and runs

  predicate NeedsLock(op: Op) {
    op.Enqueue? || op.FlushIfTls? || op.FlushNow? || op.FlushThenClose? || op.FlushUnlessClosing? || op.Close?
  }

  /** A text message is echoed; a binary one is answered by whatever binary frames the file manager gives. */
  ghost predicate LegalReplies(task: Frame, replies: seq<WireFrame>) {
    if task.opcode == OP_TEXT then replies == [ServerFrame(OP_TEXT, task.payload)] && |task.payload| < MAX_LENGTH
    else forall f :: f in replies ==> f == ServerFrame(OP_BINARY, f.payload) && |f.payload| < MAX_LENGTH
  }

  ghost predicate Enabled(s: Conn, a: Action) {
    match a
    case Wake(_) => s.todo == []
    case Step(_, _, _) => s.todo != [] && (NeedsLock(s.todo[0]) ==> s.lock.None?)
    case WorkerLock(k, replies) => s.lock.None? && k < |s.tasks| && LegalReplies(s.tasks[k], replies)
    case WorkerPush => s.lock.Some?
    case WorkerWantsOutput => s.raising > 0
    case WorkerRings => s.ringing > 0
    case OtherRings => true
  }

  function PushAll(s: Conn, replies: seq<WireFrame>): Conn
    decreases |replies|
  {
    if replies == [] then s else PushAll(DoEnqueue(s, Message(replies[0])), replies[1..])
  }

  function Next(c: Setup, s: Conn, a: Action): Conn
    requires ValidQueue(s.out.queue)
  {
    match a
    case Wake(e) => s.(todo := Handler(s, e))
    case Step(tls, writes, timeIsUp) => if s.todo == [] then s else Do(c, s.(todo := s.todo[1..]), s.todo[0], tls, writes, timeIsUp)
    case WorkerLock(k, replies) =>
      if k >= |s.tasks| then s
      else
        var s' := s.(tasks := s.tasks[..k] + s.tasks[k + 1..]);
        if s.closing || !s.fdOpen || replies == [] then s' else s'.(lock := Some(replies))
    case WorkerPush =>
      if s.lock.None? then s else PushAll(s, s.lock.value).(lock := None, raising := s.raising + 1)
    case WorkerWantsOutput =>
      if s.raising == 0 then s else Watch(s, true).(raising := s.raising - 1, ringing := s.ringing + 1)
    case WorkerRings => if s.ringing == 0 then s else s.(ringing := s.ringing - 1, bell := s.bell + 1)
    case OtherRings => s.(bell := s.bell + 1)
  }

  /** A run: every state follows from the one before by an enabled action. */
  ghost predicate Run(c: Setup, states: seq<Conn>, actions: seq<Action>) {
    && |states| == |actions| + 1
    && (exists noEarlyData :: states[0] == Fresh(noEarlyData))
    && forall i :: 0 <= i < |actions| && ValidQueue(states[i].out.queue) ==>
         Enabled(states[i], actions[i]) && states[i + 1] == Next(c, states[i], actions[i])
  }
}
