/**
 * When a connection is closed, when it is read and when it is written, over every run: exactly the reasons to give it
 * up, reading until the TLS layer has nothing more, and the wakeups that send.
 */
module Closing {
  import opened Bytes
  import opened FrameCodec
  import opened StreamParser
  import opened Outbound
  import opened Connection
  import opened ConnectionOrder
  import opened ConnectionRuns
  import opened RunAnswers
  import opened Received
  import opened WorkerReplies
  import EarlyWrites

  // ---------------------------------------------------------------- giving up

  /** What was read breaks the protocol. */
  predicate BreaksProtocol(c: Setup, s: Conn, tls: Tls) {
    tls.Data? && tls.bytes != [] && s.parser.Live? && Feed(c, s.parser.phase, tls.bytes).status.Dead?
  }

  /** A reason to close the connection. */
  ghost predicate GivesUp(c: Setup, s: Conn, a: Action)
    requires ValidQueue(s.out.queue)
  {
    || (a.Wake? && a.event.HungUp?)
    || (a.Step? && s.todo != [] &&
          match s.todo[0]
          case EarlyRead(_, _) => a.tls.Refused? || BreaksProtocol(c, s, a.tls)
          case Accept(_, _) => a.tls.Refused? || a.tls.Data?
          case Read => a.tls.Refused? || a.tls.Finished? || a.tls == Data([]) || BreaksProtocol(c, s, a.tls)
          case FlushThenClose => s.closing && (!s.fdOpen || Flush(s.out, a.writes).queue == [])
          case CloseIfIdle => a.timeIsUp
          case _ => false)
  }

  /** Closed, or about to be. */
  predicate CloseOwed(s: Conn) {
    !s.fdOpen || Close in s.todo
  }

  lemma {:induction false} FrameOpsNoClose(frames: seq<Frame>)
    ensures Close !in FrameOps(frames)
  {
    if frames != [] {
      FrameOpsNoClose(frames[1..]);
    }
  }

  lemma InboundCloses(c: Setup, s: Conn, data: seq<byte>, next: Op)
    requires next != Close
    ensures CloseOwed(Inbound(c, s, data, next)) <==> CloseOwed(s) || (s.parser.Live? && Feed(c, s.parser.phase, data).status.Dead?)
  {
    if s.parser.Live? {
      var r := Feed(c, s.parser.phase, data);
      FrameOpsNoClose(r.frames);
      assert Close !in UpgradeOps(r.accepted);
      hide Feed, FrameOps, UpgradeOps;
    }
  }

  lemma PendingCloses(s: Conn, interest: bool, w: bool)
    ensures CloseOwed(Pending(s, interest, w)) <==> CloseOwed(s)
  {
  }

  lemma EarlyReadCloses(c: Setup, s: Conn, r: bool, w: bool, tls: Tls)
    ensures CloseOwed(DoEarlyRead(c, s, r, w, tls)) <==> CloseOwed(s) || tls.Refused? || BreaksProtocol(c, s, tls)
  {
    hide Inbound, Pending;
    if tls.Data? {
      InboundCloses(c, s, tls.bytes, EarlyNext(r, w));
    }
    PendingCloses(s, false, w);
    PendingCloses(s, true, w);
  }

  lemma AcceptCloses(s: Conn, r: bool, w: bool, tls: Tls)
    ensures CloseOwed(DoAccept(s, r, w, tls)) <==> CloseOwed(s) || tls.Refused? || tls.Data?
  {
    hide Pending;
    PendingCloses(s, false, w);
    PendingCloses(s, true, w);
  }

  lemma ReadCloses(c: Setup, s: Conn, tls: Tls)
    ensures CloseOwed(DoRead(c, s, tls)) <==> CloseOwed(s) || tls.Refused? || tls.Finished? || tls == Data([]) || BreaksProtocol(c, s, tls)
  {
    hide Inbound;
    if tls.Data? {
      InboundCloses(c, s, tls.bytes, ReadNext);
    }
  }

  lemma PlainCloses(c: Setup, s: Conn, op: Op, tls: Tls, writes: nat -> WriteResult, timeIsUp: bool)
    requires ValidQueue(s.out.queue) && !Reads(op) && !op.Accept? && !op.FlushThenClose?
    ensures CloseOwed(Do(c, s, op, tls, writes, timeIsUp)) <==> CloseOwed(s) || op.Close? || (op.CloseIfIdle? && timeIsUp)
  {
    hide Flush, QueuedBytes, Push, DoEarlyRead, DoRead, DoAccept;
  }

  lemma DrainCloses(c: Setup, s: Conn, tls: Tls, writes: nat -> WriteResult, timeIsUp: bool)
    requires ValidQueue(s.out.queue)
    ensures CloseOwed(Do(c, s, FlushThenClose, tls, writes, timeIsUp))
       <==> CloseOwed(s) || (s.closing && (!s.fdOpen || Flush(s.out, writes).queue == []))
  {
    hide Flush;
  }

  lemma StepCloses(c: Setup, s: Conn, tls: Tls, writes: nat -> WriteResult, timeIsUp: bool)
    requires ValidQueue(s.out.queue) && s.todo != []
    ensures CloseOwed(Next(c, s, Step(tls, writes, timeIsUp))) <==> CloseOwed(s) || GivesUp(c, s, Step(tls, writes, timeIsUp))
  {
    hide DoEarlyRead, DoRead, DoAccept, DoFlush, Flush, Feed;
    var s0, op := s.(todo := s.todo[1..]), s.todo[0];
    assert CloseOwed(s) <==> CloseOwed(s0) || op == Close;
    match op
    case EarlyRead(r, w) => EarlyReadCloses(c, s0, r, w, tls);
    case Accept(r, w) => AcceptCloses(s0, r, w, tls);
    case Read => ReadCloses(c, s0, tls);
    case FlushThenClose =>
      DrainCloses(c, s0, tls, writes, timeIsUp);
      hide Do;
    case _ =>
      hide Do;
      PlainCloses(c, s0, op, tls, writes, timeIsUp);
  }

  lemma HandlerCloses(s: Conn, e: Event)
    ensures Close in Handler(s, e) <==> e.HungUp?
  {
  }

  lemma OutsideCloses(c: Setup, s: Conn, a: Action)
    requires ValidQueue(s.out.queue) && Enabled(s, a) && !a.Step?
    ensures CloseOwed(Next(c, s, a)) <==> CloseOwed(s) || GivesUp(c, s, a)
  {
    hide LegalReplies, Handler;
    if a.Wake? {
      HandlerCloses(s, a.event);
    } else if a.WorkerPush? {
      PushAllOnlyQueues(s, s.lock.value);
      hide PushAll;
    }
  }

  lemma NextCloses(c: Setup, s: Conn, a: Action)
    requires ValidQueue(s.out.queue) && Enabled(s, a)
    ensures CloseOwed(Next(c, s, a)) <==> CloseOwed(s) || GivesUp(c, s, a)
  {
    hide Next, CloseOwed, GivesUp, LegalReplies;
    if a.Step? {
      StepCloses(c, s, a.tls, a.writes, a.timeIsUp);
    } else {
      OutsideCloses(c, s, a);
    }
  }

  /** Some step before the `n`-th had a reason to close. */
  ghost predicate GaveUp(c: Setup, states: seq<Conn>, actions: seq<Action>, n: nat)
    requires n <= |actions| && n < |states|
  {
    exists i :: 0 <= i < n && ValidQueue(states[i].out.queue) && GivesUp(c, states[i], actions[i])
  }

  lemma GaveUpNext(c: Setup, states: seq<Conn>, actions: seq<Action>, n: nat)
    requires n < |actions| && n + 1 < |states| && ValidQueue(states[n].out.queue)
    ensures GaveUp(c, states, actions, n + 1) <==> GaveUp(c, states, actions, n) || GivesUp(c, states[n], actions[n])
  {
    hide GivesUp, ValidQueue;
    if GaveUp(c, states, actions, n) {
      var i :| 0 <= i < n && ValidQueue(states[i].out.queue) && GivesUp(c, states[i], actions[i]);
      assert 0 <= i < n + 1;
    }
  }

  lemma {:induction false} OwedExactly(c: Setup, states: seq<Conn>, actions: seq<Action>, n: nat)
    requires Run(c, states, actions) && n < |states|
    ensures CloseOwed(states[n]) <==> GaveUp(c, states, actions, n)
    decreases n
  {
    if n == 0 {
      var noEarlyData :| states[0] == Fresh(noEarlyData);
    } else {
      OwedExactly(c, states, actions, n - 1);
      RunKeeps(c, states, actions, n - 1);
      StillValid(states[n - 1]);
      assert states[n] == Next(c, states[n - 1], actions[n - 1]) && Enabled(states[n - 1], actions[n - 1]);
      hide Run, Ordered, Conserved, Woken, Next, LegalReplies, CloseOwed, GivesUp, GaveUp;
      NextCloses(c, states[n - 1], actions[n - 1]);
      GaveUpNext(c, states, actions, n - 1);
    }
  }

  /**
   * In every run, whenever the IO thread waits, the connection is closed if and only if there was a reason: the peer hung
   * up or ended the stream, the TLS layer or the parser failed, the connection was idle, or, closing, it had
   * nothing more to send when it became writable.
   */
  lemma ClosedExactly(c: Setup, states: seq<Conn>, actions: seq<Action>, n: nat)
    requires Run(c, states, actions) && n < |states| && states[n].todo == []
    ensures !states[n].fdOpen <==> GaveUp(c, states, actions, n)
  {
    OwedExactly(c, states, actions, n);
  }

  // ---------------------------------------------------------------- reading to the end

  /** An operation that goes on with the handshake and then reads, or reads. */
  predicate Drives(op: Op) {
    match op
    case EarlyRead(r, _) => r
    case EarlyNext(r, _) => r
    case Accept(r, _) => r
    case Read => true
    case ReadNext => true
    case _ => false
  }

  predicate StillReading(s: Conn) {
    exists op :: op in s.todo && Drives(op)
  }

  predicate TlsCall(op: Op) {
    op.EarlyRead? || op.Accept? || op.Read?
  }

  /** The TLS layer has to wait. */
  predicate Blocks(s: Conn, a: Action) {
    a.Step? && s.todo != [] && TlsCall(s.todo[0]) && (a.tls.NeedsRead? || a.tls.NeedsWrite?)
  }

  predicate DoneReading(s: Conn) {
    StillReading(s) || s.closing || CloseOwed(s)
  }

  lemma Driven(s: Conn, op: Op)
    requires op in s.todo && Drives(op)
    ensures DoneReading(s)
  {
  }

  lemma InboundReads(c: Setup, s: Conn, data: seq<byte>, next: Op)
    requires (s.parser.Dead? ==> CloseOwed(s)) && Drives(next)
    ensures DoneReading(Inbound(c, s, data, next))
  {
    if s.parser.Live? {
      var r := Feed(c, s.parser.phase, data);
      hide Feed, FrameOps, UpgradeOps, StillReading;
      if r.status.Live? {
        var ops := UpgradeOps(r.accepted) + FrameOps(r.frames) + [next];
        assert (ops + s.todo)[|ops| - 1] == next;
        Driven(Inbound(c, s, data, next), next);
      }
    }
  }

  lemma EarlyGoesOn(c: Setup, s: Conn, w: bool, tls: Tls)
    requires (s.parser.Dead? ==> CloseOwed(s)) && !tls.NeedsRead? && !tls.NeedsWrite?
    ensures DoneReading(DoEarlyRead(c, s, true, w, tls))
  {
    hide Inbound, StillReading;
    var s' := DoEarlyRead(c, s, true, w, tls);
    if tls.Data? && tls.bytes != [] {
      InboundReads(c, s, tls.bytes, EarlyNext(true, w));
    } else if tls.Data? {
      assert s'.todo[0] == EarlyRead(true, w);
      Driven(s', EarlyRead(true, w));
    } else if tls.Finished? {
      assert s'.todo[0] == Accept(true, w);
      Driven(s', Accept(true, w));
    }
  }

  lemma AcceptGoesOn(s: Conn, w: bool, tls: Tls)
    requires !tls.NeedsRead? && !tls.NeedsWrite?
    ensures DoneReading(DoAccept(s, true, w, tls))
  {
    hide StillReading;
    var s' := DoAccept(s, true, w, tls);
    if tls.Finished? {
      assert s'.todo[1] == Read;
      Driven(s', Read);
    }
  }

  lemma ReadGoesOn(c: Setup, s: Conn, tls: Tls)
    requires (s.parser.Dead? ==> CloseOwed(s)) && !tls.NeedsRead? && !tls.NeedsWrite?
    ensures DoneReading(DoRead(c, s, tls))
  {
    hide Inbound;
    if tls.Data? {
      InboundReads(c, s, tls.bytes, ReadNext);
    }
  }

  lemma KeepsReading(s: Conn, s': Conn, ops: seq<Op>)
    requires s'.todo == ops + s.todo && StillReading(s)
    ensures StillReading(s')
  {
    var op :| op in s.todo && Drives(op);
    assert op in s'.todo;
  }

  /** An operation that drives the connection is followed by another one, until the TLS layer has to wait. */
  lemma DriveGoesOn(c: Setup, s: Conn, op: Op, tls: Tls, writes: nat -> WriteResult, timeIsUp: bool)
    requires ValidQueue(s.out.queue) && Drives(op) && (s.parser.Dead? ==> CloseOwed(s))
    requires TlsCall(op) ==> !tls.NeedsRead? && !tls.NeedsWrite?
    ensures DoneReading(Do(c, s, op, tls, writes, timeIsUp))
  {
    hide DoRead, DoEarlyRead, DoAccept, StillReading;
    var s' := Do(c, s, op, tls, writes, timeIsUp);
    match op
    case EarlyRead(_, w) => EarlyGoesOn(c, s, w, tls);
    case Accept(_, w) => AcceptGoesOn(s, w, tls);
    case Read => ReadGoesOn(c, s, tls);
    case EarlyNext(_, w) =>
      var next := if s.closing then Accept(true, w) else EarlyRead(true, w);
      assert s'.todo[0] == next;
      Driven(s', next);
    case ReadNext =>
      if !s.closing {
        assert s'.todo[0] == Read;
        Driven(s', Read);
      }
  }

  lemma OthersKeepReading(c: Setup, s: Conn, op: Op, tls: Tls, writes: nat -> WriteResult, timeIsUp: bool)
    requires ValidQueue(s.out.queue) && !ReadingOp(op) && StillReading(s)
    ensures StillReading(Do(c, s, op, tls, writes, timeIsUp))
  {
    var ops := DoInFront(c, s, op, tls, writes, timeIsUp);
    hide Do;
    KeepsReading(s, Do(c, s, op, tls, writes, timeIsUp), ops);
  }

  lemma PopReads(s: Conn)
    requires s.todo != [] && StillReading(s) && !Drives(s.todo[0])
    ensures StillReading(s.(todo := s.todo[1..]))
  {
    var op :| op in s.todo && Drives(op);
    assert op in s.todo[1..];
  }

  /** The handshake operations stand alone. */
  lemma AloneOrDriving(s: Conn)
    requires Ordered(s) && s.todo != [] && ReadingOp(s.todo[0]) && StillReading(s)
    ensures Drives(s.todo[0])
  {
    ReadingOps(s);
    hide Ordered, Reading;
    var op :| op in s.todo && Drives(op);
  }

  lemma StepReads(c: Setup, s: Conn, tls: Tls, writes: nat -> WriteResult, timeIsUp: bool)
    requires ValidQueue(s.out.queue) && s.todo != [] && StillReading(s) && Ordered(s) && s.fdOpen
    requires (s.parser.Dead? ==> CloseOwed(s)) && !CloseOwed(s)
    ensures Blocks(s, Step(tls, writes, timeIsUp)) || DoneReading(Next(c, s, Step(tls, writes, timeIsUp)))
  {
    var s0, op := s.(todo := s.todo[1..]), s.todo[0];
    if ReadingOp(op) {
      AloneOrDriving(s);
      hide Do, Ordered, StillReading, CloseOwed;
      if !Blocks(s, Step(tls, writes, timeIsUp)) {
        DriveGoesOn(c, s0, op, tls, writes, timeIsUp);
      }
    } else {
      PopReads(s);
      hide Do, Ordered, StillReading;
      OthersKeepReading(c, s0, op, tls, writes, timeIsUp);
    }
  }

  lemma SameTodo(c: Setup, s: Conn, a: Action)
    requires ValidQueue(s.out.queue) && Enabled(s, a) && !a.Step? && !a.Wake?
    ensures Next(c, s, a).todo == s.todo && Next(c, s, a).closing == s.closing && Next(c, s, a).fdOpen == s.fdOpen
    ensures Next(c, s, a).tlsDone == s.tlsDone
  {
    hide LegalReplies;
    if a.WorkerPush? {
      PushAllOnlyQueues(s, s.lock.value);
      hide PushAll;
    }
  }

  lemma NextReads(c: Setup, s: Conn, a: Action)
    requires ValidQueue(s.out.queue) && Enabled(s, a) && !a.Wake? && DoneReading(s) && Ordered(s)
    requires s.parser.Dead? ==> CloseOwed(s)
    ensures Blocks(s, a) || DoneReading(Next(c, s, a))
  {
    NextCloses(c, s, a);
    StaysOpen(c, s, a);
    assert !CloseOwed(s) ==> s.fdOpen;
    hide Next, Ordered, CloseOwed, LegalReplies, GivesUp, StillReading;
    if !s.closing && !CloseOwed(s) {
      if a.Step? {
        StepReads(c, s, a.tls, a.writes, a.timeIsUp);
      } else {
        SameTodo(c, s, a);
        SameReading(s, Next(c, s, a));
      }
    }
  }

  lemma SameReading(s: Conn, s': Conn)
    requires s'.todo == s.todo
    ensures StillReading(s') == StillReading(s)
  {
  }

  lemma {:induction false} DeadIsClosed(c: Setup, states: seq<Conn>, actions: seq<Action>, n: nat)
    requires Run(c, states, actions) && n < |states| && states[n].parser.Dead?
    ensures CloseOwed(states[n])
    decreases n
  {
    AliveAtFirst(c, states, actions);
    if n > 0 {
      RunKeeps(c, states, actions, n - 1);
      StillValid(states[n - 1]);
      var s, a := states[n - 1], actions[n - 1];
      assert states[n] == Next(c, s, a) && Enabled(s, a);
      NextCloses(c, s, a);
      ParserStep(c, s, a);
      if s.parser.Dead? {
        hide Run, Ordered, Conserved, Woken, Next, LegalReplies, CloseOwed, GivesUp, Feed;
        DeadIsClosed(c, states, actions, n - 1);
      } else {
        hide Run, Ordered, Conserved, Woken, Next, LegalReplies, CloseOwed, Feed;
      }
    }
  }

  lemma AliveAtFirst(c: Setup, states: seq<Conn>, actions: seq<Action>)
    requires Run(c, states, actions)
    ensures states[0].parser.Live?
  {
    var noEarlyData :| states[0] == Fresh(noEarlyData);
  }

  ghost predicate BlockedBetween(states: seq<Conn>, actions: seq<Action>, i: nat, n: nat)
    requires n <= |actions| && n < |states|
  {
    exists j :: i < j < n && Blocks(states[j], actions[j])
  }

  lemma StillBlocked(states: seq<Conn>, actions: seq<Action>, i: nat, n: nat)
    requires i < n < |actions| && n + 1 < |states| && (BlockedBetween(states, actions, i, n) || Blocks(states[n], actions[n]))
    ensures BlockedBetween(states, actions, i, n + 1)
  {
    hide Blocks;
    if BlockedBetween(states, actions, i, n) {
      var j :| i < j < n && Blocks(states[j], actions[j]);
      assert i < j < n + 1;
    }
  }

  lemma StartsReading(c: Setup, s: Conn, w: bool)
    requires ValidQueue(s.out.queue) && s.todo == []
    ensures DoneReading(Next(c, s, Wake(Ready(true, w))))
  {
    var s' := Next(c, s, Wake(Ready(true, w)));
    if s.fdOpen {
      Driven(s', s'.todo[0]);
    }
  }

  /** One step of a run, with what is known of the state before it. */
  lemma RunStep(c: Setup, states: seq<Conn>, actions: seq<Action>, n: nat)
    requires Run(c, states, actions) && n < |actions|
    ensures n + 1 < |states| && Ordered(states[n]) && ValidQueue(states[n].out.queue)
    ensures Enabled(states[n], actions[n]) && states[n + 1] == Next(c, states[n], actions[n])
    ensures states[n].parser.Dead? ==> CloseOwed(states[n])
  {
    RunKeeps(c, states, actions, n);
    StillValid(states[n]);
    if states[n].parser.Dead? {
      DeadIsClosed(c, states, actions, n);
    }
    hide Ordered, Conserved, Woken, Next, CloseOwed, LegalReplies;
  }

  lemma RunLength(c: Setup, states: seq<Conn>, actions: seq<Action>)
    requires Run(c, states, actions)
    ensures |states| == |actions| + 1
  {
  }

  predicate NoWake(actions: seq<Action>, i: nat, n: nat)
    requires n <= |actions|
  {
    forall j :: i < j < n ==> !actions[j].Wake?
  }

  ghost predicate DrivenSince(states: seq<Conn>, actions: seq<Action>, i: nat, n: nat)
    requires n <= |actions| && n < |states|
  {
    DoneReading(states[n]) || BlockedBetween(states, actions, i, n)
  }

  lemma OneStepDriven(c: Setup, states: seq<Conn>, actions: seq<Action>, i: nat, n: nat)
    requires Run(c, states, actions) && i < n < |actions| && n + 1 < |states| && !actions[n].Wake?
    requires DrivenSince(states, actions, i, n)
    ensures DrivenSince(states, actions, i, n + 1)
  {
    RunStep(c, states, actions, n);
    hide Run, Ordered, Next, Enabled, DoneReading, Blocks, BlockedBetween, CloseOwed, ValidQueue;
    if BlockedBetween(states, actions, i, n) {
      StillBlocked(states, actions, i, n);
    } else {
      NextReads(c, states[n], actions[n]);
      if Blocks(states[n], actions[n]) {
        StillBlocked(states, actions, i, n);
      }
    }
  }

  lemma NoWakeBefore(actions: seq<Action>, i: nat, n: nat)
    requires i < n < |actions| && NoWake(actions, i, n + 1)
    ensures NoWake(actions, i, n) && !actions[n].Wake?
  {
  }

  lemma FirstDriven(c: Setup, states: seq<Conn>, actions: seq<Action>, i: nat)
    requires Run(c, states, actions) && i < |actions| && i + 1 < |states|
    requires actions[i].Wake? && actions[i].event.Ready? && actions[i].event.readable
    ensures DrivenSince(states, actions, i, i + 1)
  {
    RunStep(c, states, actions, i);
    hide Run, Ordered, Next, Enabled, DoneReading, BlockedBetween, CloseOwed, ValidQueue;
    StartsDriving(c, states[i], actions[i]);
  }

  lemma {:induction false} ReadingSince(c: Setup, states: seq<Conn>, actions: seq<Action>, i: nat, n: nat)
    requires Run(c, states, actions) && i < n <= |actions| && n < |states|
    requires actions[i].Wake? && actions[i].event.Ready? && actions[i].event.readable && NoWake(actions, i, n)
    ensures DrivenSince(states, actions, i, n)
    decreases n
  {
    hide *;
    if i == n - 1 {
      FirstDriven(c, states, actions, i);
    } else {
      NoWakeBefore(actions, i, n - 1);
      ReadingSince(c, states, actions, i, n - 1);
      OneStepDriven(c, states, actions, i, n - 1);
    }
  }

  lemma StartsDriving(c: Setup, s: Conn, a: Action)
    requires ValidQueue(s.out.queue) && Enabled(s, a) && a.Wake? && a.event.Ready? && a.event.readable
    ensures DoneReading(Next(c, s, a))
  {
    hide DoneReading;
    StartsReading(c, s, a.event.writable);
  }

  /**
   * A readable connection is driven to the end: through early data, the handshake and the messages behind it. When the
   * IO thread waits again, the TLS layer has said since that it has to wait, unless the connection is closing
   * or closed. (An edge-triggered event does not come twice.)
   */
  lemma ReadToTheEnd(c: Setup, states: seq<Conn>, actions: seq<Action>, i: nat, n: nat)
    requires Run(c, states, actions) && i < n < |states|
    requires actions[i].Wake? && actions[i].event.Ready? && actions[i].event.readable
    requires states[n].todo == [] && forall j :: i < j < n ==> !actions[j].Wake?
    ensures BlockedBetween(states, actions, i, n) || states[n].closing || !states[n].fdOpen
  {
    RunLength(c, states, actions);
    assert NoWake(actions, i, n);
    hide Run;
    ReadingSince(c, states, actions, i, n);
  }

  // ---------------------------------------------------------------- the handshake

  /** What the TLS layer waits for is what the socket is watched for. */
  lemma WatchesFor(c: Setup, s: Conn, a: Action)
    requires ValidQueue(s.out.queue) && Blocks(s, a) && s.fdOpen
    ensures a.tls.NeedsWrite? ==> Next(c, s, a).out.interest
    ensures a.tls.NeedsRead? && !s.todo[0].Read? ==> !Next(c, s, a).out.interest
    ensures a.tls.NeedsRead? && s.todo[0].Read? ==> Next(c, s, a).out.interest == s.out.interest
  {
    hide Flush, QueuedBytes, Push, Feed, FrameOps, UpgradeOps;
  }

  /** Whoever queues something asks for writability, the IO thread and the workers alike. */
  lemma AsksForOutput(c: Setup, s: Conn, a: Action)
    requires ValidQueue(s.out.queue) && Enabled(s, a) && s.fdOpen
    requires a.WorkerWantsOutput? || (a.Step? && s.todo[0].WantOutput?)
    ensures Next(c, s, a).out.interest && Next(c, s, a).out.queue == s.out.queue
  {
    hide Flush, QueuedBytes, Push, Feed, FrameOps, UpgradeOps, LegalReplies;
  }

  /** The handshake is done when the TLS layer says so; early data is over when it says so, or when the connection closes. */
  ghost predicate HandshakeMoves(s: Conn, a: Action, s': Conn) {
    && (s'.tlsDone <==> s.tlsDone || (a.Step? && s.todo != [] && s.todo[0].Accept? && a.tls.Finished?))
    && (s'.earlyDone <==>
          s.earlyDone || (a.Step? && s.todo != [] && ((s.todo[0].EarlyRead? && a.tls.Finished?) || (s.todo[0].EarlyNext? && s.closing))))
  }

  lemma InboundHandshake(c: Setup, s: Conn, data: seq<byte>, next: Op)
    ensures Inbound(c, s, data, next).tlsDone == s.tlsDone && Inbound(c, s, data, next).earlyDone == s.earlyDone
  {
    hide Feed, FrameOps, UpgradeOps;
  }

  lemma EarlyReadHandshake(c: Setup, s: Conn, r: bool, w: bool, tls: Tls)
    ensures DoEarlyRead(c, s, r, w, tls).tlsDone == s.tlsDone
    ensures DoEarlyRead(c, s, r, w, tls).earlyDone == (s.earlyDone || tls.Finished?)
  {
    hide Inbound;
    if tls.Data? {
      InboundHandshake(c, s, tls.bytes, EarlyNext(r, w));
    }
  }

  lemma AcceptHandshake(s: Conn, r: bool, w: bool, tls: Tls)
    ensures DoAccept(s, r, w, tls).tlsDone == (s.tlsDone || tls.Finished?) && DoAccept(s, r, w, tls).earlyDone == s.earlyDone
  {
    var t := s.(tlsDone := true);
    SameHandshake(t, Watch(t, false));
    SameHandshake(Watch(t, false), Before([FlushNow] + Tail(r, w), Watch(t, false)));
    SameHandshake(s, Pending(s, false, w));
    SameHandshake(s, Pending(s, true, w));
    SameHandshake(s, Before([Close], s));
    hide Tail, Before, Watch, Pending;
  }

  lemma SameHandshake(s: Conn, s': Conn)
    requires s' == s.(todo := s'.todo, out := s'.out)
    ensures s'.tlsDone == s.tlsDone && s'.earlyDone == s.earlyDone
  {
  }

  lemma ReadHandshake(c: Setup, s: Conn, tls: Tls)
    ensures DoRead(c, s, tls).tlsDone == s.tlsDone && DoRead(c, s, tls).earlyDone == s.earlyDone
  {
    hide Inbound;
    if tls.Data? {
      InboundHandshake(c, s, tls.bytes, ReadNext);
    }
  }

  lemma ReadingHandshake(c: Setup, s: Conn, op: Op, tls: Tls, writes: nat -> WriteResult, timeIsUp: bool)
    requires ValidQueue(s.out.queue) && ReadingOp(op)
    ensures
      var s' := Do(c, s, op, tls, writes, timeIsUp);
      && (s'.tlsDone <==> s.tlsDone || (op.Accept? && tls.Finished?))
      && (s'.earlyDone <==> s.earlyDone || (op.EarlyRead? && tls.Finished?) || (op.EarlyNext? && s.closing))
  {
    hide DoEarlyRead, DoAccept, DoRead;
    match op
    case EarlyRead(r, w) => EarlyReadHandshake(c, s, r, w, tls);
    case Accept(r, w) => AcceptHandshake(s, r, w, tls);
    case Read => ReadHandshake(c, s, tls);
    case _ =>
  }

  lemma FlushHandshake(c: Setup, s: Conn, op: Op, tls: Tls, writes: nat -> WriteResult, timeIsUp: bool)
    requires ValidQueue(s.out.queue) && IsFlush(op)
    ensures Do(c, s, op, tls, writes, timeIsUp).tlsDone == s.tlsDone && Do(c, s, op, tls, writes, timeIsUp).earlyDone == s.earlyDone
  {
    hide Flush, DoEarlyRead, DoRead, DoAccept, DoEnqueue, Watch;
  }

  lemma PlainHandshake(c: Setup, s: Conn, op: Op, tls: Tls, writes: nat -> WriteResult, timeIsUp: bool)
    requires ValidQueue(s.out.queue) && !ReadingOp(op)
    ensures Do(c, s, op, tls, writes, timeIsUp).tlsDone == s.tlsDone && Do(c, s, op, tls, writes, timeIsUp).earlyDone == s.earlyDone
  {
    if IsFlush(op) {
      hide Do;
      FlushHandshake(c, s, op, tls, writes, timeIsUp);
    } else {
      hide DoFlush, QueuedBytes, Push, DoEarlyRead, DoRead, DoAccept;
    }
  }

  lemma HandshakeExactly(c: Setup, s: Conn, a: Action)
    requires ValidQueue(s.out.queue) && Enabled(s, a)
    ensures HandshakeMoves(s, a, Next(c, s, a))
  {
    hide LegalReplies;
    if a.Step? {
      hide Do;
      var s0, op := s.(todo := s.todo[1..]), s.todo[0];
      if ReadingOp(op) {
        ReadingHandshake(c, s0, op, a.tls, a.writes, a.timeIsUp);
      } else {
        PlainHandshake(c, s0, op, a.tls, a.writes, a.timeIsUp);
      }
    } else if a.WorkerPush? {
      PushAllOnlyQueues(s, s.lock.value);
      hide PushAll;
    }
  }

  // ---------------------------------------------------------------- wakeups that send

  /** A flush with a TLS layer that takes what it is offered. */
  lemma FlushSends(s: Conn, writes: nat -> WriteResult)
    requires Conserved(s.history, s.out) && s.fdOpen && forall k :: writes(k).Wrote?
    ensures ValidQueue(s.out.queue)
    ensures DoFlush(s, writes) == s.(out := Output([], HistoryBytes(s.history), false, Drained))
  {
    hide WriteLoop, Unsent, HistoryBytes;
    WriteLoopDrains(s.out.queue, s.out.sent, writes, 0);
    FlushConserves(s.history, s.out, writes);
    NothingUnsent(Flush(s.out, writes));
  }

  /** An open connection that becomes writable sends all it has, and is closed if it was closing. */
  lemma WritableSends(c: Setup, s: Conn, tls: Tls, writes: nat -> WriteResult, timeIsUp: bool)
    requires Conserved(s.history, s.out) && s.todo == [] && s.fdOpen && s.tlsDone && forall k :: writes(k).Wrote?
    ensures ValidQueue(s.out.queue) && ValidQueue(Next(c, s, Wake(Ready(false, true))).out.queue)
    ensures Next(c, Next(c, s, Wake(Ready(false, true))), Step(tls, writes, timeIsUp))
         == s.(out := Output([], HistoryBytes(s.history), false, Drained), todo := if s.closing then [Close] else [])
  {
    StillValid(s);
    var s1 := Next(c, s, Wake(Ready(false, true)));
    assert s1.todo == [FlushThenClose] && s1.todo[1..] == [];
    hide Conserved, HistoryBytes;
    FlushSends(s1.(todo := []), writes);
    hide Flush, DoFlush;
    assert [Close] + [] == [Close];
  }

  /** The eventfd: the bell is cleared, and an open connection that is not closing sends all it has. */
  lemma BellSends(c: Setup, s: Conn, tls: Tls, writes: nat -> WriteResult, timeIsUp: bool)
    requires Conserved(s.history, s.out) && s.todo == [] && s.fdOpen && s.tlsDone && !s.closing && forall k :: writes(k).Wrote?
    ensures ValidQueue(s.out.queue)
    ensures
      var s1 := Next(c, s, Wake(Bell));
      ValidQueue(s1.out.queue) &&
      var s2 := Next(c, s1, Step(tls, writes, timeIsUp));
      ValidQueue(s2.out.queue) &&
      Next(c, s2, Step(tls, writes, timeIsUp)) == s.(out := Output([], HistoryBytes(s.history), false, Drained), bell := 0)
  {
    StillValid(s);
    var s1 := Next(c, s, Wake(Bell));
    var s2 := Next(c, s1, Step(tls, writes, timeIsUp));
    assert s1.todo[0] == DrainBell && s1.todo[1..] == [FlushUnlessClosing];
    assert s2 == s.(bell := 0, todo := [FlushUnlessClosing]);
    hide Conserved, HistoryBytes;
    FlushSends(s.(bell := 0), writes);
    hide Flush, DoFlush;
    assert [FlushUnlessClosing][1..] == [];
  }

  // ---------------------------------------------------------------- what does not happen any more

  lemma FlushOnlyOpen(s: Conn, writes: nat -> WriteResult)
    requires ValidQueue(s.out.queue) && !s.fdOpen
    ensures DoFlush(s, writes) == s
  {
  }

  lemma DoOnClosed(c: Setup, s: Conn, op: Op, tls: Tls, writes: nat -> WriteResult, timeIsUp: bool)
    requires ValidQueue(s.out.queue) && !s.fdOpen
    ensures Do(c, s, op, tls, writes, timeIsUp).out.sent == s.out.sent
  {
    FlushOnlyOpen(s, writes);
    if ReadingOp(op) {
      hide Do;
      ReadingSends(c, s, op, tls, writes, timeIsUp);
    } else {
      hide DoFlush, QueuedBytes, DoEarlyRead, DoRead, DoAccept;
    }
  }

  /** Reading never writes. */
  lemma ReadingSends(c: Setup, s: Conn, op: Op, tls: Tls, writes: nat -> WriteResult, timeIsUp: bool)
    requires ValidQueue(s.out.queue) && ReadingOp(op)
    ensures Do(c, s, op, tls, writes, timeIsUp).out.sent == s.out.sent
  {
    hide Inbound;
    if Reads(op) && tls.Data? {
      InboundKeepsOutput(c, s, tls.bytes, if op.EarlyRead? then EarlyNext(op.readable, op.writable) else ReadNext);
    }
  }

  /** On a closed connection nothing is sent any more, whatever happens, and socket events lead to nothing. */
  lemma SilentOnceClosed(c: Setup, s: Conn, a: Action)
    requires ValidQueue(s.out.queue) && Enabled(s, a) && !s.fdOpen
    ensures Next(c, s, a).out.sent == s.out.sent && !Next(c, s, a).fdOpen
    ensures a.Wake? && a.event.Ready? ==> Next(c, s, a).todo == []
  {
    StaysOpen(c, s, a);
    hide LegalReplies;
    if a.Step? {
      hide Do;
      DoOnClosed(c, s.(todo := s.todo[1..]), s.todo[0], a.tls, a.writes, a.timeIsUp);
    } else if a.WorkerPush? {
      EarlyWrites.PushAllOnlySilent(s, s.lock.value);
      hide PushAll;
    }
  }

  /** Once it is closing, a connection is not read on, and neither timer nor eventfd flush it; nor do they before the handshake is done. */
  lemma ClosingIsLeftAlone(c: Setup, s: Conn, tls: Tls, writes: nat -> WriteResult, timeIsUp: bool)
    requires ValidQueue(s.out.queue) && s.todo != []
    ensures
      var s' := Next(c, s, Step(tls, writes, timeIsUp));
      && (s.todo[0].ReadNext? && s.closing ==> s' == s.(todo := s.todo[1..]))
      && (s.todo[0].FlushUnlessClosing? && (s.closing || !s.tlsDone) ==> s' == s.(todo := s.todo[1..]))
  {
    hide Flush, QueuedBytes, Push, Feed, FrameOps, UpgradeOps;
  }
}
