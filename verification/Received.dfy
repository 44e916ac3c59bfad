/**
 * Over whole runs: the connection's parser has seen exactly the bytes that were read, in order, and
 * the 101 that is queued answers the request in them.
 */
module Received {
  import opened Bytes
  import opened FrameCodec
  import opened StreamParser
  import opened Outbound
  import opened Connection
  import opened ConnectionOrder
  import opened ConnectionRuns
  import opened RunAnswers
  import opened UpgradeRequest
  import opened UpgradeVerdicts

  /** The plaintext a step hands to the parser. */
  function PieceOf(s: Conn, a: Action): seq<seq<byte>> {
    if a.Step? && s.todo != [] && Reads(s.todo[0]) && a.tls.Data? && a.tls.bytes != [] && s.parser.Live? then [a.tls.bytes] else []
  }

  function Pieces(states: seq<Conn>, actions: seq<Action>, n: nat): seq<seq<byte>>
    requires n <= |actions| && n < |states|
    decreases n
  {
    if n == 0 then [] else Pieces(states, actions, n - 1) + PieceOf(states[n - 1], actions[n - 1])
  }

  /** Everything read off the connection in the first `n` steps. */
  function Stream(states: seq<Conn>, actions: seq<Action>, n: nat): seq<byte>
    requires n <= |actions| && n < |states|
  {
    Concat(Pieces(states, actions, n))
  }

  /** All frames taken from the parser. */
  function AllFrames(c: Setup, states: seq<Conn>, actions: seq<Action>, n: nat): seq<Frame>
    requires n <= |actions| && n < |states|
    decreases n
  {
    if n == 0 then [] else AllFrames(c, states, actions, n - 1) + Batch(c, states[n - 1], actions[n - 1])
  }

  // ---------------------------------------------------------------- one more piece

  lemma JoinAssociates(a: Fed, b: Fed, d: Fed)
    ensures Join(a, Join(b, d)) == Join(Join(a, b), d)
  {
    Associate(a.frames, b.frames, d.frames);
  }

  lemma JoinNothing(p: Phase, r: Fed)
    ensures Join(Fed(None, [], Live(p)), r) == r
  {
    assert [] + r.frames == r.frames;
  }

  lemma {:induction false} FeedOneMore(c: Setup, p: Phase, chunks: seq<seq<byte>>, data: seq<byte>)
    ensures FeedAll(c, p, chunks + [data]) == Then(c, FeedAll(c, p, chunks), data)
    decreases |chunks|
  {
    hide Feed, Join;
    if chunks == [] {
      assert chunks + [data] == [data] && [data][1..] == [];
      JoinNothing(p, Feed(c, p, data));
      var r := Feed(c, p, data);
      if r.status.Live? {
        JoinEmpty(r, r.status.phase);
      }
    } else {
      var r := Feed(c, p, chunks[0]);
      assert (chunks + [data])[0] == chunks[0] && (chunks + [data])[1..] == chunks[1..] + [data];
      if r.status.Live? {
        FeedOneMore(c, r.status.phase, chunks[1..], data);
        var rest := FeedAll(c, r.status.phase, chunks[1..]);
        JoinStatus(r, rest);
        if rest.status.Live? {
          JoinAssociates(r, rest, Feed(c, rest.status.phase, data));
        }
      }
    }
  }

  lemma JoinStatus(a: Fed, b: Fed)
    ensures Join(a, b).status == b.status
  {
  }

  lemma JoinEmpty(r: Fed, p: Phase)
    requires r.status == Live(p)
    ensures Join(r, Fed(None, [], Live(p))) == r
  {
    assert r.frames + [] == r.frames;
  }

  // ---------------------------------------------------------------- what a step does to the parser

  /** What a step only puts in front of the operations left. */
  ghost predicate PutsInFront(s: Conn, s': Conn, ops: seq<Op>) {
    && s'.todo == ops + s.todo && s'.history == s.history && s'.parser == s.parser
    && forall op :: op in ops ==> !op.Enqueue? && !op.Submit?
  }

  lemma PendingInFront(s: Conn, interest: bool, w: bool)
    ensures PutsInFront(s, Pending(s, interest, w), if w then [FlushNow] else [])
  {
  }

  lemma EarlyReadInFront(c: Setup, s: Conn, r: bool, w: bool, tls: Tls) returns (ops: seq<Op>)
    requires !tls.Data? || tls.bytes == [] || s.parser.Dead?
    ensures PutsInFront(s, DoEarlyRead(c, s, r, w, tls), ops)
  {
    hide Pending, FrameOps, UpgradeOps;
    match tls
    case Data(bytes) => ops := if bytes == [] then [EarlyRead(r, w)] else [];
    case Finished => ops := [Accept(r, w)];
    case NeedsRead => ops := if w then [FlushNow] else []; PendingInFront(s, false, w);
    case NeedsWrite => ops := if w then [FlushNow] else []; PendingInFront(s, true, w);
    case Refused => ops := [Close];
  }

  lemma AcceptInFront(s: Conn, r: bool, w: bool, tls: Tls) returns (ops: seq<Op>)
    ensures PutsInFront(s, DoAccept(s, r, w, tls), ops)
  {
    hide Pending;
    match tls
    case Finished => ops := [FlushNow] + Tail(r, w);
    case NeedsRead => ops := if w then [FlushNow] else []; PendingInFront(s, false, w);
    case NeedsWrite => ops := if w then [FlushNow] else []; PendingInFront(s, true, w);
    case _ => ops := [Close];
  }

  lemma ReadInFront(c: Setup, s: Conn, tls: Tls) returns (ops: seq<Op>)
    requires !tls.Data? || tls.bytes == [] || s.parser.Dead?
    ensures PutsInFront(s, DoRead(c, s, tls), ops)
  {
    hide FrameOps, UpgradeOps;
    ops := match tls case Data(bytes) => (if bytes == [] then [Close] else []) case NeedsRead => [] case NeedsWrite => [] case _ => [Close];
  }

  /** Reading operations that bring the parser nothing. */
  lemma IdleReadInFront(c: Setup, s: Conn, op: Op, tls: Tls, writes: nat -> WriteResult, timeIsUp: bool) returns (ops: seq<Op>)
    requires ValidQueue(s.out.queue) && ReadingOp(op) && (!Reads(op) || !tls.Data? || tls.bytes == [] || s.parser.Dead?)
    ensures PutsInFront(s, Do(c, s, op, tls, writes, timeIsUp), ops)
  {
    match op
    case EarlyRead(r, w) =>
      hide PutsInFront, DoEarlyRead;
      ops := EarlyReadInFront(c, s, r, w, tls);
    case Accept(r, w) =>
      hide PutsInFront, DoAccept;
      ops := AcceptInFront(s, r, w, tls);
    case Read =>
      hide PutsInFront, DoRead;
      ops := ReadInFront(c, s, tls);
    case ReadNext => ops := if s.closing then [] else [Read];
    case EarlyNext(r, w) => ops := if s.closing then [Accept(r, w)] else [EarlyRead(r, w)];
  }

  lemma PlainKeepsParser(c: Setup, s: Conn, op: Op, tls: Tls, writes: nat -> WriteResult, timeIsUp: bool)
    requires ValidQueue(s.out.queue) && !ReadingOp(op)
    ensures Do(c, s, op, tls, writes, timeIsUp).parser == s.parser
  {
    hide Flush, QueuedBytes, Push, DoEarlyRead, DoRead, DoAccept, Before;
    assert forall ops, t :: Before(ops, t).parser == t.parser by {
      forall ops, t
        ensures Before(ops, t).parser == t.parser
      {
        BeforeKeepsParser(ops, t);
      }
    }
  }

  lemma BeforeKeepsParser(ops: seq<Op>, s: Conn)
    ensures Before(ops, s).parser == s.parser
  {
  }

  lemma OtherKeepsParser(c: Setup, s: Conn, op: Op, tls: Tls, writes: nat -> WriteResult, timeIsUp: bool)
    requires ValidQueue(s.out.queue) && (!Reads(op) || !tls.Data? || tls.bytes == [] || s.parser.Dead?)
    ensures Do(c, s, op, tls, writes, timeIsUp).parser == s.parser
  {
    hide Do;
    if ReadingOp(op) {
      var ops := IdleReadInFront(c, s, op, tls, writes, timeIsUp);
    } else {
      PlainKeepsParser(c, s, op, tls, writes, timeIsUp);
    }
  }

  lemma ReadMovesParser(c: Setup, s: Conn, op: Op, tls: Tls, writes: nat -> WriteResult, timeIsUp: bool)
    requires ValidQueue(s.out.queue) && Reads(op) && tls.Data? && tls.bytes != [] && s.parser.Live?
    ensures Do(c, s, op, tls, writes, timeIsUp).parser == Feed(c, s.parser.phase, tls.bytes).status
  {
    hide Flush, QueuedBytes, Feed, FrameOps, UpgradeOps;
  }

  lemma {:induction false} PushAllKeepsParser(s: Conn, replies: seq<WireFrame>)
    ensures PushAll(s, replies).parser == s.parser
    decreases |replies|
  {
    if replies != [] {
      PushAllKeepsParser(DoEnqueue(s, Message(replies[0])), replies[1..]);
    }
  }

  lemma ParserStep(c: Setup, s: Conn, a: Action)
    requires ValidQueue(s.out.queue)
    ensures Next(c, s, a).parser == if PieceOf(s, a) == [] then s.parser else Feed(c, s.parser.phase, PieceOf(s, a)[0]).status
  {
    if a.Step? && s.todo != [] {
      hide Do, Feed;
      var s0, op := s.(todo := s.todo[1..]), s.todo[0];
      if PieceOf(s, a) == [] {
        OtherKeepsParser(c, s0, op, a.tls, a.writes, a.timeIsUp);
      } else {
        ReadMovesParser(c, s0, op, a.tls, a.writes, a.timeIsUp);
      }
    } else if a.WorkerPush? && s.lock.Some? {
      hide PushAll;
      PushAllKeepsParser(s, s.lock.value);
    }
  }

  // ---------------------------------------------------------------- the parser and the bytes read

  function FedSoFar(c: Setup, states: seq<Conn>, actions: seq<Action>, n: nat): Fed
    requires n <= |actions| && n < |states|
  {
    FeedAll(c, Awaiting([]), Pieces(states, actions, n))
  }

  lemma FedNext(c: Setup, states: seq<Conn>, actions: seq<Action>, n: nat)
    requires n < |actions| && n + 1 < |states|
    ensures
      var before, piece := FedSoFar(c, states, actions, n), PieceOf(states[n], actions[n]);
      FedSoFar(c, states, actions, n + 1) == if piece == [] then before else Then(c, before, piece[0])
  {
    var pieces, piece := Pieces(states, actions, n), PieceOf(states[n], actions[n]);
    hide FeedAll;
    if piece == [] {
      assert pieces + piece == pieces;
    } else {
      assert piece == [piece[0]];
      FeedOneMore(c, Awaiting([]), pieces, piece[0]);
    }
  }

  lemma {:induction false} ParserFollows(c: Setup, states: seq<Conn>, actions: seq<Action>, n: nat)
    requires Run(c, states, actions) && n < |states|
    ensures states[n].parser == FedSoFar(c, states, actions, n).status
    ensures states[n].parser.Live? ==> AllFrames(c, states, actions, n) == FedSoFar(c, states, actions, n).frames
    decreases n
  {
    if n == 0 {
      var noEarlyData :| states[0] == Fresh(noEarlyData);
    } else {
      ParserFollows(c, states, actions, n - 1);
      RunKeeps(c, states, actions, n - 1);
      StillValid(states[n - 1]);
      hide Ordered, Conserved, Woken, Next, Feed, FedSoFar;
      ParserStep(c, states[n - 1], actions[n - 1]);
      FedNext(c, states, actions, n - 1);
      BatchIsPiece(c, states[n - 1], actions[n - 1]);
    }
  }

  lemma BatchIsPiece(c: Setup, s: Conn, a: Action)
    ensures Batch(c, s, a)
         == if PieceOf(s, a) != [] && Feed(c, s.parser.phase, PieceOf(s, a)[0]).status.Live?
            then Feed(c, s.parser.phase, PieceOf(s, a)[0]).frames else []
  {
    hide Feed;
  }

  /**
   * However the bytes came in, early or not, in whatever reads: the parser is where one call on all of them
   * would have left it, and as long as it lives the frames taken from it are those that call would have given.
   */
  lemma ParserSawStream(c: Setup, states: seq<Conn>, actions: seq<Action>, n: nat)
    requires Run(c, states, actions) && n < |states|
    ensures
      var r := Feed(c, Awaiting([]), Stream(states, actions, n));
      states[n].parser == r.status && (r.status.Live? ==> AllFrames(c, states, actions, n) == r.frames)
  {
    ParserFollows(c, states, actions, n);
    FedIsFeed(c, states, actions, n);
    hide Run, FedSoFar, Feed, AllFrames;
  }

  // ---------------------------------------------------------------- the upgrade

  ghost predicate OpsKnow(ops: seq<Op>, accepted: Option<seq<byte>>) {
    forall op :: op in ops && op.Enqueue? && op.item.Upgrade? ==> accepted == Some(op.item.response)
  }

  ghost predicate HistoryKnows(h: seq<Queued>, accepted: Option<seq<byte>>) {
    forall q :: q in h && q.Upgrade? ==> accepted == Some(q.response)
  }

  /** Every 101 queued, or about to be, is the one the parser gave. */
  ghost predicate Known(s: Conn, accepted: Option<seq<byte>>) {
    OpsKnow(s.todo, accepted) && HistoryKnows(s.history, accepted)
  }

  lemma BothKnow(a: seq<Op>, b: seq<Op>, accepted: Option<seq<byte>>)
    requires OpsKnow(a, accepted) && OpsKnow(b, accepted)
    ensures OpsKnow(a + b, accepted)
  {
  }

  lemma BeforeKnown(s: Conn, ops: seq<Op>, accepted: Option<seq<byte>>)
    requires Known(s, accepted) && OpsKnow(ops, accepted)
    ensures Known(Before(ops, s), accepted)
  {
    BothKnow(ops, s.todo, accepted);
    hide OpsKnow, HistoryKnows;
  }

  lemma {:induction false} FrameOpsKnow(frames: seq<Frame>, accepted: Option<seq<byte>>)
    ensures OpsKnow(FrameOps(frames), accepted)
  {
    if frames != [] {
      FrameOpsKnow(frames[1..], accepted);
    }
  }

  lemma LearnsMore(s: Conn, accepted: Option<seq<byte>>, later: Option<seq<byte>>)
    requires Known(s, accepted) && (accepted.Some? ==> later == accepted)
    ensures Known(s, later)
  {
  }

  lemma UpgradeOpsKnow(accepted: Option<seq<byte>>)
    ensures OpsKnow(UpgradeOps(accepted), accepted)
  {
  }

  lemma NoUpgradeOps(accepted: Option<seq<byte>>)
    ensures OpsKnow(UpgradeOps(None), accepted)
  {
  }

  lemma InboundKnown(c: Setup, s: Conn, data: seq<byte>, next: Op, accepted: Option<seq<byte>>)
    requires Known(s, accepted) && s.parser.Live? && !next.Enqueue?
    requires Feed(c, s.parser.phase, data).accepted.Some? ==> accepted.None?
    ensures Known(Inbound(c, s, data, next), if accepted.Some? then accepted else Feed(c, s.parser.phase, data).accepted)
  {
    var r := Feed(c, s.parser.phase, data);
    var later := if accepted.Some? then accepted else r.accepted;
    LearnsMore(s, accepted, later);
    var s1 := s.(parser := r.status);
    assert Known(s1, later);
    FrameOpsKnow(r.frames, later);
    UpgradeOpsKnow(r.accepted);
    NoUpgradeOps(later);
    assert OpsKnow([Close], later) && OpsKnow([next], later);
    hide Feed, FrameOps, UpgradeOps, OpsKnow, Known;
    BothKnow(UpgradeOps(r.accepted), FrameOps(r.frames), later);
    BothKnow(UpgradeOps(r.accepted) + FrameOps(r.frames), [next], later);
    BeforeKnown(s1, UpgradeOps(r.accepted) + FrameOps(r.frames) + [next], later);
    BeforeKnown(s1, [Close], later);
  }

  lemma InFrontKnown(s: Conn, s': Conn, ops: seq<Op>, accepted: Option<seq<byte>>)
    requires Known(s, accepted) && PutsInFront(s, s', ops)
    ensures Known(s', accepted)
  {
    assert OpsKnow(ops, accepted);
    BothKnow(ops, s.todo, accepted);
    hide OpsKnow, HistoryKnows;
  }

  const PING_OPS: seq<Op> := [Enqueue(Message(ServerFrame(OP_PING, []))), WantOutput]

  /** What an operation leaves to be done comes in front of the rest. */
  lemma DoInFront(c: Setup, s: Conn, op: Op, tls: Tls, writes: nat -> WriteResult, timeIsUp: bool) returns (ops: seq<Op>)
    requires ValidQueue(s.out.queue) && !ReadingOp(op)
    ensures Do(c, s, op, tls, writes, timeIsUp).todo == ops + s.todo && (ops == [] || ops == [Close] || ops == PING_OPS)
    ensures !op.Enqueue? ==> Do(c, s, op, tls, writes, timeIsUp).history == s.history
  {
    hide Flush, QueuedBytes, Push, DoEarlyRead, DoRead, DoAccept;
    var s' := Do(c, s, op, tls, writes, timeIsUp);
    ops := if s'.todo == s.todo then [] else if s'.todo == [Close] + s.todo then [Close] else PING_OPS;
  }

  lemma PlainKnown(c: Setup, s: Conn, op: Op, tls: Tls, writes: nat -> WriteResult, timeIsUp: bool, accepted: Option<seq<byte>>)
    requires ValidQueue(s.out.queue) && Known(s, accepted) && !ReadingOp(op) && !op.Enqueue?
    ensures Known(Do(c, s, op, tls, writes, timeIsUp), accepted)
  {
    var ops := DoInFront(c, s, op, tls, writes, timeIsUp);
    assert OpsKnow(ops, accepted);
    hide OpsKnow, HistoryKnows, Do;
    BothKnow(ops, s.todo, accepted);
  }

  lemma EnqueueKnown(s: Conn, q: Queued, accepted: Option<seq<byte>>)
    requires Known(s, accepted) && (q.Upgrade? ==> accepted == Some(q.response))
    ensures Known(DoEnqueue(s, q), accepted)
  {
    hide Push, QueuedBytes, OpsKnow;
  }

  lemma OtherKnown(c: Setup, s: Conn, op: Op, tls: Tls, writes: nat -> WriteResult, timeIsUp: bool, accepted: Option<seq<byte>>)
    requires ValidQueue(s.out.queue) && Known(s, accepted) && (op.Enqueue? && op.item.Upgrade? ==> accepted == Some(op.item.response))
    requires !Reads(op) || !tls.Data? || tls.bytes == [] || s.parser.Dead?
    ensures Known(Do(c, s, op, tls, writes, timeIsUp), accepted)
  {
    if op.Enqueue? {
      EnqueueKnown(s, op.item, accepted);
      hide DoEnqueue, Known;
    } else {
      hide Do, Known, PutsInFront;
      if ReadingOp(op) {
        var ops := IdleReadInFront(c, s, op, tls, writes, timeIsUp);
        InFrontKnown(s, Do(c, s, op, tls, writes, timeIsUp), ops, accepted);
      } else {
        PlainKnown(c, s, op, tls, writes, timeIsUp, accepted);
      }
    }
  }

  lemma {:induction false} PushAllKnown(s: Conn, replies: seq<WireFrame>, accepted: Option<seq<byte>>)
    requires Known(s, accepted)
    ensures Known(PushAll(s, replies), accepted)
    decreases |replies|
  {
    hide QueuedBytes, Push;
    if replies != [] {
      PushAllKnown(DoEnqueue(s, Message(replies[0])), replies[1..], accepted);
    }
  }

  lemma StepKnown(c: Setup, s: Conn, tls: Tls, writes: nat -> WriteResult, timeIsUp: bool, accepted: Option<seq<byte>>)
    requires ValidQueue(s.out.queue) && s.todo != [] && Known(s, accepted)
    requires s.parser.Live? && s.parser.phase.Awaiting? ==> accepted.None?
    ensures
      var a := Step(tls, writes, timeIsUp);
      var piece := PieceOf(s, a);
      Known(Next(c, s, a), if piece == [] || accepted.Some? then accepted else Feed(c, s.parser.phase, piece[0]).accepted)
  {
    var s0, op := s.(todo := s.todo[1..]), s.todo[0];
    assert op in s.todo && forall x :: x in s0.todo ==> x in s.todo;
    if PieceOf(s, Step(tls, writes, timeIsUp)) == [] {
      hide Do, Feed;
      OtherKnown(c, s0, op, tls, writes, timeIsUp, accepted);
    } else {
      AcceptsOnce(c, s.parser.phase, tls.bytes);
      hide Feed, Inbound, Known;
      assert Known(s0, accepted) by { Shorter(s, s0, accepted); }
      InboundKnown(c, s0, tls.bytes, if op.EarlyRead? then EarlyNext(op.readable, op.writable) else ReadNext, accepted);
    }
  }

  lemma Shorter(s: Conn, s0: Conn, accepted: Option<seq<byte>>)
    requires Known(s, accepted) && s0.history == s.history && forall x :: x in s0.todo ==> x in s.todo
    ensures Known(s0, accepted)
  {
  }

  lemma AcceptsOnce(c: Setup, p: Phase, data: seq<byte>)
    ensures Feed(c, p, data).accepted.Some? ==> p.Awaiting?
  {
  }

  lemma OutsideKnown(c: Setup, s: Conn, a: Action, accepted: Option<seq<byte>>)
    requires ValidQueue(s.out.queue) && Enabled(s, a) && !a.Step? && Known(s, accepted)
    ensures Known(Next(c, s, a), accepted)
  {
    hide LegalReplies, PushAll, Handler, Known;
    if a.WorkerPush? {
      PushAllKnown(s, s.lock.value, accepted);
      SameKnown(PushAll(s, s.lock.value), Next(c, s, a), accepted);
    } else if a.Wake? {
      HandlerKnown(s, a.event, accepted);
    } else {
      SameKnown(s, Next(c, s, a), accepted);
    }
  }

  lemma SameKnown(s: Conn, s': Conn, accepted: Option<seq<byte>>)
    requires Known(s, accepted) && s'.todo == s.todo && s'.history == s.history
    ensures Known(s', accepted)
  {
  }

  lemma HandlerKnown(s: Conn, e: Event, accepted: Option<seq<byte>>)
    requires Known(s, accepted)
    ensures Known(s.(todo := Handler(s, e)), accepted)
  {
    hide HistoryKnows;
  }

  /** Before the upgrade nothing has been accepted. */
  lemma AwaitingMeans(c: Setup, s: seq<byte>)
    ensures
      var r := Feed(c, Awaiting([]), s);
      && (r.status.Live? && r.status.phase.Awaiting? ==> r.accepted.None?)
      && (r.accepted.Some? ==> TryUpgrade(c, s).Accepted? && TryUpgrade(c, s).response == r.accepted.value)
  {
    assert [] + s == s;
    hide TryUpgrade, Decode;
  }

  /** The pieces as one stream. */
  lemma FedIsFeed(c: Setup, states: seq<Conn>, actions: seq<Action>, n: nat)
    requires n <= |actions| && n < |states|
    ensures FedSoFar(c, states, actions, n) == Feed(c, Awaiting([]), Stream(states, actions, n))
  {
    FreshParsersSettled(c);
    FeedAllIsOneFeed(c, Awaiting([]), Pieces(states, actions, n));
    hide Feed, FeedAll, Pieces, Settled;
  }

  lemma NothingAcceptedYet(c: Setup, states: seq<Conn>, actions: seq<Action>, n: nat)
    requires Run(c, states, actions) && n < |states|
    ensures states[n].parser.Live? && states[n].parser.phase.Awaiting? ==> FedSoFar(c, states, actions, n).accepted.None?
  {
    ParserFollows(c, states, actions, n);
    FedIsFeed(c, states, actions, n);
    AwaitingMeans(c, Stream(states, actions, n));
    hide Run, Feed, FedSoFar, Stream, AllFrames, TryUpgrade;
  }

  lemma {:induction false} RunKnows(c: Setup, states: seq<Conn>, actions: seq<Action>, n: nat)
    requires Run(c, states, actions) && n < |states|
    ensures Known(states[n], FedSoFar(c, states, actions, n).accepted)
    decreases n
  {
    if n == 0 {
      var noEarlyData :| states[0] == Fresh(noEarlyData);
    } else {
      RunKnows(c, states, actions, n - 1);
      NothingAcceptedYet(c, states, actions, n - 1);
      ParserFollows(c, states, actions, n - 1);
      RunKeeps(c, states, actions, n - 1);
      StillValid(states[n - 1]);
      FedNext(c, states, actions, n - 1);
      hide Ordered, Conserved, Woken, Next, Feed, Known, FedSoFar, PieceOf, AllFrames;
      KnownNext(c, states[n - 1], actions[n - 1], FedSoFar(c, states, actions, n - 1).accepted);
    }
  }

  lemma KnownNext(c: Setup, s: Conn, a: Action, accepted: Option<seq<byte>>)
    requires ValidQueue(s.out.queue) && Enabled(s, a) && Known(s, accepted)
    requires s.parser.Live? && s.parser.phase.Awaiting? ==> accepted.None?
    ensures
      var piece := PieceOf(s, a);
      Known(Next(c, s, a), if piece == [] || accepted.Some? then accepted else Feed(c, s.parser.phase, piece[0]).accepted)
  {
    hide Known, Next, Feed;
    if a.Step? {
      StepKnown(c, s, a.tls, a.writes, a.timeIsUp, accepted);
    } else {
      OutsideKnown(c, s, a, accepted);
    }
  }

  lemma RequestAccepted(c: Setup, s: seq<byte>, response: seq<byte>)
    requires TryUpgrade(c, s).Accepted? && TryUpgrade(c, s).response == response
    ensures HeaderEnd(s).Some? && HeaderEnd(s).value <= |s|
    ensures
      var key := FindHeader(s[..HeaderEnd(s).value], Ascii("Sec-WebSocket-Key"));
      key.Some? && key.value != [] && response == Response(c.accept(key.value))
  {
    EndInside(s);
    JudgedByHeaders(c, s[..HeaderEnd(s).value]);
    hide FindHeader, Ascii, Lower, Response, HeaderEnd, JudgeRequest;
  }

  lemma EndInside(s: seq<byte>)
    ensures HeaderEnd(s).Some? ==> HeaderEnd(s).value <= |s|
  {
    if HeaderEnd(s).Some? {
      BlankStable(s, [], 0);
    }
  }

  /**
   * In every run the 101 that was queued is the response to the request that was received: it carries the
   * digest of the key in that request, and a client reads just that digest out of it.
   */
  lemma UpgradeAnswered(c: Setup, states: seq<Conn>, actions: seq<Action>, n: nat)
    requires Run(c, states, actions) && n < |states| && states[n].history != []
    ensures
      var s := Stream(states, actions, n);
      HeaderEnd(s).Some? && HeaderEnd(s).value <= |s| &&
      var key := FindHeader(s[..HeaderEnd(s).value], Ascii("Sec-WebSocket-Key"));
      && key.Some? && key.value != []
      && states[n].history[0] == Upgrade(Response(c.accept(key.value)))
      && (Value(c.accept(key.value)) ==>
            FindHeader(states[n].history[0].response, Ascii("Sec-WebSocket-Accept")) == Some(c.accept(key.value)))
  {
    RunKnows(c, states, actions, n);
    FedIsFeed(c, states, actions, n);
    QueueDiscipline(c, states, actions, n);
    var s := Stream(states, actions, n);
    AwaitingMeans(c, s);
    var q := states[n].history[0];
    assert q in states[n].history && q.Upgrade?;
    hide Run, Feed, FindHeader, HeaderEnd, Ascii, TryUpgrade, Response, Value, Stream;
    RequestAccepted(c, s, q.response);
    var key := FindHeader(s[..HeaderEnd(s).value], Ascii("Sec-WebSocket-Key")).value;
    if Value(c.accept(key)) {
      ResponseRead(c.accept(key), []);
    }
  }
}
