/**
 * Over whole runs: what the workers are given and what becomes of their replies. Every message received
 * reaches one worker, every reply a worker was let in with is queued, and every text is echoed.
 */
module WorkerReplies {
  import opened Bytes
  import opened FrameCodec
  import opened StreamParser
  import opened Outbound
  import opened Connection
  import opened ConnectionOrder
  import opened ConnectionRuns
  import opened FrameAnswers
  import opened RunAnswers
  import opened Received

  /** The text and binary frames that were ever queued, in order. */
  function DataOf(h: seq<Queued>): seq<WireFrame> {
    if h == [] then [] else DataOf(h[..|h| - 1]) + (if IsData(h[|h| - 1]) then [h[|h| - 1].frame] else [])
  }

  /** A worker has taken a task, has something to say, and finds the connection open and not closing. */
  predicate Admitted(s: Conn, a: Action) {
    a.WorkerLock? && a.task < |s.tasks| && !s.closing && s.fdOpen && a.replies != []
  }

  ghost predicate PushedBetween(actions: seq<Action>, i: nat, n: nat)
    requires n <= |actions|
  {
    exists j :: i < j < n && actions[j].WorkerPush?
  }

  /** The replies of the first `k` actions that were let in and, by step `n`, pushed. */
  ghost function Replied(states: seq<Conn>, actions: seq<Action>, k: nat, n: nat): seq<WireFrame>
    requires k <= n <= |actions| && n < |states|
    decreases k
  {
    if k == 0 then []
    else
      Replied(states, actions, k - 1, n)
      + (if Admitted(states[k - 1], actions[k - 1]) && PushedBetween(actions, k - 1, n) then actions[k - 1].replies else [])
  }

  // ---------------------------------------------------------------- one step

  lemma {:induction false} PushAllData(s: Conn, replies: seq<WireFrame>)
    requires forall f :: f in replies ==> DataOpcode(f.opcode)
    ensures DataOf(PushAll(s, replies).history) == DataOf(s.history) + replies
    decreases |replies|
  {
    if replies == [] {
      assert DataOf(s.history) + [] == DataOf(s.history);
    } else {
      hide QueuedBytes, Push;
      var q := Message(replies[0]);
      var s1 := DoEnqueue(s, q);
      assert replies[0] in replies;
      assert s1.history[..|s.history|] == s.history;
      PushAllData(s1, replies[1..]);
      Associate(DataOf(s.history), [replies[0]], replies[1..]);
      assert [replies[0]] + replies[1..] == replies;
    }
  }

  lemma OneMoreQueued(h: seq<Queued>, q: Queued)
    ensures DataOf(h + [q]) == DataOf(h) + (if IsData(q) then [q.frame] else [])
  {
    assert (h + [q])[..|h|] == h;
  }

  /** What reading never touches. */
  ghost predicate ReadKeeps(s: Conn, s': Conn) {
    && s'.tasks == s.tasks && s'.lock == s.lock && s'.closing == s.closing && s'.fdOpen == s.fdOpen && s'.history == s.history
  }

  lemma InboundKeeps(c: Setup, s: Conn, data: seq<byte>, next: Op)
    ensures ReadKeeps(s, Inbound(c, s, data, next))
  {
    hide Feed, FrameOps, UpgradeOps;
  }

  lemma EarlyReadKeeps(c: Setup, s: Conn, r: bool, w: bool, tls: Tls)
    ensures ReadKeeps(s, DoEarlyRead(c, s, r, w, tls))
  {
    hide Inbound;
    if tls.Data? {
      InboundKeeps(c, s, tls.bytes, EarlyNext(r, w));
    }
  }

  lemma ReadOpKeeps(c: Setup, s: Conn, tls: Tls)
    ensures ReadKeeps(s, DoRead(c, s, tls))
  {
    hide Inbound;
    if tls.Data? {
      InboundKeeps(c, s, tls.bytes, ReadNext);
    }
  }

  lemma AcceptKeeps(s: Conn, r: bool, w: bool, tls: Tls)
    ensures ReadKeeps(s, DoAccept(s, r, w, tls))
  {
  }

  lemma ReadingKeeps(c: Setup, s: Conn, op: Op, tls: Tls, writes: nat -> WriteResult, timeIsUp: bool)
    requires ValidQueue(s.out.queue) && ReadingOp(op)
    ensures ReadKeeps(s, Do(c, s, op, tls, writes, timeIsUp))
  {
    hide DoEarlyRead, DoRead, DoAccept;
    match op
    case EarlyRead(r, w) => EarlyReadKeeps(c, s, r, w, tls);
    case Accept(r, w) => AcceptKeeps(s, r, w, tls);
    case Read => ReadOpKeeps(c, s, tls);
    case _ =>
  }

  /** What one operation does to all that. */
  ghost predicate OpDoes(s: Conn, op: Op, s': Conn) {
    && s'.history == s.history + (if op.Enqueue? then [op.item] else [])
    && s'.tasks == s.tasks + (if op.Submit? then [op.task] else [])
    && s'.lock == s.lock
    && s'.closing == (s.closing || op.StartClosing? || op.Close?)
    && s'.fdOpen == (s.fdOpen && !op.Close?)
  }

  lemma PlainDoes(c: Setup, s: Conn, op: Op, tls: Tls, writes: nat -> WriteResult, timeIsUp: bool)
    requires ValidQueue(s.out.queue) && !ReadingOp(op)
    ensures OpDoes(s, op, Do(c, s, op, tls, writes, timeIsUp))
  {
    hide Flush, QueuedBytes, Push, DoEarlyRead, DoRead, DoAccept;
    assert s.tasks + [] == s.tasks && s.history + [] == s.history;
  }

  lemma DoDoes(c: Setup, s: Conn, op: Op, tls: Tls, writes: nat -> WriteResult, timeIsUp: bool)
    requires ValidQueue(s.out.queue)
    ensures OpDoes(s, op, Do(c, s, op, tls, writes, timeIsUp))
  {
    hide Do;
    assert s.tasks + [] == s.tasks && s.history + [] == s.history;
    if ReadingOp(op) {
      ReadingKeeps(c, s, op, tls, writes, timeIsUp);
    } else {
      PlainDoes(c, s, op, tls, writes, timeIsUp);
    }
  }

  lemma NoDataEnqueued(s: Conn)
    requires Ordered(s) && s.todo != [] && s.todo[0].Enqueue?
    ensures !IsData(s.todo[0].item)
  {
    hide Sound;
  }

  lemma StepData(c: Setup, s: Conn, tls: Tls, writes: nat -> WriteResult, timeIsUp: bool)
    requires Ordered(s) && ValidQueue(s.out.queue) && s.todo != []
    ensures DataOf(Next(c, s, Step(tls, writes, timeIsUp)).history) == DataOf(s.history)
  {
    hide Do, DataOf, Ordered;
    var s0, op := s.(todo := s.todo[1..]), s.todo[0];
    DoDoes(c, s0, op, tls, writes, timeIsUp);
    if op.Enqueue? {
      NoDataEnqueued(s);
      OneMoreQueued(s.history, op.item);
      assert DataOf(s.history) + [] == DataOf(s.history);
    } else {
      assert s.history + [] == s.history;
    }
  }

  lemma LockedReplies(s: Conn)
    requires Ordered(s) && s.lock.Some?
    ensures forall f :: f in s.lock.value ==> DataOpcode(f.opcode)
  {
    hide InOrder;
  }

  /** Data frames are queued by the steps that push replies, and by no others. */
  lemma DataNext(c: Setup, s: Conn, a: Action)
    requires Ordered(s) && ValidQueue(s.out.queue) && Enabled(s, a)
    ensures DataOf(Next(c, s, a).history) == DataOf(s.history) + (if a.WorkerPush? then s.lock.value else [])
  {
    hide Ordered, DataOf, LegalReplies, Do;
    assert DataOf(s.history) + [] == DataOf(s.history);
    if a.Step? {
      hide Next;
      StepData(c, s, a.tls, a.writes, a.timeIsUp);
    } else if a.WorkerPush? {
      LockedReplies(s);
      PushAllData(s, s.lock.value);
      hide PushAll;
    }
  }

  /** Who holds the connection's lock after a step. */
  lemma LockNext(c: Setup, s: Conn, a: Action)
    requires ValidQueue(s.out.queue) && Enabled(s, a)
    ensures Next(c, s, a).lock == if Admitted(s, a) then Some(a.replies) else if a.WorkerPush? then None else s.lock
  {
    hide LegalReplies;
    if a.Step? {
      hide Do;
      DoDoes(c, s.(todo := s.todo[1..]), s.todo[0], a.tls, a.writes, a.timeIsUp);
    } else if a.WorkerPush? {
      PushAllOnlyQueues(s, s.lock.value);
      hide PushAll;
    }
  }

  // ---------------------------------------------------------------- who was let in, and who has pushed

  lemma PushedMore(actions: seq<Action>, i: nat, n: nat)
    requires n < |actions|
    ensures PushedBetween(actions, i, n + 1) <==> PushedBetween(actions, i, n) || (i < n && actions[n].WorkerPush?)
  {
    if PushedBetween(actions, i, n) {
      var j :| i < j < n && actions[j].WorkerPush?;
      assert i < j < n + 1 && actions[j].WorkerPush?;
    }
  }

  /** Everybody let in before step `k` has pushed by step `n`. */
  ghost predicate AllPushed(states: seq<Conn>, actions: seq<Action>, k: nat, n: nat)
    requires k <= n <= |actions| && n < |states|
  {
    forall i :: 0 <= i < k && Admitted(states[i], actions[i]) ==> PushedBetween(actions, i, n)
  }

  /** Action `i` was let in, and nobody since; it has not pushed yet. */
  ghost predicate Holds(states: seq<Conn>, actions: seq<Action>, i: int, n: nat)
    requires n <= |actions| && n < |states|
  {
    && 0 <= i < n && Admitted(states[i], actions[i]) && !PushedBetween(actions, i, n)
    && (forall k :: i < k < n ==> !Admitted(states[k], actions[k]))
    && AllPushed(states, actions, i, n)
  }

  lemma StillPushed(states: seq<Conn>, actions: seq<Action>, k: nat, n: nat)
    requires k <= n < |actions| && n + 1 < |states| && AllPushed(states, actions, k, n)
    ensures AllPushed(states, actions, k, n + 1)
  {
    hide PushedBetween;
    forall i | 0 <= i < k && Admitted(states[i], actions[i])
      ensures PushedBetween(actions, i, n + 1)
    {
      PushedMore(actions, i, n);
    }
  }

  lemma StillHolds(states: seq<Conn>, actions: seq<Action>, i: int, n: nat)
    requires n < |actions| && n + 1 < |states| && Holds(states, actions, i, n)
    requires !actions[n].WorkerPush? && !Admitted(states[n], actions[n])
    ensures Holds(states, actions, i, n + 1)
  {
    PushedMore(actions, i, n);
    StillPushed(states, actions, i, n);
    hide PushedBetween, AllPushed;
  }

  lemma NowPushed(states: seq<Conn>, actions: seq<Action>, i: int, n: nat)
    requires n < |actions| && n + 1 < |states| && Holds(states, actions, i, n) && actions[n].WorkerPush?
    ensures AllPushed(states, actions, n + 1, n + 1)
  {
    hide PushedBetween;
    forall k | 0 <= k < n + 1 && Admitted(states[k], actions[k])
      ensures PushedBetween(actions, k, n + 1)
    {
      assert k <= i;
      PushedMore(actions, k, n);
    }
  }

  lemma NowHolds(states: seq<Conn>, actions: seq<Action>, n: nat)
    requires n < |actions| && n + 1 < |states| && AllPushed(states, actions, n, n) && Admitted(states[n], actions[n])
    ensures Holds(states, actions, n, n + 1)
  {
    StillPushed(states, actions, n, n);
    hide AllPushed;
  }

  lemma StillAllPushed(states: seq<Conn>, actions: seq<Action>, n: nat)
    requires n < |actions| && n + 1 < |states| && AllPushed(states, actions, n, n) && !Admitted(states[n], actions[n])
    ensures AllPushed(states, actions, n + 1, n + 1)
  {
    StillPushed(states, actions, n, n);
    hide PushedBetween;
  }

  /** What the lock says about the workers let in so far. */
  ghost predicate LockTells(states: seq<Conn>, actions: seq<Action>, n: nat, i: int)
    requires n <= |actions| && n < |states|
  {
    if states[n].lock.None? then AllPushed(states, actions, n, n)
    else Holds(states, actions, i, n) && 0 <= i < n && states[n].lock == Some(actions[i].replies)
  }

  lemma HolderStep(states: seq<Conn>, actions: seq<Action>, n: nat, i: int) returns (i': int)
    requires n < |actions| && n + 1 < |states| && LockTells(states, actions, n, i)
    requires actions[n].WorkerLock? ==> states[n].lock.None?
    requires actions[n].WorkerPush? ==> states[n].lock.Some?
    requires states[n + 1].lock
          == if Admitted(states[n], actions[n]) then Some(actions[n].replies) else if actions[n].WorkerPush? then None else states[n].lock
    ensures LockTells(states, actions, n + 1, i')
  {
    i' := i;
    hide AllPushed, Holds;
    if Admitted(states[n], actions[n]) {
      NowHolds(states, actions, n);
      i' := n;
    } else {
      hide Admitted;
      if actions[n].WorkerPush? {
        NowPushed(states, actions, i, n);
      } else if states[n].lock.Some? {
        StillHolds(states, actions, i, n);
      } else {
        StillAllPushed(states, actions, n);
      }
    }
  }

  /** At most one worker is let in at a time; the lock holds its replies. */
  lemma {:induction false} Holder(c: Setup, states: seq<Conn>, actions: seq<Action>, n: nat) returns (i: int)
    requires Run(c, states, actions) && n < |states|
    ensures LockTells(states, actions, n, i)
    decreases n
  {
    if n == 0 {
      i := 0;
      var noEarlyData :| states[0] == Fresh(noEarlyData);
    } else {
      i := Holder(c, states, actions, n - 1);
      RunKeeps(c, states, actions, n - 1);
      StillValid(states[n - 1]);
      assert states[n] == Next(c, states[n - 1], actions[n - 1]) && Enabled(states[n - 1], actions[n - 1]);
      hide Ordered, Conserved, Woken, Next, LegalReplies, LockTells, Admitted, Run;
      LockNext(c, states[n - 1], actions[n - 1]);
      i := HolderStep(states, actions, n - 1, i);
    }
  }

  // ---------------------------------------------------------------- replies and queued frames

  lemma {:induction false} SameReplied(states: seq<Conn>, actions: seq<Action>, k: nat, n: nat)
    requires k <= n < |actions| && n + 1 < |states|
    requires forall i :: 0 <= i < k && Admitted(states[i], actions[i]) ==>
      (PushedBetween(actions, i, n + 1) <==> PushedBetween(actions, i, n))
    ensures Replied(states, actions, k, n + 1) == Replied(states, actions, k, n)
    decreases k
  {
    hide PushedBetween, Admitted;
    if k > 0 {
      SameReplied(states, actions, k - 1, n);
    }
  }

  /** Nobody was let in between `i` and `k`. */
  lemma {:induction false} NobodyReplied(states: seq<Conn>, actions: seq<Action>, i: nat, k: nat, n: nat)
    requires i <= k <= n <= |actions| && n < |states|
    requires forall j :: i <= j < k ==> !Admitted(states[j], actions[j])
    ensures Replied(states, actions, k, n) == Replied(states, actions, i, n)
    decreases k
  {
    hide PushedBetween, Admitted;
    if k > i {
      NobodyReplied(states, actions, i, k - 1, n);
    }
  }

  lemma RepliedNext(states: seq<Conn>, actions: seq<Action>, n: nat, i: int)
    requires n < |actions| && n + 1 < |states|
    requires actions[n].WorkerPush? ==> Holds(states, actions, i, n)
    ensures Replied(states, actions, n + 1, n + 1)
         == Replied(states, actions, n, n) + (if actions[n].WorkerPush? then actions[i].replies else [])
  {
    assert !PushedBetween(actions, n, n + 1);
    assert Replied(states, actions, n + 1, n + 1) == Replied(states, actions, n, n + 1);
    if actions[n].WorkerPush? {
      forall k | 0 <= k < i && Admitted(states[k], actions[k])
        ensures PushedBetween(actions, k, n + 1) <==> PushedBetween(actions, k, n)
      {
        PushedMore(actions, k, n);
      }
      PushedMore(actions, i, n);
      hide PushedBetween, Admitted;
      SameReplied(states, actions, i, n);
      NobodyReplied(states, actions, i + 1, n, n + 1);
      NobodyReplied(states, actions, i + 1, n, n);
    } else {
      forall k | 0 <= k < n
        ensures PushedBetween(actions, k, n + 1) <==> PushedBetween(actions, k, n)
      {
        PushedMore(actions, k, n);
      }
      hide PushedBetween, Admitted;
      SameReplied(states, actions, n, n);
    }
  }

  /**
   * In every run the text and binary frames ever queued are, in order, exactly the replies of those workers
   * that found the connection open and not closing and have pushed since.
   */
  lemma {:induction false} RepliesQueued(c: Setup, states: seq<Conn>, actions: seq<Action>, n: nat)
    requires Run(c, states, actions) && n < |states|
    ensures DataOf(states[n].history) == Replied(states, actions, n, n)
    decreases n
  {
    if n == 0 {
      var noEarlyData :| states[0] == Fresh(noEarlyData);
    } else {
      RepliesQueued(c, states, actions, n - 1);
      var i := Holder(c, states, actions, n - 1);
      RunKeeps(c, states, actions, n - 1);
      StillValid(states[n - 1]);
      assert states[n] == Next(c, states[n - 1], actions[n - 1]) && Enabled(states[n - 1], actions[n - 1]);
      hide Run, Ordered, Conserved, Woken, Next, LegalReplies, Holds, AllPushed, DataOf, Replied;
      DataNext(c, states[n - 1], actions[n - 1]);
      RepliedNext(states, actions, n - 1, i);
    }
  }

  // ---------------------------------------------------------------- what the workers are given

  /** The tasks workers have taken, in the order they took them. */
  function Taken(states: seq<Conn>, actions: seq<Action>, n: nat): seq<Frame>
    requires n <= |actions| && n < |states|
    decreases n
  {
    if n == 0 then [] else Taken(states, actions, n - 1) + TakenBy(states[n - 1], actions[n - 1])
  }

  function TakenBy(s: Conn, a: Action): seq<Frame> {
    if a.WorkerLock? && a.task < |s.tasks| then [s.tasks[a.task]] else []
  }

  /** The text and binary messages received, up to the first Close of each batch of frames. */
  function MessagesReceived(c: Setup, states: seq<Conn>, actions: seq<Action>, n: nat): seq<Frame>
    requires n <= |actions| && n < |states|
    decreases n
  {
    if n == 0 then []
    else MessagesReceived(c, states, actions, n - 1) + DataFrames(UpToClose(Batch(c, states[n - 1], actions[n - 1])))
  }

  /** Waiting for a worker, or about to be handed over. */
  function Underway(s: Conn): multiset<Frame> {
    multiset(s.tasks) + multiset(Submitted(s.todo))
  }

  lemma {:induction false} NothingSubmitted(ops: seq<Op>)
    requires forall op :: op in ops ==> !op.Submit?
    ensures Submitted(ops) == []
  {
    if ops != [] {
      assert ops[0] in ops;
      NothingSubmitted(ops[1..]);
    }
  }

  lemma SubmittedInFront(ops: seq<Op>, rest: seq<Op>)
    requires forall op :: op in ops ==> !op.Submit?
    ensures Submitted(ops + rest) == Submitted(rest)
  {
    NothingSubmitted(ops);
    SubmittedAppend(ops, rest);
    assert [] + Submitted(rest) == Submitted(rest);
  }

  lemma PlainSubmits(c: Setup, s: Conn, op: Op, tls: Tls, writes: nat -> WriteResult, timeIsUp: bool)
    requires ValidQueue(s.out.queue) && !ReadingOp(op)
    ensures Submitted(Do(c, s, op, tls, writes, timeIsUp).todo) == Submitted(s.todo)
  {
    SubmittedInFront([Close], s.todo);
    SubmittedInFront([Enqueue(Message(ServerFrame(OP_PING, []))), WantOutput], s.todo);
    hide Flush, QueuedBytes, Push, Submitted;
  }

  lemma UpgradeOpsSubmit(accepted: Option<seq<byte>>, frames: seq<Frame>, next: Op, rest: seq<Op>)
    requires !next.Submit?
    ensures Submitted(UpgradeOps(accepted) + FrameOps(frames) + [next] + rest) == Submitted(FrameOps(frames)) + Submitted(rest)
  {
    assert forall op :: op in UpgradeOps(accepted) ==> !op.Submit?;
    assert UpgradeOps(accepted) + FrameOps(frames) + [next] + rest == UpgradeOps(accepted) + (FrameOps(frames) + ([next] + rest));
    SubmittedInFront(UpgradeOps(accepted), FrameOps(frames) + ([next] + rest));
    SubmittedAppend(FrameOps(frames), [next] + rest);
    SubmittedInFront([next], rest);
    hide UpgradeOps, FrameOps, Submitted;
  }

  lemma InboundSubmits(c: Setup, s: Conn, data: seq<byte>, next: Op)
    requires Reading(s) && s.parser.Live? && !next.Submit?
    ensures
      var r := Feed(c, s.parser.phase, data);
      Submitted(Inbound(c, s, data, next).todo) == (if r.status.Live? then DataFrames(UpToClose(r.frames)) else []) + Submitted(s.todo)
  {
    var r := Feed(c, s.parser.phase, data);
    SubmittedInFront([Close], s.todo);
    assert [] + Submitted(s.todo) == Submitted(s.todo);
    if r.status.Live? {
      ParserMoves(c, s, data);
      hide Feed, FrameOps, UpgradeOps, Submitted, Presentable;
      EveryFrameAnswered(r.frames);
      UpgradeOpsSubmit(r.accepted, r.frames, next, s.todo);
    }
  }

  lemma IdleSubmits(s: Conn, s': Conn, ops: seq<Op>)
    requires PutsInFront(s, s', ops)
    ensures Submitted(s'.todo) == Submitted(s.todo)
  {
    SubmittedInFront(ops, s.todo);
  }

  lemma PopSubmits(s: Conn)
    requires s.todo != []
    ensures Submitted(s.todo) == SubmittedBy(s.todo[0]) + Submitted(s.todo[1..])
  {
  }

  lemma NoBatchNothing()
    ensures DataFrames(UpToClose([])) == []
  {
  }

  lemma ReadSubmits(c: Setup, s: Conn, tls: Tls, writes: nat -> WriteResult, timeIsUp: bool)
    requires Ordered(s) && ValidQueue(s.out.queue) && s.todo != [] && ReadingOp(s.todo[0])
    ensures
      var a := Step(tls, writes, timeIsUp);
      Submitted(Next(c, s, a).todo) == DataFrames(UpToClose(Batch(c, s, a))) + Submitted(s.todo)
  {
    var s0, op := s.(todo := s.todo[1..]), s.todo[0];
    PopSubmits(s);
    ReadingOps(s);
    assert [] + Submitted(s0.todo) == Submitted(s0.todo);
    BatchIsPiece(c, s, Step(tls, writes, timeIsUp));
    NoBatchNothing();
    hide Ordered, Reading, Submitted, Feed, PutsInFront, Batch, DataFrames, UpToClose;
    if PieceOf(s, Step(tls, writes, timeIsUp)) != [] {
      hide Inbound;
      InboundSubmits(c, s0, tls.bytes, if op.EarlyRead? then EarlyNext(op.readable, op.writable) else ReadNext);
    } else {
      hide Do;
      var ops := IdleReadInFront(c, s0, op, tls, writes, timeIsUp);
      IdleSubmits(s0, Do(c, s0, op, tls, writes, timeIsUp), ops);
    }
  }

  lemma StepUnderway(c: Setup, s: Conn, tls: Tls, writes: nat -> WriteResult, timeIsUp: bool)
    requires Ordered(s) && ValidQueue(s.out.queue) && s.todo != []
    ensures
      var a := Step(tls, writes, timeIsUp);
      Underway(Next(c, s, a)) == Underway(s) + multiset(DataFrames(UpToClose(Batch(c, s, a))))
  {
    var s0, op := s.(todo := s.todo[1..]), s.todo[0];
    var a := Step(tls, writes, timeIsUp);
    DoDoes(c, s0, op, tls, writes, timeIsUp);
    var s' := Do(c, s0, op, tls, writes, timeIsUp);
    assert s' == Next(c, s, a);
    hide Ordered, Submitted, Do, Feed, DataFrames, Batch, Next, Underway;
    if ReadingOp(op) {
      ReadSubmits(c, s, tls, writes, timeIsUp);
      assert s.tasks + [] == s.tasks;
      SumOfRead(s, s', DataFrames(UpToClose(Batch(c, s, a))));
    } else {
      PopSubmits(s);
      PlainSubmits(c, s0, op, tls, writes, timeIsUp);
      NoBatch(c, s, a);
      SumOfPlain(s, s', op);
    }
  }

  lemma SumOfRead(s: Conn, s': Conn, received: seq<Frame>)
    requires s'.tasks == s.tasks && Submitted(s'.todo) == received + Submitted(s.todo)
    ensures Underway(s') == Underway(s) + multiset(received)
  {
    hide Submitted;
  }

  lemma SumOfPlain(s: Conn, s': Conn, op: Op)
    requires Submitted(s.todo) == SubmittedBy(op) + Submitted(s'.todo)
    requires s'.tasks == s.tasks + (if op.Submit? then [op.task] else [])
    ensures Underway(s') == Underway(s) + multiset([])
  {
    hide Submitted;
    assert s'.tasks == s.tasks + SubmittedBy(op);
  }

  lemma NoBatch(c: Setup, s: Conn, a: Action)
    requires a.Step? && s.todo != [] ==> !ReadingOp(s.todo[0])
    ensures DataFrames(UpToClose(Batch(c, s, a))) == []
  {
  }

  lemma WithoutOne(tasks: seq<Frame>, k: nat)
    requires k < |tasks|
    ensures multiset(tasks) == multiset(tasks[..k] + tasks[k + 1..]) + multiset{tasks[k]}
  {
    assert tasks == tasks[..k] + [tasks[k]] + tasks[k + 1..];
  }

  lemma TakenUnderway(c: Setup, s: Conn, k: nat, replies: seq<WireFrame>)
    requires ValidQueue(s.out.queue) && k < |s.tasks|
    ensures Underway(s) == Underway(Next(c, s, WorkerLock(k, replies))) + multiset([s.tasks[k]])
  {
    WithoutOne(s.tasks, k);
    hide Submitted;
    var s' := Next(c, s, WorkerLock(k, replies));
    assert s'.todo == s.todo && s'.tasks == s.tasks[..k] + s.tasks[k + 1..];
    assert multiset([s.tasks[k]]) == multiset{s.tasks[k]};
  }

  lemma SameUnderway(s: Conn, s': Conn)
    requires s'.tasks == s.tasks && Submitted(s'.todo) == Submitted(s.todo)
    ensures Underway(s) == Underway(s') + multiset([])
  {
  }

  lemma PushSubmits(c: Setup, s: Conn)
    requires ValidQueue(s.out.queue) && s.lock.Some?
    ensures Next(c, s, WorkerPush).tasks == s.tasks && Next(c, s, WorkerPush).todo == s.todo
  {
    PushAllOnlyQueues(s, s.lock.value);
    hide PushAll;
  }

  lemma OutsideUnderway(c: Setup, s: Conn, a: Action)
    requires ValidQueue(s.out.queue) && Enabled(s, a) && !a.Step?
    ensures Underway(s) == Underway(Next(c, s, a)) + multiset(TakenBy(s, a))
  {
    hide LegalReplies, Submitted, Underway, PushAll, Handler;
    if a.WorkerLock? {
      TakenUnderway(c, s, a.task, a.replies);
    } else {
      if a.WorkerPush? {
        PushSubmits(c, s);
      } else if a.Wake? {
        HandlerSubmits(s, a.event);
        NothingSubmitted([]);
      }
      SameUnderway(s, Next(c, s, a));
    }
  }

  lemma HandlerSubmits(s: Conn, e: Event)
    ensures Submitted(Handler(s, e)) == []
  {
    NothingSubmitted(Handler(s, e));
  }

  /** What one step does to the messages underway. */
  lemma UnderwayNext(c: Setup, s: Conn, a: Action)
    requires Ordered(s) && ValidQueue(s.out.queue) && Enabled(s, a)
    ensures Underway(Next(c, s, a)) + multiset(TakenBy(s, a)) == Underway(s) + multiset(DataFrames(UpToClose(Batch(c, s, a))))
  {
    hide Ordered, Next, LegalReplies, Underway, DataFrames, UpToClose, Batch;
    if a.Step? {
      StepUnderway(c, s, a.tls, a.writes, a.timeIsUp);
    } else {
      OutsideUnderway(c, s, a);
      NoBatch(c, s, a);
    }
  }

  lemma Tally(taken: seq<Frame>, more: seq<Frame>, before: multiset<Frame>, after: multiset<Frame>, received: seq<Frame>, batch: seq<Frame>)
    requires multiset(taken) + before == multiset(received)
    requires after + multiset(more) == before + multiset(batch)
    ensures multiset(taken + more) + after == multiset(received + batch)
  {
    assert multiset(taken + more) + after == multiset(taken) + (after + multiset(more));
  }

  /**
   * Every message received is with a worker, waiting for one, or about to be handed over: none is lost, and none is
   * handed out twice.
   */
  lemma {:induction false} MessagesConserved(c: Setup, states: seq<Conn>, actions: seq<Action>, n: nat)
    requires Run(c, states, actions) && n < |states|
    ensures multiset(Taken(states, actions, n)) + Underway(states[n]) == multiset(MessagesReceived(c, states, actions, n))
    decreases n
  {
    if n == 0 {
      var noEarlyData :| states[0] == Fresh(noEarlyData);
    } else {
      MessagesConserved(c, states, actions, n - 1);
      RunKeeps(c, states, actions, n - 1);
      StillValid(states[n - 1]);
      var s, a := states[n - 1], actions[n - 1];
      assert states[n] == Next(c, s, a) && Enabled(s, a);
      hide Ordered, Conserved, Woken, Next, LegalReplies, Underway, DataFrames, UpToClose, Batch, Run, TakenBy, Enabled;
      var batch := DataFrames(UpToClose(Batch(c, s, a)));
      UnderwayNext(c, s, a);
      Tally(Taken(states, actions, n - 1), TakenBy(s, a), Underway(s), Underway(states[n]),
            MessagesReceived(c, states, actions, n - 1), batch);
    }
  }

  // ---------------------------------------------------------------- texts and their echoes

  /** The payloads of the text messages. */
  function Texts(fs: seq<Frame>): seq<seq<byte>> {
    if fs == [] then [] else Texts(fs[..|fs| - 1]) + TextOf(fs[|fs| - 1])
  }

  function TextOf(f: Frame): seq<seq<byte>> {
    if f.opcode == OP_TEXT then [f.payload] else []
  }

  /** The payloads of the text frames sent. */
  function Echoes(fs: seq<WireFrame>): seq<seq<byte>> {
    if fs == [] then [] else Echoes(fs[..|fs| - 1]) + (if fs[|fs| - 1].opcode == OP_TEXT then [fs[|fs| - 1].payload] else [])
  }

  function InLock(s: Conn): seq<WireFrame> {
    if s.lock.Some? then s.lock.value else []
  }

  lemma {:induction false} TextsAppend(a: seq<Frame>, b: seq<Frame>)
    ensures Texts(a + b) == Texts(a) + Texts(b)
    decreases |b|
  {
    if b == [] {
      assert a + b == a && Texts(a) + [] == Texts(a);
    } else {
      hide TextOf;
      var m := |b| - 1;
      TextsAppend(a, b[..m]);
      assert (a + b)[..|a| + m] == a + b[..m] && (a + b)[|a| + m] == b[m];
      Associate(Texts(a), Texts(b[..m]), TextOf(b[m]));
    }
  }

  lemma {:induction false} EchoesAppend(a: seq<WireFrame>, b: seq<WireFrame>)
    ensures Echoes(a + b) == Echoes(a) + Echoes(b)
    decreases |b|
  {
    if b == [] {
      assert a + b == a && Echoes(a) + [] == Echoes(a);
    } else {
      var m := |b| - 1;
      EchoesAppend(a, b[..m]);
      assert (a + b)[..|a| + m] == a + b[..m] && (a + b)[|a| + m] == b[m];
      Associate(Echoes(a), Echoes(b[..m]), if b[m].opcode == OP_TEXT then [b[m].payload] else []);
    }
  }

  lemma {:induction false} NoEchoes(fs: seq<WireFrame>)
    requires forall f :: f in fs ==> f.opcode != OP_TEXT
    ensures Echoes(fs) == []
  {
    if fs != [] {
      assert fs[|fs| - 1] in fs;
      NoEchoes(fs[..|fs| - 1]);
    }
  }

  /** A text is answered by its echo, a binary message by no text. */
  lemma LegalEcho(task: Frame, replies: seq<WireFrame>)
    requires LegalReplies(task, replies)
    ensures Echoes(replies) == Texts([task])
    ensures task.opcode == OP_TEXT ==> replies != []
  {
    assert [task][..0] == [];
    if task.opcode == OP_TEXT {
      assert replies[..0] == [];
    } else {
      NoEchoes(replies);
    }
  }

  lemma StaysOpen(c: Setup, s: Conn, a: Action)
    requires ValidQueue(s.out.queue) && Enabled(s, a)
    ensures !Next(c, s, a).closing ==> !s.closing
    ensures Next(c, s, a).fdOpen ==> s.fdOpen
  {
    hide LegalReplies;
    if a.Step? {
      hide Do;
      DoDoes(c, s.(todo := s.todo[1..]), s.todo[0], a.tls, a.writes, a.timeIsUp);
    } else if a.WorkerPush? {
      PushAllOnlyQueues(s, s.lock.value);
      hide PushAll;
    }
  }

  /** What a step does to the echoes queued and about to be queued. */
  lemma EchoNext(c: Setup, s: Conn, a: Action)
    requires Ordered(s) && ValidQueue(s.out.queue) && Enabled(s, a) && !s.closing && s.fdOpen
    ensures
      var s' := Next(c, s, a);
      Echoes(DataOf(s'.history)) + Echoes(InLock(s'))
        == Echoes(DataOf(s.history)) + Echoes(InLock(s)) + Texts(TakenBy(s, a))
  {
    DataNext(c, s, a);
    LockNext(c, s, a);
    var before := Echoes(DataOf(s.history));
    assert before + Echoes(InLock(s)) + [] == before + Echoes(InLock(s));
    assert DataOf(s.history) + [] == DataOf(s.history);
    hide Ordered, DataOf, Next, Echoes, Texts;
    if a.WorkerPush? {
      EchoesAppend(DataOf(s.history), s.lock.value);
      NoText();
      assert before + Echoes(s.lock.value) + [] == before + Echoes(s.lock.value);
    } else if a.WorkerLock? {
      LegalEcho(s.tasks[a.task], a.replies);
      NoText();
      assert before + [] == before;
    } else {
      NoText();
    }
  }

  lemma NoText()
    ensures Texts([]) == [] && Echoes([]) == []
  {
  }

  lemma OneMoreEchoed(c: Setup, s: Conn, a: Action, taken: seq<Frame>)
    requires Ordered(s) && ValidQueue(s.out.queue) && Enabled(s, a) && !s.closing && s.fdOpen
    requires Echoes(DataOf(s.history)) + Echoes(InLock(s)) == Texts(taken)
    ensures
      var s' := Next(c, s, a);
      Echoes(DataOf(s'.history)) + Echoes(InLock(s')) == Texts(taken + TakenBy(s, a))
  {
    hide *;
    EchoNext(c, s, a);
    TextsAppend(taken, TakenBy(s, a));
  }

  /** As long as the connection is not closing, the echoes are those of the texts taken, in the order they were taken. */
  lemma {:induction false} TextsEchoed(c: Setup, states: seq<Conn>, actions: seq<Action>, n: nat)
    requires Run(c, states, actions) && n < |states| && !states[n].closing && states[n].fdOpen
    ensures Echoes(DataOf(states[n].history)) + Echoes(InLock(states[n])) == Texts(Taken(states, actions, n))
    decreases n
  {
    if n == 0 {
      var noEarlyData :| states[0] == Fresh(noEarlyData);
    } else {
      RunKeeps(c, states, actions, n - 1);
      StillValid(states[n - 1]);
      hide Ordered, Conserved, Woken, Next, LegalReplies, Enabled, Echoes, Texts, DataOf, InLock, TakenBy;
      StaysOpen(c, states[n - 1], actions[n - 1]);
      TextsEchoed(c, states, actions, n - 1);
      OneMoreEchoed(c, states[n - 1], actions[n - 1], Taken(states, actions, n - 1));
    }
  }

  /** The same messages in another order have the same texts. */
  lemma {:induction false} TextsOfPermutation(a: seq<Frame>, b: seq<Frame>)
    requires multiset(a) == multiset(b)
    ensures multiset(Texts(a)) == multiset(Texts(b))
    decreases |a|
  {
    if a == [] {
      assert |multiset(b)| == 0;
      assert b == [];
    } else {
      var m := |a| - 1;
      assert a == a[..m] + [a[m]];
      assert a[m] in multiset(b);
      var i :| 0 <= i < |b| && b[i] == a[m];
      var rest := b[..i] + b[i + 1..];
      WithoutOne(b, i);
      assert multiset(a) == multiset(a[..m]) + multiset{a[m]};
      assert multiset(a[..m]) == multiset(a) - multiset{a[m]} == multiset(rest);
      TextsOfPermutation(a[..m], rest);
      TextsWithoutOne(b, i);
      OneText(a[m]);
      TextsAppend(a[..m], [a[m]]);
    }
  }

  lemma OneText(f: Frame)
    ensures Texts([f]) == TextOf(f)
  {
    assert [f][..0] == [];
    assert [] + TextOf(f) == TextOf(f);
  }

  lemma TextsWithoutOne(b: seq<Frame>, i: nat)
    requires i < |b|
    ensures multiset(Texts(b)) == multiset(Texts(b[..i] + b[i + 1..])) + multiset(TextOf(b[i]))
  {
    hide Texts, TextOf;
    TakeOut(b, i);
    OneText(b[i]);
    TextsAppend(b[..i], [b[i]] + b[i + 1..]);
    TextsAppend([b[i]], b[i + 1..]);
    TextsAppend(b[..i], b[i + 1..]);
    MoveOut(Texts(b[..i]), TextOf(b[i]), Texts(b[i + 1..]));
  }

  lemma TakeOut(b: seq<Frame>, i: nat)
    requires i < |b|
    ensures b == b[..i] + ([b[i]] + b[i + 1..])
  {
  }

  lemma MoveOut(x: seq<seq<byte>>, y: seq<seq<byte>>, z: seq<seq<byte>>)
    ensures multiset(x + (y + z)) == multiset(x + z) + multiset(y)
  {
  }

  /**
   * Every text is echoed: once the IO thread waits, no task is left and no worker is about to push, and the connection
   * has not begun to close, the text frames ever queued are one for each text message received, with its payload.
   */
  lemma EveryTextEchoed(c: Setup, states: seq<Conn>, actions: seq<Action>, n: nat)
    requires Run(c, states, actions) && n < |states| && !states[n].closing && states[n].fdOpen
    requires states[n].todo == [] && states[n].tasks == [] && states[n].lock.None?
    ensures multiset(Echoes(DataOf(states[n].history))) == multiset(Texts(MessagesReceived(c, states, actions, n)))
  {
    TextsEchoed(c, states, actions, n);
    MessagesConserved(c, states, actions, n);
    NoText();
    NothingSubmitted([]);
    var taken := Taken(states, actions, n);
    assert Echoes(DataOf(states[n].history)) + [] == Echoes(DataOf(states[n].history));
    hide Run, Echoes, Texts, DataOf, Taken, MessagesReceived, Submitted;
    TextsOfPermutation(taken, MessagesReceived(c, states, actions, n));
  }
}
