/**
 * The output queue of one connection: what is appended, what a flush writes, and that no byte is
 * lost, repeated or reordered whatever the partial writes are.
 */
module Outbound {
  import opened Bytes
  import opened FrameCodec

  datatype Item = Item(data: seq<byte>, offset: nat)

  /** What may be queued: the upgrade response, or one frame. */
  datatype Queued = Upgrade(response: seq<byte>) | Message(frame: WireFrame)

  function QueuedBytes(q: Queued): seq<byte> {
    match q
    case Upgrade(response) => response
    case Message(frame) => FrameBytes(frame)
  }

  function HistoryBytes(history: seq<Queued>): seq<byte> {
    if history == [] then [] else HistoryBytes(history[..|history| - 1]) + QueuedBytes(history[|history| - 1])
  }

  /** The outcome of one `SSL_write`: some bytes taken, or a reason why none was. */
  datatype WriteResult = Wrote(n: nat) | WantWrite | WantRead | Fatal

  /** How the last flush ended. */
  datatype FlushEnd = NotYet | Drained | BlockedOnWrite | BlockedOnRead | Broken

  /** The queue, the bytes handed to the TLS layer, and whether the socket is watched for writability. */
  datatype Output = Output(queue: seq<Item>, sent: seq<byte>, interest: bool, lastFlush: FlushEnd)

  ghost predicate ValidQueue(queue: seq<Item>) {
    forall i :: 0 <= i < |queue| ==> queue[i].offset <= |queue[i].data|
  }

  function Unsent(queue: seq<Item>): seq<byte>
    requires ValidQueue(queue)
  {
    if queue == [] then [] else queue[0].data[queue[0].offset..] + Unsent(queue[1..])
  }

  function Size(queue: seq<Item>): nat
    requires ValidQueue(queue)
  {
    if queue == [] then 0 else 1 + |queue[0].data| - queue[0].offset + Size(queue[1..])
  }

  function Push(o: Output, data: seq<byte>): Output {
    o.(queue := o.queue + [Item(data, 0)])
  }

  /** A successful write takes at least one byte and no more than it was offered. */
  function Taken(n: nat, remaining: nat): (m: nat)
    requires remaining > 0
    ensures 1 <= m <= remaining
  {
    if n == 0 then 1 else if n > remaining then remaining else n
  }

  /** The front item after `m` of its bytes were written; a finished item leaves the queue. */
  function Advance(queue: seq<Item>, m: nat): (r: seq<Item>)
    requires queue != [] && ValidQueue(queue) && queue[0].offset + m <= |queue[0].data|
    ensures ValidQueue(r)
  {
    var item := Item(queue[0].data, queue[0].offset + m);
    if item.offset >= |item.data| then queue[1..] else [item] + queue[1..]
  }

  function Piece(queue: seq<Item>, m: nat): seq<byte>
    requires queue != [] && queue[0].offset + m <= |queue[0].data|
  {
    queue[0].data[queue[0].offset..queue[0].offset + m]
  }

  /** The write loop from the `k`-th write on: the queue left, the bytes sent, and how it ended. */
  function WriteLoop(queue: seq<Item>, sent: seq<byte>, writes: nat -> WriteResult, k: nat): (r: (seq<Item>, seq<byte>, FlushEnd))
    requires ValidQueue(queue)
    ensures ValidQueue(r.0)
    ensures r.2 == Drained <==> r.0 == []
    ensures !r.2.NotYet?
    decreases Size(queue)
  {
    if queue == [] then ([], sent, Drained)
    else if queue[0].offset == |queue[0].data| then WriteLoop(queue[1..], sent, writes, k)
    else
      match writes(k)
      case Wrote(n) =>
        var m := Taken(n, |queue[0].data| - queue[0].offset);
        WriteLoop(Advance(queue, m), sent + Piece(queue, m), writes, k + 1)
      case WantWrite => (queue, sent, BlockedOnWrite)
      case WantRead => (queue, sent, BlockedOnRead)
      case Fatal => (queue, sent, Broken)
  }

  /** One flush: the loop, and the interest that goes with the way it ended. */
  function Flush(o: Output, writes: nat -> WriteResult): (r: Output)
    requires ValidQueue(o.queue)
    ensures ValidQueue(r.queue)
  {
    var (queue, sent, end) := WriteLoop(o.queue, o.sent, writes, 0);
    Output(queue, sent,
           match end { case BlockedOnWrite => true case Broken => o.interest case _ => false },
           end)
  }

  // ---------------------------------------------------------------- conservation

  lemma {:induction false} UnsentAppend(queue: seq<Item>, item: Item)
    requires ValidQueue(queue) && item.offset == 0
    ensures ValidQueue(queue + [item]) && Unsent(queue + [item]) == Unsent(queue) + item.data
  {
    if queue == [] {
      assert queue + [item] == [item] && [item][1..] == [];
      assert item.data[0..] == item.data;
    } else {
      UnsentAppend(queue[1..], item);
      assert (queue + [item])[1..] == queue[1..] + [item];
    }
  }

  lemma FrontUnsent(item: Item, rest: seq<Item>)
    requires item.offset <= |item.data| && ValidQueue(rest)
    ensures ValidQueue([item] + rest) && Unsent([item] + rest) == item.data[item.offset..] + Unsent(rest)
    ensures Size([item] + rest) == 1 + |item.data| - item.offset + Size(rest)
  {
    assert ([item] + rest)[1..] == rest;
  }

  lemma Cut(d: seq<byte>, a: nat, b: nat)
    requires a <= b <= |d|
    ensures d[a..] == d[a..b] + d[b..] && (b == |d| ==> d[a..b] == d[a..])
  {
  }

  lemma AdvancedFront(d: seq<byte>, a: nat, b: nat, rest: seq<Item>)
    requires a <= b <= |d| && ValidQueue(rest) && ValidQueue([Item(d, a)] + rest)
    ensures Advance([Item(d, a)] + rest, b - a) == if b < |d| then [Item(d, b)] + rest else rest
  {
    assert ([Item(d, a)] + rest)[1..] == rest;
  }

  lemma AdvanceFront(d: seq<byte>, a: nat, b: nat, rest: seq<Item>)
    requires a <= b <= |d| && ValidQueue(rest)
    ensures ValidQueue([Item(d, a)] + rest)
    ensures d[a..b] + Unsent(Advance([Item(d, a)] + rest, b - a)) == Unsent([Item(d, a)] + rest)
    ensures b > a ==> Size(Advance([Item(d, a)] + rest, b - a)) < Size([Item(d, a)] + rest)
  {
    hide Unsent, Size, ValidQueue, Advance;
    FrontUnsent(Item(d, a), rest);
    FrontUnsent(Item(d, b), rest);
    AdvancedFront(d, a, b, rest);
    Cut(d, a, b);
    Associate(d[a..b], d[b..], Unsent(rest));
  }

  lemma AdvanceUnsent(queue: seq<Item>, m: nat)
    requires queue != [] && ValidQueue(queue) && queue[0].offset + m <= |queue[0].data|
    ensures Piece(queue, m) + Unsent(Advance(queue, m)) == Unsent(queue)
    ensures m > 0 ==> Size(Advance(queue, m)) < Size(queue)
  {
    hide Unsent, Size, Advance;
    assert queue == [Item(queue[0].data, queue[0].offset)] + queue[1..];
    AdvanceFront(queue[0].data, queue[0].offset, queue[0].offset + m, queue[1..]);
  }

  /** One turn of the loop that writes something. */
  lemma WriteLoopTurn(queue: seq<Item>, sent: seq<byte>, writes: nat -> WriteResult, k: nat, m: nat)
    requires ValidQueue(queue) && queue != [] && queue[0].offset < |queue[0].data|
    requires writes(k).Wrote? && m == Taken(writes(k).n, |queue[0].data| - queue[0].offset)
    ensures WriteLoop(queue, sent, writes, k) == WriteLoop(Advance(queue, m), sent + Piece(queue, m), writes, k + 1)
  {
  }

  lemma SkipFinished(queue: seq<Item>, sent: seq<byte>, writes: nat -> WriteResult, k: nat)
    requires ValidQueue(queue) && queue != [] && queue[0].offset == |queue[0].data|
    ensures WriteLoop(queue, sent, writes, k) == WriteLoop(queue[1..], sent, writes, k)
    ensures Unsent(queue) == Unsent(queue[1..]) && Size(queue[1..]) < Size(queue)
  {
    assert queue[0].data[queue[0].offset..] == [];
  }

  lemma {:induction false} WriteLoopConserves(queue: seq<Item>, sent: seq<byte>, writes: nat -> WriteResult, k: nat)
    requires ValidQueue(queue)
    ensures WriteLoop(queue, sent, writes, k).1 + Unsent(WriteLoop(queue, sent, writes, k).0) == sent + Unsent(queue)
    decreases Size(queue)
  {
    if queue != [] && queue[0].offset == |queue[0].data| {
      hide *;
      SkipFinished(queue, sent, writes, k);
      WriteLoopConserves(queue[1..], sent, writes, k);
    } else if queue != [] && writes(k).Wrote? {
      hide Advance, Unsent, Piece, WriteLoop, Size, Taken;
      var m := Taken(writes(k).n, |queue[0].data| - queue[0].offset);
      WriteLoopTurn(queue, sent, writes, k, m);
      AdvanceUnsent(queue, m);
      WriteLoopConserves(Advance(queue, m), sent + Piece(queue, m), writes, k + 1);
      Associate(sent, Piece(queue, m), Unsent(Advance(queue, m)));
    }
  }

  /** Everything ever queued is either sent or still in the queue, in order. */
  ghost predicate Conserved(history: seq<Queued>, o: Output) {
    ValidQueue(o.queue) && o.sent + Unsent(o.queue) == HistoryBytes(history)
  }

  lemma FlushConserves(history: seq<Queued>, o: Output, writes: nat -> WriteResult)
    requires Conserved(history, o)
    ensures Conserved(history, Flush(o, writes))
  {
    WriteLoopConserves(o.queue, o.sent, writes, 0);
  }

  lemma PushConserves(history: seq<Queued>, o: Output, q: Queued)
    requires Conserved(history, o)
    ensures Conserved(history + [q], Push(o, QueuedBytes(q)))
  {
    hide QueuedBytes, Unsent;
    UnsentAppend(o.queue, Item(QueuedBytes(q), 0));
    assert (history + [q])[..|history|] == history;
    Associate(o.sent, Unsent(o.queue), QueuedBytes(q));
  }

  /** With a peer that always takes something, one flush empties the queue. */
  lemma {:induction false} WriteLoopDrains(queue: seq<Item>, sent: seq<byte>, writes: nat -> WriteResult, k: nat)
    requires ValidQueue(queue) && forall i :: writes(i).Wrote?
    ensures WriteLoop(queue, sent, writes, k).2 == Drained
    decreases Size(queue)
  {
    if queue != [] {
      if queue[0].offset == |queue[0].data| {
        WriteLoopDrains(queue[1..], sent, writes, k);
      } else {
        var m := Taken(writes(k).n, |queue[0].data| - queue[0].offset);
        AdvanceUnsent(queue, m);
        WriteLoopDrains(Advance(queue, m), sent + Piece(queue, m), writes, k + 1);
      }
    }
  }

  // ---------------------------------------------------------------- the queue object

  class OutboundQueue {
    var outbound: seq<Item>
    var interest: bool
    /** Everything the TLS layer has taken. */
    ghost var sent: seq<byte>
    ghost var lastFlush: FlushEnd

    ghost predicate Valid()
      reads this
    {
      ValidQueue(outbound)
    }

    ghost function View(): Output
      reads this
    {
      Output(outbound, sent, interest, lastFlush)
    }

    constructor ()
      ensures Valid() && View() == Output([], [], false, NotYet)
    {
      outbound, sent, interest, lastFlush := [], [], false, NotYet;
    }

    method Enqueue(data: seq<byte>)
      requires Valid()
      modifies this`outbound
      ensures Valid() && View() == Push(old(View()), data)
    {
      outbound := outbound + [Item(data, 0)];
    }

    /** `m` bytes of the front item have been taken. */
    method TakeOff(m: nat)
      requires Valid() && outbound != [] && outbound[0].offset + m <= |outbound[0].data| && m > 0
      modifies this`outbound, this`sent
      ensures Valid() && outbound == Advance(old(outbound), m) && sent == old(sent) + Piece(old(outbound), m)
      ensures Size(outbound) < Size(old(outbound))
    {
      AdvanceUnsent(outbound, m);
      var item := outbound[0];
      sent := sent + item.data[item.offset..item.offset + m];
      item := item.(offset := item.offset + m);
      if item.offset >= |item.data| {
        outbound := outbound[1..];
      } else {
        outbound := outbound[0 := item];
      }
    }

    /** Writes until the queue is empty or the TLS layer takes no more; true if it got empty. */
    method FlushOutbound(writes: nat -> WriteResult) returns (drained: bool)
      requires Valid()
      modifies this
      ensures Valid() && View() == Flush(old(View()), writes)
      ensures drained == (outbound == [])
    {
      if outbound == [] {
        interest := false;
        lastFlush := Drained;
        return true;
      }
      var k := 0;
      while outbound != []
        invariant Valid() && interest == old(interest)
        invariant WriteLoop(outbound, sent, writes, k) == WriteLoop(old(outbound), old(sent), writes, 0)
        decreases Size(outbound)
      {
        var item := outbound[0];
        var remaining := |item.data| - item.offset;
        if remaining == 0 {
          outbound := outbound[1..];
          continue;
        }
        var ret := writes(k);
        label Turn:
        if ret.Wrote? {
          TakeOff(Taken(ret.n, remaining));
          WriteLoopTurn(old@Turn(outbound), old@Turn(sent), writes, k, Taken(ret.n, remaining));
          k := k + 1;
          continue;
        }
        if ret.WantWrite? {
          interest := true;
          lastFlush := BlockedOnWrite;
        } else if ret.WantRead? {
          interest := false;
          lastFlush := BlockedOnRead;
        } else {
          lastFlush := Broken;
        }
        return false;
      }
      interest := false;
      lastFlush := Drained;
      drained := true;
    }
  }

  // ---------------------------------------------------------------- where a flush stops

  lemma LoopEnds(queue: seq<Item>, sent: seq<byte>, writes: nat -> WriteResult, k: nat)
    requires ValidQueue(queue) && (queue == [] || (queue[0].offset < |queue[0].data| && !writes(k).Wrote?))
    ensures WriteLoop(queue, sent, writes, k)
         == (queue, sent,
             if queue == [] then Drained
             else if writes(k).WantWrite? then BlockedOnWrite else if writes(k).WantRead? then BlockedOnRead else Broken)
  {
  }

  lemma {:induction false} LoopStops(queue: seq<Item>, sent: seq<byte>, writes: nat -> WriteResult, k: nat) returns (n: nat)
    requires ValidQueue(queue)
    ensures n >= k && forall j :: k <= j < n ==> writes(j).Wrote?
    ensures
      var end := WriteLoop(queue, sent, writes, k).2;
      && (end == BlockedOnWrite ==> writes(n) == WantWrite) && (end == BlockedOnRead ==> writes(n) == WantRead)
      && (end == Broken ==> writes(n) == Fatal)
    decreases Size(queue)
  {
    n := k;
    hide Advance, WriteLoop, Unsent, Size, Piece, Taken;
    if queue != [] && queue[0].offset == |queue[0].data| {
      SkipFinished(queue, sent, writes, k);
      n := LoopStops(queue[1..], sent, writes, k);
    } else if queue != [] && writes(k).Wrote? {
      var m := Taken(writes(k).n, |queue[0].data| - queue[0].offset);
      AdvanceUnsent(queue, m);
      WriteLoopTurn(queue, sent, writes, k, m);
      n := LoopStops(Advance(queue, m), sent + Piece(queue, m), writes, k + 1);
    } else {
      LoopEnds(queue, sent, writes, k);
    }
  }

  /**
   * A flush stops at the first write that takes nothing, or with an empty queue; the socket is watched for
   * writability behind it exactly if that is what the TLS layer waits for, or, after a failure, as before.
   */
  lemma FlushStops(o: Output, writes: nat -> WriteResult) returns (n: nat)
    requires ValidQueue(o.queue)
    ensures forall j :: 0 <= j < n ==> writes(j).Wrote?
    ensures
      var r := Flush(o, writes);
      && (r.queue == [] <==> r.lastFlush == Drained)
      && (r.queue != [] ==>
            || (writes(n) == WantWrite && r.lastFlush == BlockedOnWrite)
            || (writes(n) == WantRead && r.lastFlush == BlockedOnRead)
            || (writes(n) == Fatal && r.lastFlush == Broken))
      && (r.interest <==> r.lastFlush == BlockedOnWrite || (r.lastFlush == Broken && o.interest))
  {
    n := LoopStops(o.queue, o.sent, writes, 0);
    hide WriteLoop;
  }
}
