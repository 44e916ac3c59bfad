/**
 * The upload loop of the web client against the real session table: every message is a masked frame that
 * has to pass the server's parser, every reply travels through the reply queue and may still be under way
 * when the loop looks, and other clients use the server all the while.
 */
module BrowserUpload {
  import opened Bytes
  import opened Crc32
  import opened Bitmap
  import opened FileNames
  import opened FileProtocol
  import opened FileTransfer
  import opened FileManager
  import opened Upload
  import opened UploadFrames
  import opened OtherUsers
  import FrameCodec
  import StreamParser

  const MAX_SAFE_INTEGER: nat := 0x1F_FFFF_FFFF_FFFF
  const SMALLEST_CHUNK: nat := 1024

  lemma Thresholds()
    ensures SMALLEST_CHUNK == 1024 && MAX_SAFE_INTEGER == 0x1F_FFFF_FFFF_FFFF
  {
  }

  /** A chunk the bitmap does not mark; what lies beyond the bitmap counts as missing. */
  predicate BitmapMissing(bitmap: seq<byte>, i: nat) {
    i / 8 >= |bitmap| || !Get(bitmap, i)
  }

  // ---------------------------------------------------------------- what the loop has to send

  /** The messages for the chunks of `missing` from `from` on, in ascending order. */
  ghost function Needed(u: Upload, missing: set<nat>, from: nat): seq<seq<byte>>
    requires Legal(u) && from <= Total(u)
    decreases Total(u) - from
  {
    if from == Total(u) then []
    else
      ChunkInFile(u, from);
      (if from in missing then [Encode(ChunkRequest(u, from))] else []) + Needed(u, missing, from + 1)
  }

  ghost function From(missing: set<nat>, from: nat): set<nat> {
    set i | i in missing && i >= from
  }

  lemma {:induction false} NeededCount(u: Upload, missing: set<nat>, from: nat)
    requires Legal(u) && from <= Total(u) && forall i :: i in missing ==> i < Total(u)
    ensures |Needed(u, missing, from)| == |From(missing, from)|
    decreases Total(u) - from
  {
    if from < Total(u) {
      NeededCount(u, missing, from + 1);
      if from in missing {
        assert From(missing, from) == From(missing, from + 1) + {from};
      } else {
        assert From(missing, from) == From(missing, from + 1);
      }
    } else {
      assert From(missing, from) == {};
    }
  }

  // ---------------------------------------------------------------- one exchange at a time

  /** The upload as the server knows it: under its cleaned name, or that of the session it resumes. */
  ghost function Stored(u: Upload, s: Store): Upload
    requires u.chunkSize > 0
  {
    if Resuming(u, s) then u.(name := s.sessions[u.id].name) else u.(name := Clean(u.name))
  }

  /** A state in which the upload can begin or go on: a live session of this file, or room for a new one. */
  ghost predicate CanUpload(u: Upload, s: Store, io: Io) {
    && Legal(u) && Handleable(s, StartRequest(u), io)
    && if Resuming(u, s) then Uploading(Stored(u, s), s)
       else io.fd.Some? && io.truncates
  }

  /** The chunks the server misses when the upload begins. */
  ghost function FirstMissing(u: Upload, s: Store, io: Io): set<nat>
    requires CanUpload(u, s, io)
  {
    if Resuming(u, s) then MissingChunks(Stored(u, s), s)
    else Missing(Empty(Total(u)), Total(u))
  }

  lemma WritableStart(u: Upload)
    requires Legal(u)
    ensures Writable(StartRequest(u))
  {
    TotalBounds(u);
  }

  ghost predicate Resuming(u: Upload, s: Store)
    requires u.chunkSize > 0
  {
    u.id in s.sessions && Resumes(s.sessions[u.id], StartRequest(u))
  }

  ghost function BitmapOf(u: Upload, s: Store): seq<byte>
    requires Uploading(u, s)
  {
    s.sessions[u.id].bitmap
  }

  ghost predicate Answered(u: Upload, s: Store, missing: set<nat>, replies: seq<Reply>) {
    && Uploading(u, s) && MissingChunks(u, s) == missing
    && replies == [QueryResponse(u.id, Total(u), BitmapOf(u, s))]
  }

  lemma StartResumes(u: Upload, s: Store, now: nat, io: Io)
    requires CanUpload(u, s, io) && Resuming(u, s)
    ensures
      var (s', replies) := Handle(s, StartRequest(u), now, io);
      Answered(Stored(u, s), s', FirstMissing(u, s, io), replies)
  {
    TouchUploading(Stored(u, s), s, now);
  }

  lemma StartBegins(u: Upload, s: Store, now: nat, io: Io)
    requires CanUpload(u, s, io) && !Resuming(u, s)
    ensures
      var (s', replies) := Handle(s, StartRequest(u), now, io);
      Answered(Stored(u, s), s', FirstMissing(u, s, io), replies)
  {
    StartOpensUpload(u, s, now, io);
    var s' := Handle(s, StartRequest(u), now, io).0;
    assert s'.sessions[u.id].bitmap == Empty(Total(u));
  }

  /** After START there is a session for this file, and its bitmap is on its way to the client. */
  lemma StartExchange(u: Upload, s: Store, now: nat, io: Io)
    requires CanUpload(u, s, io)
    ensures Encode(StartRequest(u)) != [] && Parse(Encode(StartRequest(u))) == StartRequest(u)
    ensures
      var (s', replies) := Handle(s, StartRequest(u), now, io);
      Answered(Stored(u, s), s', FirstMissing(u, s, io), replies)
  {
    WritableStart(u);
    ParseEncode(StartRequest(u));
    if Resuming(u, s) {
      StartResumes(u, s, now, io);
    } else {
      StartBegins(u, s, now, io);
    }
  }

  /** QUERY changes nothing but the time stamp, and brings the bitmap itself. */
  lemma QueryExchange(u: Upload, s: Store, now: nat, io: Io)
    requires Uploading(u, s)
    ensures Encode(Query(u.id)) != [] && Parse(Encode(Query(u.id))) == Query(u.id) && Handleable(s, Query(u.id), io)
    ensures
      var (s', replies) := Handle(s, Query(u.id), now, io);
      Answered(u, s', MissingChunks(u, s), replies)
  {
    ParseEncode(Query(u.id));
    TouchUploading(u, s, now);
  }

  lemma SomethingMissing(u: Upload, s: Store)
    requires Uploading(u, s)
    ensures MissingChunks(u, s) != {} && forall i :: i in MissingChunks(u, s) ==> i < Total(u)
  {
    MissingEmpty(s.sessions[u.id].bitmap, Total(u), s.sessions[u.id].received);
  }

  /** Between two chunks: `left` is still to be sent, and `coming` are the replies not yet taken. */
  ghost predicate Between(u: Upload, s: Store, left: set<nat>, coming: seq<seq<byte>>) {
    && Inv(s)
    && if left == {} then Done(u, s) && coming == [EncodeReply(FinishAck(u.id, true))]
       else Uploading(u, s) && MissingChunks(u, s) == left && coming == []
  }

  lemma AtTheEnd(u: Upload, s: Store, coming: seq<seq<byte>>)
    requires Between(u, s, {}, coming)
    ensures Done(u, s) && coming == [EncodeReply(FinishAck(u.id, true))]
  {
  }

  /** What others do between two chunks does not matter. */
  lemma OthersBetween(u: Upload, s: Store, left: set<nat>, coming: seq<seq<byte>>, s': Store)
    requires Between(u, s, left, coming) && Inv(s') && SameFor(u.id, s, s')
    ensures Between(u, s', left, coming)
  {
    hide Inv;
    if left != {} {
      SameForUploading(u, s, s');
    }
    hide Uploading, MissingChunks;
  }

  lemma NothingComing(u: Upload, s: Store, left: set<nat>, coming: seq<seq<byte>>)
    requires Between(u, s, left, coming) && left != {}
    ensures coming == [] && Uploading(u, s) && MissingChunks(u, s) == left
    ensures u.chunkSize > 0 && forall i :: i in left ==> i < Total(u)
  {
    SomethingMissing(u, s);
  }

  lemma ChunkDecodes(u: Upload, i: nat)
    requires Legal(u) && i < Total(u)
    ensures Lo(u, i) <= Hi(u, i) <= |u.file| && i < U32
    ensures !ChunkRequest(u, i).Malformed? && Encode(ChunkRequest(u, i)) != []
    ensures Parse(Encode(ChunkRequest(u, i))) == ChunkRequest(u, i)
    ensures Carries(u, ChunkRequest(u, i))
  {
    ChunkInFile(u, i);
    ParseEncode(ChunkRequest(u, i));
  }

  /** What the progress of an upload means for the loop. */
  lemma ProgressBetween(u: Upload, s: Store, left: set<nat>, r: Request, s': Store, replies: seq<Reply>)
    requires Uploading(u, s) && MissingChunks(u, s) == left && Carries(u, r) && r.index in left && Inv(s')
    requires Progress(u, s, r, s', replies)
    ensures replies != [] && EncodeReplies(replies) == [EncodeReply(ChunkAck(u.id, r.index, true))] + EncodeReplies(replies[1..])
    ensures Between(u, s', left - {r.index}, EncodeReplies(replies[1..]))
  {
    OnlyOneLeft(left, r.index);
    hide Uploading, Done, Inv, Total, Carries;
  }

  /** One chunk of those left: its ACK comes first, and FINISH_ACK behind it if it was the last. */
  lemma ChunkExchange(u: Upload, s: Store, left: set<nat>, i: nat, now: nat, io: Io)
    requires Between(u, s, left, []) && i in left && io.readable && io.written >= u.chunkSize
    ensures i < Total(u) && Lo(u, i) <= Hi(u, i) <= |u.file| && Handleable(s, ChunkRequest(u, i), io)
    ensures
      var (s', replies) := Handle(s, ChunkRequest(u, i), now, io);
      && replies != [] && EncodeReplies(replies) == [EncodeReply(ChunkAck(u.id, i, true))] + EncodeReplies(replies[1..])
      && Between(u, s', left - {i}, EncodeReplies(replies[1..]))
  {
    NothingComing(u, s, left, []);
    ChunkInFile(u, i);
    ChunkDecodes(u, i);
    hide Uploading, Done, Carries, Progress, Between, EncodeReplies, EncodeReply, Encode, Parse, Handle;
    var r := ChunkRequest(u, i);
    var (s', replies) := Handle(s, r, now, io);
    HandleKeepsInv(s, r, now, io);
    UploadStep(u, s, r, now, io);
    ProgressBetween(u, s, left, r, s', replies);
  }

  /** The display name plays no part in the chunks. */
  lemma SameChunk(u: Upload, stored: Upload, i: nat)
    requires stored == u.(name := stored.name) && Legal(stored) && i < Total(stored)
    ensures Legal(u) == (|u.name| <= MAX_NAME) && i < Total(u)
    ensures Lo(u, i) <= Hi(u, i) <= |u.file| && Lo(stored, i) <= Hi(stored, i) <= |stored.file|
    ensures ChunkRequest(u, i) == ChunkRequest(stored, i)
  {
    ChunkInFile(stored, i);
  }

  lemma OnlyOneLeft(left: set<nat>, i: nat)
    requires i in left
    ensures left - {i} == {} <==> left == {i}
  {
    if left - {i} == {} {
      assert forall j :: j in left ==> j == i || j in left - {i};
    }
  }

  lemma SameTotal(u: Upload, stored: Upload)
    requires stored == u.(name := stored.name) && u.chunkSize > 0
    ensures Total(u) == Total(stored)
  {
  }

  lemma NeededStep(u: Upload, missing: set<nat>, i: nat)
    requires Legal(u) && i < Total(u)
    ensures Lo(u, i) <= Hi(u, i) <= |u.file|
    ensures Needed(u, missing, i)
         == (if i in missing then [Encode(ChunkRequest(u, i))] else []) + Needed(u, missing, i + 1)
  {
    ChunkInFile(u, i);
  }

  lemma NeededEnd(u: Upload, missing: set<nat>)
    requires Legal(u)
    ensures Needed(u, missing, Total(u)) == []
  {
  }

  lemma NothingLeft(missing: set<nat>, n: nat)
    requires forall i :: i in missing ==> i < n
    ensures From(missing, n) == {} && From(missing, 0) == missing
  {
  }

  lemma SplitFrom(missing: set<nat>, i: nat)
    ensures From(missing, i + 1) == From(missing, i) - {i}
    ensures i in missing <==> i in From(missing, i)
    ensures i !in missing ==> From(missing, i + 1) == From(missing, i)
  {
  }

  /** With a bitmap in hand, the client misses what the server misses, and that is not nothing. */
  lemma Expect(u: Upload, s: Store, missing: set<nat>)
    requires Uploading(u, s) && MissingChunks(u, s) == missing
    ensures |BitmapOf(u, s)| < U32 && missing != {}
    ensures forall i :: 0 <= i < Total(u) ==> (BitmapMissing(BitmapOf(u, s), i) <==> i in missing)
    ensures forall i :: i in missing ==> i < Total(u)
    ensures Between(u, s, missing, [])
  {
    SomethingMissing(u, s);
  }

  lemma StoredIsAlike(u: Upload, s: Store, io: Io)
    requires CanUpload(u, s, io)
    ensures u.chunkSize > 0 && Legal(u) && !StartRequest(u).Malformed? && Handleable(s, StartRequest(u), io)
    ensures Stored(u, s) == u.(name := Stored(u, s).name)
    ensures Stored(u, s).id == u.id && Stored(u, s).chunkSize == u.chunkSize > 0 && Total(Stored(u, s)) == Total(u)
  {
  }

  lemma OneReply(r: Reply)
    ensures EncodeReplies([r]) == [EncodeReply(r)]
  {
  }

  lemma AnsweredOnce(u: Upload, s: Store, missing: set<nat>, replies: seq<Reply>)
    requires Answered(u, s, missing, replies)
    ensures Uploading(u, s) && MissingChunks(u, s) == missing
    ensures EncodeReplies(replies) == [EncodeReply(QueryResponse(u.id, Total(u), BitmapOf(u, s)))]
  {
    OneReply(replies[0]);
  }

  // ---------------------------------------------------------------- which chunks get through

  /** The smallest limit the server can be configured with. */
  const SMALLEST_LIMIT: nat := 1024

  predicate Fits(u: Upload, i: nat, limit: nat) {
    Hi(u, i) - Lo(u, i) + CHUNK_HEADER <= limit
  }

  ghost predicate AllFit(u: Upload, missing: set<nat>, limit: nat) {
    forall i :: i in missing ==> Fits(u, i, limit)
  }

  /** For a new upload all chunks get through exactly if the chunk size, or a smaller file, leaves room for the header. */
  lemma NewUploadFits(u: Upload, s: Store, io: Io, limit: nat)
    requires CanUpload(u, s, io) && !Resuming(u, s)
    ensures AllFit(u, FirstMissing(u, s, io), limit)
       <==> (if u.chunkSize <= |u.file| then u.chunkSize else |u.file|) + CHUNK_HEADER <= limit
  {
    EverythingAtFirst(u, s, io);
    LegalUpload(u, s, io);
    hide CanUpload, Resuming, FirstMissing, Legal, Total, Lo, Hi;
    AllChunksFit(u, limit);
    var missing := FirstMissing(u, s, io);
    forall i | 0 <= i < Total(u)
      ensures i in missing && (Fits(u, i, limit) <==> Hi(u, i) - Lo(u, i) + CHUNK_HEADER <= limit)
    {
      assert i in missing;
    }
  }

  lemma EverythingAtFirst(u: Upload, s: Store, io: Io)
    requires CanUpload(u, s, io) && !Resuming(u, s)
    ensures forall i: nat :: i in FirstMissing(u, s, io) <==> i < Total(u)
  {
    NothingMarked(Total(u));
    hide Total, Missing, Empty, Handleable, Resuming;
  }

  lemma LegalUpload(u: Upload, s: Store, io: Io)
    requires CanUpload(u, s, io)
    ensures Legal(u) && u.chunkSize > 0
  {
  }

  lemma ControlMessagesFit(u: Upload)
    requires Legal(u)
    ensures |Encode(StartRequest(u))| <= SMALLEST_LIMIT && |Encode(Query(u.id))| <= SMALLEST_LIMIT
  {
    hide Total, Crc;
  }

  lemma ChunkMessageSize(u: Upload, i: nat)
    requires Legal(u) && i < Total(u)
    ensures Lo(u, i) <= Hi(u, i) <= |u.file|
    ensures |Encode(ChunkRequest(u, i))| == Hi(u, i) - Lo(u, i) + CHUNK_HEADER < U64
  {
    ChunkInFile(u, i);
    hide Total, Crc;
  }

  /** The chunks of `missing` before `k` get through. */
  ghost predicate FitBelow(u: Upload, missing: set<nat>, limit: nat, k: nat) {
    forall i :: i in missing && i < k ==> Fits(u, i, limit)
  }

  /** The upload broke off at chunk `k`: the session is as it was before it, ready to be resumed. */
  ghost predicate StoppedAt(u: Upload, stored: Upload, s: Store, missing: set<nat>, limit: nat, k: nat) {
    && k in missing && !Fits(u, k, limit) && FitBelow(u, missing, limit, k)
    && Legal(u) && k < Total(u)
    && Uploading(stored, s) && MissingChunks(stored, s) == From(missing, k)
  }

  lemma NoneYet(u: Upload, missing: set<nat>, limit: nat)
    ensures FitBelow(u, missing, limit, 0)
  {
  }

  lemma OneMoreFits(u: Upload, missing: set<nat>, limit: nat, k: nat)
    requires FitBelow(u, missing, limit, k)
    ensures (k in missing ==> Fits(u, k, limit)) ==> FitBelow(u, missing, limit, k + 1)
  {
  }

  lemma AllBelow(u: Upload, missing: set<nat>, limit: nat, n: nat)
    requires FitBelow(u, missing, limit, n) && forall i :: i in missing ==> i < n
    ensures AllFit(u, missing, limit)
  {
  }

  lemma Stopped(u: Upload, stored: Upload, s: Store, missing: set<nat>, limit: nat, k: nat)
    requires Legal(u) && k < Total(u) && k in missing && !Fits(u, k, limit) && FitBelow(u, missing, limit, k)
    requires Between(stored, s, From(missing, k), [])
    ensures StoppedAt(u, stored, s, missing, limit, k) && !AllFit(u, missing, limit)
  {
    hide Fits, Legal, Total, Uploading, Inv, MissingChunks;
    assert k in From(missing, k);
  }

  lemma FitsMeans(u: Upload, i: nat, limit: nat)
    ensures Fits(u, i, limit) <==> Hi(u, i) - Lo(u, i) + CHUNK_HEADER <= limit
  {
  }

  lemma LimitIsSmall()
    ensures SMALLEST_LIMIT < U64
  {
  }

  lemma Short(n: nat)
    requires n < U64
    ensures n < FrameCodec.MAX_LENGTH
  {
  }

  lemma InvOfBetween(u: Upload, s: Store, left: set<nat>, coming: seq<seq<byte>>)
    requires Between(u, s, left, coming)
    ensures Inv(s)
  {
  }

  lemma StillInv(s: Store, r: Request, io: Io)
    requires Handleable(s, r, io)
    ensures Inv(s)
  {
  }

  // ---------------------------------------------------------------- the client

  datatype Result = NotConnected | Busy | ChunkTooSmall | FileTooLarge | Finished | Disconnected

  class Browser {
    const server: FileTransferManager
    /** The server's side of this connection. */
    const setup: StreamParser.Setup
    var connected: bool
    /** Replies on their way to the client. */
    var coming: seq<seq<byte>>
    var binQueue: seq<seq<byte>>
    /** A wait is pending, to be resolved by the next reply. */
    var binWaiter: bool
    var resolved: seq<byte>
    var uploadInProgress: bool
    /** Every message this client has sent. */
    ghost var sent: seq<seq<byte>>

    constructor (server: FileTransferManager, setup: StreamParser.Setup)
      ensures this.server == server && this.setup == setup && connected
      ensures coming == [] && binQueue == [] && !binWaiter && !uploadInProgress && sent == []
    {
      this.server := server;
      this.setup := setup;
      connected := true;
      coming, binQueue, binWaiter, resolved, uploadInProgress, sent := [], [], false, [], false, [];
    }

    /** A new upload, or a lost connection, forgets earlier replies and breaks off a pending wait. */
    method ResetBinaryDemux()
      modifies this`binQueue, this`binWaiter
      ensures binQueue == [] && !binWaiter
    {
      binQueue, binWaiter := [], false;
    }

    /** The connection is gone, and with it whatever was still on its way. */
    method OnClose()
      modifies this`connected, this`coming, this`binQueue, this`binWaiter, this`uploadInProgress
      ensures !connected && coming == [] && binQueue == [] && !binWaiter && !uploadInProgress
    {
      uploadInProgress := false;
      ResetBinaryDemux();
      connected := false;
      coming := [];
    }

    /**
     * Sends one binary message. If its frame passes the server's parser, the server handles it and its
     * replies start their way back; else the connection is lost.
     */
    method Send(payload: seq<byte>, now: nat, io: Io)
      requires connected && payload != [] && |payload| < U64 && Handleable(server.View(), Parse(payload), io)
      modifies this`connected, this`coming, this`binQueue, this`binWaiter, this`uploadInProgress, this`sent, server
      ensures sent == old(sent) + [payload] && Inv(server.View())
      ensures connected <==> |payload| <= setup.wire.maxPayload
      ensures connected ==>
        var r := Handle(old(server.View()), Parse(payload), now, io);
        && server.View() == r.0 && coming == old(coming) + EncodeReplies(r.1)
        && binQueue == old(binQueue) && binWaiter == old(binWaiter) && uploadInProgress == old(uploadInProgress)
      ensures !connected ==>
        && server.View() == old(server.View())
        && coming == [] && binQueue == [] && !binWaiter && !uploadInProgress
    {
      StillInv(server.View(), Parse(payload), io);
      hide *;
      sent := sent + [payload];
      Short(|payload|);
      var arrived := Transmit(setup, payload);
      if arrived.None? {
        OnClose();
        return;
      }
      var replies := server.HandleClientMessage(arrived.value, now, io);
      coming := coming + replies;
    }

    /** A reply goes to the pending wait if there is one, else into the queue. */
    method PushBinary(m: seq<byte>)
      modifies this`binQueue, this`binWaiter, this`resolved
      ensures !binWaiter
      ensures if old(binWaiter) then resolved == m && binQueue == old(binQueue) else binQueue == old(binQueue) + [m]
    {
      if binWaiter {
        binWaiter, resolved := false, m;
      } else {
        binQueue := binQueue + [m];
      }
    }

    /** Any number of replies arrive while nobody waits. */
    method Arrive()
      requires !binWaiter
      modifies this`coming, this`binQueue, this`binWaiter, this`resolved
      ensures !binWaiter && binQueue + coming == old(binQueue + coming)
    {
      var n: nat := *;
      while n > 0 && coming != []
        invariant !binWaiter && binQueue + coming == old(binQueue + coming)
      {
        var m := coming[0];
        coming := coming[1..];
        PushBinary(m);
        n := n - 1;
      }
    }

    /** The next reply: from the queue, or, with the queue empty, a wait that the next one to arrive resolves. */
    method NextBinary() returns (m: seq<byte>)
      requires !binWaiter && binQueue + coming != []
      modifies this`coming, this`binQueue, this`binWaiter, this`resolved
      ensures !binWaiter && m == old(binQueue + coming)[0] && binQueue + coming == old(binQueue + coming)[1..]
    {
      Arrive();
      if binQueue != [] {
        m, binQueue := binQueue[0], binQueue[1..];
        return;
      }
      binWaiter := true;
      var next := coming[0];
      coming := coming[1..];
      PushBinary(next);
      m := resolved;
    }

    /** Waits until the chunk is acknowledged; an early FINISH_ACK or an error cannot come first. */
    method AwaitAck(u: Upload, i: nat, ghost after: seq<seq<byte>>)
      requires i < U32 && binQueue + coming == [EncodeReply(ChunkAck(u.id, i, true))] + after
      requires !binWaiter
      modifies this`coming, this`binQueue, this`binWaiter, this`resolved
      ensures !binWaiter
      ensures binQueue + coming == after
    {
      ChunkAckRead(u.id, i, true);
      hide *;
      var acked := false;
      while !acked
        invariant !binWaiter && binQueue + coming == if acked then after else [EncodeReply(ChunkAck(u.id, i, true))] + after
        decreases !acked
      {
        var r := NextBinary();
        var kind := ReplyType(r);
        if kind == MSG_ERROR {
          assert false;
        }
        if kind == MSG_CHUNK_ACK && |r| >= 14 {
          if ReplyIndex(r) == i {
            acked := true;
          }
        } else if kind == MSG_FINISH_ACK {
          assert false;
        }
      }
    }

    /** START or QUERY has been sent: takes the bitmap from the answer. */
    method AwaitBitmap(ghost id: nat, ghost total: nat, ghost expected: seq<byte>) returns (bitmap: seq<byte>)
      requires |expected| < U32 && binQueue + coming == [EncodeReply(QueryResponse(id, total, expected))]
      requires !binWaiter
      modifies this`coming, this`binQueue, this`binWaiter, this`resolved
      ensures !binWaiter
      ensures binQueue + coming == [] && bitmap == expected
    {
      QueryResponseRead(id, total, expected);
      hide *;
      var m := NextBinary();
      if ReplyType(m) == MSG_ERROR || ReplyType(m) != MSG_QUERY_RESPONSE {
        assert false;
      }
      var parsed := ReplyBitmap(m);
      bitmap := parsed.value;
    }

    method AwaitFinish(ghost id: nat)
      requires binQueue + coming == [EncodeReply(FinishAck(id, true))]
      requires !binWaiter
      modifies this`coming, this`binQueue, this`binWaiter, this`resolved
      ensures !binWaiter
      ensures binQueue + coming == []
    {
      var finished := false;
      while !finished
        invariant !binWaiter && binQueue + coming == if finished then [] else [EncodeReply(FinishAck(id, true))]
        decreases !finished
      {
        var r := NextBinary();
        var kind := ReplyType(r);
        if kind == MSG_ERROR {
          assert false;
        }
        if kind == MSG_FINISH_ACK {
          finished := true;
        }
      }
    }

    /**
     * Sends the chunks the bitmap does not mark, each once its predecessor is acknowledged. All of them get
     * through if all fit the server's limit; else the connection is lost on the first that does not.
     */
    method SendMissing(u: Upload, ghost stored: Upload, bitmap: seq<byte>, ghost missing: set<nat>,
                       clock: nat -> nat, io: nat -> Io) returns (ok: bool, stop: nat)
      requires Between(stored, server.View(), missing, binQueue + coming) && missing != {}
      requires stored == u.(name := stored.name)
      requires Legal(u) && forall i :: 0 <= i < Total(u) ==> (BitmapMissing(bitmap, i) <==> i in missing)
      requires forall k :: io(k).readable && io(k).written >= u.chunkSize
      requires connected && !binWaiter
      modifies this`connected, this`coming, this`binQueue, this`binWaiter, this`resolved, this`uploadInProgress, this`sent, server
      ensures ok == connected && !binWaiter
      ensures ok <==> AllFit(u, missing, setup.wire.maxPayload)
      ensures ok ==> Between(stored, server.View(), {}, binQueue + coming) && sent == old(sent) + Needed(u, missing, 0)
      ensures !ok ==> binQueue + coming == [] && StoppedAt(u, stored, server.View(), missing, setup.wire.maxPayload, stop)
      ensures !ok ==> sent + Needed(u, missing, stop + 1) == old(sent) + Needed(u, missing, 0)
    {
      hide *;
      NothingComing(stored, server.View(), missing, binQueue + coming);
      SameTotal(u, stored);
      var total := Total(u);
      NothingLeft(missing, total);
      NoneYet(u, missing, setup.wire.maxPayload);
      stop := 0;
      while stop < total
        invariant 0 <= stop <= total == Total(u) && connected && !binWaiter
        invariant Between(stored, server.View(), From(missing, stop), binQueue + coming)
        invariant sent + Needed(u, missing, stop) == old(sent) + Needed(u, missing, 0)
        invariant FitBelow(u, missing, setup.wire.maxPayload, stop)
      {
        SplitFrom(missing, stop);
        NeededStep(u, missing, stop);
        OneMoreFits(u, missing, setup.wire.maxPayload, stop);
        if BitmapMissing(bitmap, stop) {
          SendOne(u, stored, From(missing, stop), stop, clock(stop + 2), io(stop + 2));
          if !connected {
            Stopped(u, stored, server.View(), missing, setup.wire.maxPayload, stop);
            return false, stop;
          }
        }
        stop := stop + 1;
      }
      NeededEnd(u, missing);
      AllBelow(u, missing, setup.wire.maxPayload, total);
      ok := true;
    }

    method SendOne(u: Upload, ghost stored: Upload, ghost left: set<nat>, i: nat, now: nat, io: Io)
      requires Legal(u) && stored == u.(name := stored.name)
      requires i in left && Between(stored, server.View(), left, binQueue + coming)
      requires io.readable && io.written >= u.chunkSize
      requires connected && !binWaiter
      modifies this`connected, this`coming, this`binQueue, this`binWaiter, this`resolved, this`uploadInProgress, this`sent, server
      ensures !binWaiter && (connected <==> Fits(u, i, setup.wire.maxPayload))
      ensures connected ==> Between(stored, server.View(), left - {i}, binQueue + coming)
      ensures !connected ==> Between(stored, server.View(), left, []) && binQueue + coming == []
      ensures i < Total(u) && Lo(u, i) <= Hi(u, i) <= |u.file| && sent == old(sent) + [Encode(ChunkRequest(u, i))]
    {
      hide *;
      NothingComing(stored, server.View(), left, binQueue + coming);
      OthersLetBe(u.id, stored, left);
      ghost var s := server.View();
      ChunkExchange(stored, s, left, i, now, io);
      SameChunk(u, stored, i);
      ChunkDecodes(u, i);
      ChunkMessageSize(u, i);
      FitsMeans(u, i, setup.wire.maxPayload);
      ghost var replies := Handle(s, ChunkRequest(u, i), now, io).1;
      Send(Encode(ChunkRequest(u, i)), now, io);
      if connected {
        AwaitAck(u, i, EncodeReplies(replies[1..]));
      }
    }

    /** Others use the server while no message of this upload is under way. */
    method OthersLetBe(id: nat, ghost u: Upload, ghost left: set<nat>)
      requires id == u.id && Between(u, server.View(), left, binQueue + coming)
      modifies server
      ensures Between(u, server.View(), left, binQueue + coming)
    {
      InvOfBetween(u, server.View(), left, binQueue + coming);
      hide *;
      ghost var s := server.View();
      OthersAct(server, id);
      OthersBetween(u, s, left, binQueue + coming, server.View());
    }

    /** START and QUERY, each answered by the bitmap. */
    method OpenSession(u: Upload, clock: nat -> nat, io: nat -> Io) returns (bitmap: seq<byte>)
      requires CanUpload(u, server.View(), io(0)) && binQueue + coming == []
      requires connected && !binWaiter && setup.wire.maxPayload >= SMALLEST_LIMIT
      modifies this`connected, this`coming, this`binQueue, this`binWaiter, this`resolved, this`uploadInProgress, this`sent, server
      ensures connected && !binWaiter
      ensures
        var missing := FirstMissing(u, old(server.View()), io(0));
        && Between(Stored(u, old(server.View())), server.View(), missing, []) && missing != {}
        && (forall i :: 0 <= i < Total(u) ==> (BitmapMissing(bitmap, i) <==> i in missing))
        && (forall i :: i in missing ==> i < Total(u))
      ensures binQueue + coming == []
      ensures sent == old(sent) + [Encode(StartRequest(u)), Encode(Query(u.id))]
    {
      hide *;
      ghost var s := server.View();
      StoredIsAlike(u, s, io(0));
      ControlMessagesFit(u);
      LimitIsSmall();
      ghost var stored := Stored(u, s);
      ghost var missing := FirstMissing(u, s, io(0));
      StartExchange(u, s, clock(0), io(0));
      Send(Encode(StartRequest(u)), clock(0), io(0));
      AnsweredOnce(stored, server.View(), missing, Handle(s, StartRequest(u), clock(0), io(0)).1);
      Expect(stored, server.View(), missing);
      bitmap := AwaitBitmap(u.id, Total(u), BitmapOf(stored, server.View()));
      bitmap := AskAgain(u, stored, missing, clock(1), io(1));
    }

    /** QUERY, after whatever others have done meanwhile. */
    method AskAgain(u: Upload, ghost stored: Upload, ghost missing: set<nat>, now: nat, io: Io) returns (bitmap: seq<byte>)
      requires Legal(u) && stored == u.(name := stored.name) && binQueue + coming == []
      requires Between(stored, server.View(), missing, []) && missing != {}
      requires connected && !binWaiter && setup.wire.maxPayload >= SMALLEST_LIMIT
      modifies this`connected, this`coming, this`binQueue, this`binWaiter, this`resolved, this`uploadInProgress, this`sent, server
      ensures connected && !binWaiter
      ensures Between(stored, server.View(), missing, [])
      ensures forall i :: 0 <= i < Total(u) ==> (BitmapMissing(bitmap, i) <==> i in missing)
      ensures binQueue + coming == [] && sent == old(sent) + [Encode(Query(u.id))]
    {
      hide *;
      ControlMessagesFit(u);
      LimitIsSmall();
      NothingComing(stored, server.View(), missing, []);
      SameTotal(u, stored);
      OthersLetBe(u.id, stored, missing);
      ghost var s := server.View();
      NothingComing(stored, s, missing, []);
      QueryExchange(stored, s, now, io);
      Send(Encode(Query(u.id)), now, io);
      AnsweredOnce(stored, server.View(), missing, Handle(s, Query(u.id), now, io).1);
      Expect(stored, server.View(), missing);
      bitmap := AwaitBitmap(u.id, Total(u), BitmapOf(stored, server.View()));
    }

    /** START, QUERY, the missing chunks, and the wait for the end. */
    method Exchange(u: Upload, clock: nat -> nat, io: nat -> Io) returns (ok: bool, stop: nat)
      requires CanUpload(u, server.View(), io(0)) && binQueue + coming == []
      requires forall k :: io(k).readable && io(k).written >= u.chunkSize
      requires connected && !binWaiter && setup.wire.maxPayload >= SMALLEST_LIMIT
      modifies this`connected, this`coming, this`binQueue, this`binWaiter, this`resolved, this`uploadInProgress, this`sent, server
      ensures ok == connected && !binWaiter && binQueue + coming == []
      ensures ok <==> AllFit(u, FirstMissing(u, old(server.View()), io(0)), setup.wire.maxPayload)
      ensures ok ==>
        var missing := FirstMissing(u, old(server.View()), io(0));
        && Done(Stored(u, old(server.View())), server.View())
        && sent == old(sent) + [Encode(StartRequest(u)), Encode(Query(u.id))] + Needed(u, missing, 0)
        && |Needed(u, missing, 0)| == |missing| > 0
      ensures !ok ==>
        StoppedAt(u, Stored(u, old(server.View())), server.View(), FirstMissing(u, old(server.View()), io(0)), setup.wire.maxPayload, stop)
    {
      hide *;
      ghost var s := server.View();
      StoredIsAlike(u, s, io(0));
      ghost var stored := Stored(u, s);
      ghost var missing := FirstMissing(u, s, io(0));
      var bitmap := OpenSession(u, clock, io);
      NeededCount(u, missing, 0);
      NothingLeft(missing, Total(u));
      ok, stop := SendMissing(u, stored, bitmap, missing, clock, io);
      if ok {
        OthersLetBe(u.id, stored, {});
        AtTheEnd(stored, server.View(), binQueue + coming);
        AwaitFinish(u.id);
      }
    }

    /**
     * The click on the upload button. From a live session of the same file, or from none, with no
     * other user of the id, no eviction and no I/O failure, whatever else the server is used for: the upload sends
     * one message per chunk the server misses, at least one, never waits in vain and leaves the finished file
     * on the server, if and only if every one of these chunks fits the server's limit with its header. If one does not, the
     * connection is lost on the first such chunk and the session stays behind, to be resumed.
     */
    method UploadFile(u: Upload, clock: nat -> nat, io: nat -> Io) returns (result: Result)
      requires connected && !uploadInProgress && u.chunkSize >= 1024 && |u.file| <= 0x1F_FFFF_FFFF_FFFF ==>
        && CanUpload(u, server.View(), io(0)) && Total(u) < 0x8000_0000
        && coming == [] && setup.wire.maxPayload >= SMALLEST_LIMIT
        && forall k :: io(k).readable && io(k).written >= u.chunkSize
      modifies this, server
      ensures
        if !old(connected) then result == NotConnected
        else if old(uploadInProgress) then result == Busy
        else if u.chunkSize < 1024 then result == ChunkTooSmall
        else if |u.file| > 0x1F_FFFF_FFFF_FFFF then result == FileTooLarge
        else result == if AllFit(u, FirstMissing(u, old(server.View()), io(0)), setup.wire.maxPayload) then Finished else Disconnected
      ensures result.NotConnected? || result.Busy? || !uploadInProgress
      ensures !result.Finished? && !result.Disconnected? ==> sent == old(sent) && server.View() == old(server.View())
      ensures result.Finished? ==>
        var missing := FirstMissing(u, old(server.View()), io(0));
        && Done(Stored(u, old(server.View())), server.View())
        && binQueue + coming == []
        && sent == old(sent) + [Encode(StartRequest(u)), Encode(Query(u.id))] + Needed(u, missing, 0)
        && |Needed(u, missing, 0)| == |missing| > 0
      ensures result.Disconnected? ==>
        && !connected
        && exists k :: StoppedAt(u, Stored(u, old(server.View())), server.View(), FirstMissing(u, old(server.View()), io(0)), setup.wire.maxPayload, k)
    {
      Thresholds();
      hide *;
      if !connected {
        return NotConnected;
      }
      if uploadInProgress {
        return Busy;
      }
      uploadInProgress := true;
      ResetBinaryDemux();
      if u.chunkSize < SMALLEST_CHUNK {
        uploadInProgress := false;
        return ChunkTooSmall;
      }
      if |u.file| > MAX_SAFE_INTEGER {
        uploadInProgress := false;
        return FileTooLarge;
      }
      ghost var s := server.View();
      LegalUpload(u, s, io(0));
      var ok, stop := Exchange(u, clock, io);
      ghost var s' := server.View();
      uploadInProgress := false;
      assert server.View() == s';
      assert !ok ==> StoppedAt(u, Stored(u, s), s', FirstMissing(u, s, io(0)), setup.wire.maxPayload, stop);
      result := if ok then Finished else Disconnected;
    }
  }
}
