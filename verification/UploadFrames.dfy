/**
 * Chunks as WebSocket frames: which of them the server's parser lets through. A chunk message is 17
 * bytes longer than its data, and a client that ignores that has its connection dropped.
 */
module UploadFrames {
  import opened Bytes
  import opened FrameBuilder
  import opened FrameCodec
  import opened StreamParser
  import opened Fragmentation
  import opened FileProtocol
  import opened Upload

  const CHUNK_HEADER: nat := 17

  /** A frame over the limit is refused as soon as its length is known. */
  lemma TooLargeRefused(c: Config, f: WireFrame)
    requires FrameCodec.Writable(f) && f.opcode < 0x8 && |f.payload| > c.maxPayload
    ensures NextFrame(c, FrameBytes(f)) == Bad(PayloadTooLarge)
  {
    var s, n := FrameBytes(f), |f.payload|;
    WrittenHeader(f, []);
    assert s + [] == s;
    hide FrameBytes, FirstByte, SecondByte, ExtendedBytes, MaskBytes, Unmask;
    FirstByteRead(f.fin, f.opcode);
    SecondByteRead(f.mask.Some?, Length7(n));
    WrittenLength(s, n);
    NextFramePastHeader(c, s, n);
  }

  function ChunkFrame(u: Upload, i: nat, mask: Mask): WireFrame
    requires Lo(u, i) <= Hi(u, i) <= |u.file|
  {
    WireFrame(true, OP_BINARY, Some(mask), Encode(ChunkRequest(u, i)))
  }

  lemma ChunkFrameSize(u: Upload, i: nat, mask: Mask)
    requires Legal(u) && i < Total(u)
    ensures Lo(u, i) < Hi(u, i) <= |u.file|
    ensures |ChunkFrame(u, i, mask).payload| == |Slice(u, i)| + CHUNK_HEADER < MAX_LENGTH
  {
    ChunkInFile(u, i);
  }

  lemma OneFrameWritten(f: WireFrame)
    ensures WriteFrames([f]) == FrameBytes(f)
  {
    assert WriteFrames([f]) == FrameBytes(f) + WriteFrames([f][1..]);
    assert FrameBytes(f) + [] == FrameBytes(f);
  }

  /** What the server's parser shows of one binary message, however its frame is cut: the message if and only if it fits. */
  lemma BinaryReachesServer(c: Setup, payload: seq<byte>, mask: Mask, pieces: seq<seq<byte>>)
    requires |payload| < MAX_LENGTH
    requires Concat(pieces) == FrameBytes(WireFrame(true, OP_BINARY, Some(mask), payload))
    ensures FeedAll(c, Open([], Idle), pieces)
         == if |payload| <= c.wire.maxPayload
            then Fed(None, [Frame(OP_BINARY, true, payload)], Live(Open([], Idle)))
            else Fed(None, [], Dead(PayloadTooLarge))
  {
    var f := WireFrame(true, OP_BINARY, Some(mask), payload);
    hide FrameBytes;
    if |payload| <= c.wire.maxPayload {
      OneFrameWritten(f);
      WholeFramesRoundTrip(c, [f], pieces);
      assert Shown([f]) == [Frame(OP_BINARY, true, payload)];
    } else {
      FeedAllIsOneFeed(c, Open([], Idle), pieces);
      assert [] + Concat(pieces) == Concat(pieces);
      TooLargeRefused(c.wire, f);
    }
  }

  /** The same for a chunk: its data and 17 bytes have to fit. */
  lemma ChunkReachesServer(c: Setup, u: Upload, i: nat, mask: Mask, pieces: seq<seq<byte>>)
    requires Legal(u) && i < Total(u) && Lo(u, i) <= Hi(u, i) <= |u.file|
    requires Concat(pieces) == FrameBytes(ChunkFrame(u, i, mask))
    ensures FeedAll(c, Open([], Idle), pieces)
         == if |Slice(u, i)| + CHUNK_HEADER <= c.wire.maxPayload
            then Fed(None, [Frame(OP_BINARY, true, Encode(ChunkRequest(u, i)))], Live(Open([], Idle)))
            else Fed(None, [], Dead(PayloadTooLarge))
  {
    ChunkFrameSize(u, i, mask);
    hide ChunkRequest, Encode, FrameBytes;
    BinaryReachesServer(c, Encode(ChunkRequest(u, i)), mask, pieces);
  }

  // ---------------------------------------------------------------- sending a message

  /** The network delivers a byte string in pieces of its own choice. */
  method Cut(bytes: seq<byte>) returns (pieces: seq<seq<byte>>)
    ensures Concat(pieces) == bytes
  {
    pieces := [];
    var rest := bytes;
    while rest != []
      invariant Concat(pieces) + rest == bytes
      decreases |rest|
    {
      assert 1 <= |rest|;
      var n :| 1 <= n <= |rest|;
      ConcatAppend(pieces, [rest[..n]]);
      assert [rest[..n]][1..] == [] && rest[..n] + [] == rest[..n] && rest == rest[..n] + rest[n..];
      Associate(Concat(pieces), rest[..n], rest[n..]);
      pieces := pieces + [rest[..n]];
      rest := rest[n..];
    }
    assert Concat(pieces) + [] == Concat(pieces);
  }

  /**
   * A client sends one binary message over an open connection: framed, masked with any key, cut on its way, and
   * parsed by the server. The message arrives, or the parser throws and the connection is gone.
   */
  method Transmit(c: Setup, payload: seq<byte>) returns (arrived: Option<seq<byte>>)
    requires |payload| < MAX_LENGTH
    ensures arrived == if |payload| <= c.wire.maxPayload then Some(payload) else None
  {
    var mask: Mask := *;
    var bytes := BuildClientFrame(OP_BINARY, payload, mask);
    var pieces := Cut(bytes);
    BinaryReachesServer(c, payload, mask, pieces);
    var r := FeedAll(c, Open([], Idle), pieces);
    if r.status.Dead? {
      return None;
    }
    arrived := Some(r.frames[0].payload);
  }

  // ---------------------------------------------------------------- whole uploads

  /** Every chunk of an upload gets through exactly if its first one does, that is, if the chunk size leaves room for the header. */
  lemma AllChunksFit(u: Upload, maxPayload: nat)
    requires Legal(u)
    ensures (forall i :: 0 <= i < Total(u) ==> Hi(u, i) - Lo(u, i) + CHUNK_HEADER <= maxPayload)
       <==> (if u.chunkSize <= |u.file| then u.chunkSize else |u.file|) + CHUNK_HEADER <= maxPayload
  {
    TotalBounds(u);
    var largest := if u.chunkSize <= |u.file| then u.chunkSize else |u.file|;
    assert Lo(u, 0) == 0 && Hi(u, 0) - Lo(u, 0) == largest;
    if largest + CHUNK_HEADER <= maxPayload {
      forall i | 0 <= i < Total(u)
        ensures Hi(u, i) - Lo(u, i) + CHUNK_HEADER <= maxPayload
      {
        ChunkInFile(u, i);
      }
    }
  }

  /** With both defaults, the first chunk of any file of at least 64 KiB costs the client its connection. */
  lemma DefaultsDisagree(c: Setup, u: Upload, mask: Mask, pieces: seq<seq<byte>>)
    requires Legal(u) && u.chunkSize == 65536 <= |u.file| && c.wire.maxPayload == 65536
    requires Lo(u, 0) <= Hi(u, 0) <= |u.file| && Concat(pieces) == FrameBytes(ChunkFrame(u, 0, mask))
    ensures FeedAll(c, Open([], Idle), pieces) == Fed(None, [], Dead(PayloadTooLarge))
  {
    TotalBounds(u);
    ChunkReachesServer(c, u, 0, mask, pieces);
  }
}
