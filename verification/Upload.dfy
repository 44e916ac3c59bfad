/**
 * One file on its way to the server: how a client cuts it up, and what the server holds of it
 * after any sequence of messages that carry only true slices of that file.
 */
module Upload {
  import opened Bytes
  import opened Crc32
  import opened Bitmap
  import opened FileNames
  import opened FileProtocol
  import opened FileTransfer

  datatype Upload = Upload(id: nat, file: seq<byte>, chunkSize: nat, name: seq<byte>)

  // ---------------------------------------------------------------- the client's arithmetic

  /** The number of chunks: the file size divided by the chunk size, rounded up. */
  function Total(u: Upload): nat
    requires u.chunkSize > 0
  {
    (|u.file| + u.chunkSize - 1) / u.chunkSize
  }

  ghost predicate Legal(u: Upload) {
    && 0 < |u.file| < OFFSET_LIMIT
    && 0 < u.chunkSize < U32
    && Total(u) < U32
    && u.id < U64 && |u.name| <= MAX_NAME
  }

  function Lo(u: Upload, i: nat): nat {
    i * u.chunkSize
  }

  function Hi(u: Upload, i: nat): nat {
    if Lo(u, i) + u.chunkSize <= |u.file| then Lo(u, i) + u.chunkSize else |u.file|
  }

  lemma TimesMonotone(i: nat, j: nat, d: nat)
    requires i <= j
    ensures i * d <= j * d
  {
  }

  lemma TotalBounds(u: Upload)
    requires 0 < |u.file| && 0 < u.chunkSize
    ensures 0 < Total(u)
    ensures |u.file| <= Total(u) * u.chunkSize
    ensures (Total(u) - 1) * u.chunkSize < |u.file|
  {
    var n, d, q := |u.file|, u.chunkSize, Total(u);
    var r := (n + d - 1) % d;
    assert n + d - 1 == d * q + r;
    assert (q - 1) * d == d * q - d;
  }

  /** Chunks lie inside the file, are never empty, and only the last one may be short. */
  lemma ChunkInFile(u: Upload, i: nat)
    requires Legal(u) && i < Total(u)
    ensures Lo(u, i) < Hi(u, i) <= |u.file| < OFFSET_LIMIT
    ensures Hi(u, i) - Lo(u, i) <= u.chunkSize
    ensures i + 1 < Total(u) ==> Hi(u, i) == Lo(u, i + 1) == Lo(u, i) + u.chunkSize
    ensures i + 1 == Total(u) ==> Hi(u, i) == |u.file|
  {
    TotalBounds(u);
    TimesMonotone(i, Total(u) - 1, u.chunkSize);
    assert (i + 1) * u.chunkSize == i * u.chunkSize + u.chunkSize;
    if i + 1 < Total(u) {
      TimesMonotone(i + 1, Total(u) - 1, u.chunkSize);
    }
  }

  /** Different chunks occupy disjoint ranges, in order. */
  lemma ChunksDisjoint(u: Upload, i: nat, j: nat)
    requires Legal(u) && i < j < Total(u)
    ensures Hi(u, i) <= Lo(u, j)
  {
    ChunkInFile(u, i);
    TimesMonotone(i + 1, j, u.chunkSize);
  }

  lemma Quotient(k: nat, d: nat) returns (i: nat)
    requires d > 0
    ensures i * d <= k < i * d + d
  {
    i := k / d;
    assert k == d * i + k % d;
  }

  lemma BelowTotal(u: Upload, i: nat)
    requires Legal(u) && i * u.chunkSize < |u.file|
    ensures i < Total(u)
  {
    TotalBounds(u);
    hide Total;
    if i >= Total(u) {
      TimesMonotone(Total(u), i, u.chunkSize);
    }
  }

  /** Every position of the file lies in some chunk. */
  lemma ChunkOfPosition(u: Upload, k: nat) returns (i: nat)
    requires Legal(u) && k < |u.file|
    ensures i < Total(u) && Lo(u, i) <= k < Hi(u, i)
  {
    i := Quotient(k, u.chunkSize);
    BelowTotal(u, i);
    hide Total;
  }

  function Slice(u: Upload, i: nat): seq<byte>
    requires Lo(u, i) <= Hi(u, i) <= |u.file|
  {
    u.file[Lo(u, i)..Hi(u, i)]
  }

  /** The file content `c` has the right bytes in chunk `i`. */
  ghost predicate HasChunk(u: Upload, c: seq<byte>, i: nat) {
    Lo(u, i) <= Hi(u, i) <= |u.file| == |c| && c[Lo(u, i)..Hi(u, i)] == Slice(u, i)
  }

  lemma ByteOfChunk(u: Upload, c: seq<byte>, i: nat, k: nat)
    requires HasChunk(u, c, i) && Lo(u, i) <= k < Hi(u, i)
    ensures k < |c| == |u.file| && c[k] == u.file[k]
  {
    assert c[k] == c[Lo(u, i)..Hi(u, i)][k - Lo(u, i)] == Slice(u, i)[k - Lo(u, i)] == u.file[k];
  }

  lemma AllChunksAreTheFile(u: Upload, c: seq<byte>)
    requires Legal(u) && forall i :: 0 <= i < Total(u) ==> HasChunk(u, c, i)
    ensures c == u.file
  {
    TotalBounds(u);
    assert HasChunk(u, c, 0);
    forall k | 0 <= k < |u.file|
      ensures c[k] == u.file[k]
    {
      var i := ChunkOfPosition(u, k);
      ByteOfChunk(u, c, i, k);
    }
  }

  lemma WriteChunk(u: Upload, c: seq<byte>, i: nat, j: nat)
    requires Legal(u) && |c| == |u.file| && i < Total(u) && j < Total(u)
    requires Lo(u, i) <= Hi(u, i) <= |u.file|
    ensures |WriteAt(c, Lo(u, i), Slice(u, i))| == |u.file|
    ensures i == j || HasChunk(u, c, j) ==> HasChunk(u, WriteAt(c, Lo(u, i), Slice(u, i)), j)
  {
    ChunkInFile(u, i);
    ChunkInFile(u, j);
    var r := WriteAt(c, Lo(u, i), Slice(u, i));
    if i == j {
      assert r[Lo(u, i)..Hi(u, i)] == Slice(u, i);
    } else if HasChunk(u, c, j) {
      if i < j {
        ChunksDisjoint(u, i, j);
      } else {
        ChunksDisjoint(u, j, i);
      }
      assert r[Lo(u, j)..Hi(u, j)] == c[Lo(u, j)..Hi(u, j)];
    }
  }

  // ---------------------------------------------------------------- the requests of this upload

  function StartRequest(u: Upload): (r: Request)
    requires u.chunkSize > 0
    ensures r.Start? && r.id == u.id
  {
    Start(u.id, |u.file|, u.chunkSize, Total(u), Crc(u.file), u.name)
  }

  function ChunkRequest(u: Upload, i: nat): Request
    requires Lo(u, i) <= Hi(u, i) <= |u.file|
  {
    Chunk(u.id, i, Crc(Slice(u, i)), Slice(u, i))
  }

  /** `r` carries chunk `r.index` of this file, whole and with its checksum. */
  ghost predicate Carries(u: Upload, r: Request) {
    && u.chunkSize > 0 && r.Chunk? && r.index < Total(u)
    && Lo(u, r.index) <= Hi(u, r.index) <= |u.file|
    && r == ChunkRequest(u, r.index)
  }

  ghost predicate Concerns(u: Upload, r: Request) {
    !r.Malformed? && r.id == u.id
  }

  /** A START for the same file, whatever its display name. */
  ghost predicate SameParameters(u: Upload, r: Request)
    requires u.chunkSize > 0 && r.Start?
  {
    r.size == |u.file| && r.chunkSize == u.chunkSize && r.total == Total(u) && r.crc == Crc(u.file)
  }

  /** A chunk that the server has no objection to, judged by its position, length and checksum. */
  ghost predicate Plausible(u: Upload, r: Request)
    requires u.chunkSize > 0 && r.Chunk?
  {
    && r.index < Total(u) && r.data != [] && Crc(r.data) == r.crc
    && (r.index + 1 == Total(u) || |r.data| == u.chunkSize)
  }

  /**
   * What the result needs of the messages: those about this upload restart it with the same
   * parameters, and whatever chunk data the server accepts is the true slice. Queries, rejected
   * chunks, malformed messages and other uploads are free. No I/O failure on this upload's messages.
   */
  ghost predicate Friendly(u: Upload, r: Request, io: Io)
    requires u.chunkSize > 0
  {
    Concerns(u, r) ==>
      && (r.Start? ==> SameParameters(u, r))
      && (r.Chunk? && Plausible(u, r) ==> Carries(u, r))
      && (r.Chunk? ==> io.written >= |r.data| && io.readable)
  }

  // ---------------------------------------------------------------- what the server holds

  /**
   * The session (with `u.name` as the display name it was created under) holds exactly the chunks its
   * bitmap says, and something is still missing.
   */
  ghost predicate Uploading(u: Upload, s: Store) {
    && Legal(u) && Inv(s)
    && u.id in s.sessions && Sound(s, u.id)
    && Resumes(s.sessions[u.id], StartRequest(u)) && s.sessions[u.id].name == u.name
    && s.sessions[u.id].received < s.sessions[u.id].total
    && |s.disk[Temp(u.id)]| == |u.file|
    && forall i :: 0 <= i < Total(u) && Get(s.sessions[u.id].bitmap, i) ==> HasChunk(u, s.disk[Temp(u.id)], i)
  }

  ghost function MissingChunks(u: Upload, s: Store): set<nat>
    requires Uploading(u, s)
  {
    Missing(s.sessions[u.id].bitmap, Total(u))
  }

  /** The upload is over: no session, and the finished file is the client's file. */
  ghost predicate Done(u: Upload, s: Store) {
    && u.id !in s.sessions
    && Final(u.id, u.name) in s.disk && s.disk[Final(u.id, u.name)] == u.file
  }

  ghost predicate NoFinish(u: Upload, replies: seq<Reply>) {
    forall r :: r in replies && r.FinishAck? ==> r.id != u.id
  }

  // ---------------------------------------------------------------- one message

  /** Messages that are not about an id leave its session and its files alone. */
  ghost predicate SameFor(id: nat, s: Store, s': Store) {
    && (id in s'.sessions <==> id in s.sessions)
    && (id in s.sessions ==> s'.sessions[id] == s.sessions[id])
    && (Temp(id) in s'.disk <==> Temp(id) in s.disk)
    && (Temp(id) in s.disk ==> s'.disk[Temp(id)] == s.disk[Temp(id)])
    && (forall name :: Final(id, name) in s.disk ==> Final(id, name) in s'.disk && s'.disk[Final(id, name)] == s.disk[Final(id, name)])
  }

  lemma OthersComplete(id: nat, s: Store, other: nat, io: Io)
    requires Ready(s, other) && other != id
    ensures SameFor(id, s, Complete(s, other, io).0)
    ensures forall x :: x in Complete(s, other, io).1 && x.FinishAck? ==> x.id != id
  {
  }

  lemma OthersAccept(id: nat, s: Store, r: Request, now: nat, io: Io)
    requires r.Chunk? && r.id in s.sessions && Sound(s, r.id) && r.index < s.sessions[r.id].total && r.id != id
    ensures SameFor(id, s, AcceptChunk(s, r, now, io).0)
    ensures forall x :: x in AcceptChunk(s, r, now, io).1 && x.FinishAck? ==> x.id != id
  {
    var s1 := Accepted(s, r.id, r.index, r.data, now);
    assert SameFor(id, s, s1);
    OthersComplete(id, s1, r.id, io);
  }

  lemma OthersPartial(id: nat, s: Store, other: nat, c: seq<byte>)
    requires other != id
    ensures SameFor(id, s, s.(disk := s.disk[Temp(other) := c]))
  {
  }

  lemma OthersChunk(id: nat, s: Store, r: Request, now: nat, io: Io)
    requires Inv(s) && r.Chunk? && r.id != id
    ensures SameFor(id, s, HandleChunk(s, r, now, io).0)
    ensures forall x :: x in HandleChunk(s, r, now, io).1 && x.FinishAck? ==> x.id != id
  {
    if r.id in s.sessions && Objection(s.sessions[r.id], r).None? {
      assert Sound(s, r.id);
      var at := Offset(s.sessions[r.id], r.index);
      var n := BytesWritten(at, |r.data|, io);
      if n == |r.data| {
        OthersAccept(id, s, r, now, io);
      } else if n > 0 {
        OthersPartial(id, s, r.id, WriteAt(s.disk[Temp(r.id)], at, r.data[..n]));
      }
    }
  }

  lemma OthersStart(id: nat, s: Store, r: Request, now: nat, io: Io)
    requires r.Start? && Handleable(s, r, io) && r.id != id
    ensures SameFor(id, s, HandleStart(s, r, now, io).0)
    ensures forall x :: x in HandleStart(s, r, now, io).1 ==> !x.FinishAck?
  {
    hide Inv;
  }

  lemma OthersLeaveAlone(id: nat, s: Store, r: Request, now: nat, io: Io)
    requires Handleable(s, r, io) && (r.Malformed? || r.id != id)
    ensures SameFor(id, s, Handle(s, r, now, io).0)
    ensures forall x :: x in Handle(s, r, now, io).1 && x.FinishAck? ==> x.id != id
  {
    hide Inv, HandleStart, HandleChunk;
    if r.Chunk? {
      OthersChunk(id, s, r, now, io);
    } else if r.Start? {
      OthersStart(id, s, r, now, io);
    }
  }

  lemma SameForUploading(u: Upload, s: Store, s': Store)
    requires Uploading(u, s) && Inv(s') && SameFor(u.id, s, s')
    ensures Uploading(u, s') && MissingChunks(u, s') == MissingChunks(u, s)
  {
    assert Sound(s', u.id);
  }

  lemma TouchUploading(u: Upload, s: Store, now: nat)
    requires Uploading(u, s)
    ensures Uploading(u, Touch(s, u.id, now)) && MissingChunks(u, Touch(s, u.id, now)) == MissingChunks(u, s)
  {
    TouchKeepsInv(s, u.id, now);
    assert Sound(Touch(s, u.id, now), u.id);
  }

  lemma AcceptedContent(u: Upload, s: Store, r: Request, now: nat)
    requires Uploading(u, s) && Carries(u, r)
    ensures
      var s1 := Accepted(s, r.id, r.index, r.data, now);
      && s1.disk[Temp(u.id)] == WriteAt(s.disk[Temp(u.id)], Lo(u, r.index), Slice(u, r.index))
      && u.id in s1.sessions && s1.sessions[u.id] == Mark(s.sessions[u.id], r.index, now)
  {
    hide Inv, Total;
  }

  /** Marking a chunk, marked before or not. */
  lemma MarkedBitmap(st: Session, i: nat, now: nat, j: nat)
    requires WellFormed(st.bitmap, st.total, st.received) && i < st.total && j < st.total
    ensures |Mark(st, i, now).bitmap| == |st.bitmap|
    ensures Get(Mark(st, i, now).bitmap, j) <==> i == j || Get(st.bitmap, j)
  {
    if !Get(st.bitmap, i) {
      SetGet(st.bitmap, i, j);
    }
  }

  lemma MarkedMissing(st: Session, i: nat, now: nat)
    requires WellFormed(st.bitmap, st.total, st.received) && i < st.total
    ensures |Mark(st, i, now).bitmap| == |st.bitmap|
    ensures Missing(Mark(st, i, now).bitmap, st.total) == Missing(st.bitmap, st.total) - {i}
  {
    hide Get, Mark;
    MarkedBitmap(st, i, now, 0);
    forall j: nat | j < st.total
      ensures Get(Mark(st, i, now).bitmap, j) <==> i == j || Get(st.bitmap, j)
    {
      MarkedBitmap(st, i, now, j);
    }
  }

  lemma MarkedChunks(u: Upload, st: Session, c: seq<byte>, i: nat, now: nat)
    requires Legal(u) && i < Total(u) == st.total && WellFormed(st.bitmap, st.total, st.received) && |c| == |u.file|
    requires Lo(u, i) <= Hi(u, i) <= |u.file|
    requires forall j :: 0 <= j < Total(u) && Get(st.bitmap, j) ==> HasChunk(u, c, j)
    ensures
      var c', st' := WriteAt(c, Lo(u, i), Slice(u, i)), Mark(st, i, now);
      && |c'| == |u.file|
      && (forall j :: 0 <= j < Total(u) && Get(st'.bitmap, j) ==> HasChunk(u, c', j))
      && Missing(st'.bitmap, Total(u)) == Missing(st.bitmap, Total(u)) - {i}
  {
    var c', st' := WriteAt(c, Lo(u, i), Slice(u, i)), Mark(st, i, now);
    MarkedMissing(st, i, now);
    hide Total, HasChunk, WriteAt, Get, Mark, Missing, Lo, Hi, Slice;
    WriteChunk(u, c, i, i);
    forall j | 0 <= j < Total(u) && Get(st'.bitmap, j)
      ensures HasChunk(u, c', j)
    {
      MarkedBitmap(st, i, now, j);
      WriteChunk(u, c, i, j);
    }
  }

  /** What the chunk leaves behind before the whole-file check. */
  lemma AcceptedHolds(u: Upload, s: Store, r: Request, now: nat)
    requires Uploading(u, s) && Carries(u, r)
    ensures
      var s1 := Accepted(s, r.id, r.index, r.data, now);
      var st := s1.sessions[u.id];
      && u.id in s1.sessions && Inv(s1) && Sound(s1, u.id)
      && Resumes(st, StartRequest(u)) && st.name == u.name
      && |s1.disk[Temp(u.id)]| == |u.file|
      && (forall i :: 0 <= i < Total(u) && Get(st.bitmap, i) ==> HasChunk(u, s1.disk[Temp(u.id)], i))
      && Missing(st.bitmap, Total(u)) == MissingChunks(u, s) - {r.index}
  {
    AcceptedKeepsInv(s, r, now);
    AcceptedContent(u, s, r, now);
    hide Total, HasChunk, Accepted, WriteAt;
    MarkedChunks(u, s.sessions[u.id], s.disk[Temp(u.id)], r.index, now);
    assert Sound(Accepted(s, r.id, r.index, r.data, now), u.id);
  }

  lemma NoObjection(u: Upload, s: Store, r: Request)
    requires Uploading(u, s) && Carries(u, r)
    ensures Objection(s.sessions[u.id], r).None?
    ensures Offset(s.sessions[u.id], r.index) == Lo(u, r.index)
    ensures Offset(s.sessions[u.id], r.index) + |r.data| <= OFFSET_LIMIT
  {
    ChunkInFile(u, r.index);
  }

  lemma WholeWrite(s: Store, r: Request, now: nat, io: Io)
    requires r.Chunk? && Inv(s) && r.id in s.sessions && Objection(s.sessions[r.id], r).None?
    requires BytesWritten(Offset(s.sessions[r.id], r.index), |r.data|, io) == |r.data|
    ensures Sound(s, r.id) && HandleChunk(s, r, now, io) == AcceptChunk(s, r, now, io)
  {
  }

  lemma HandledChunk(u: Upload, s: Store, r: Request, now: nat, io: Io)
    requires Uploading(u, s) && Carries(u, r) && io.written >= |r.data|
    ensures HandleChunk(s, r, now, io) == AcceptChunk(s, r, now, io)
  {
    NoObjection(u, s, r);
    WholeWrite(s, r, now, io);
  }

  lemma CompleteDone(u: Upload, s: Store, io: Io)
    requires Ready(s, u.id) && io.readable
    requires s.disk[Temp(u.id)] == u.file && s.sessions[u.id].crc == Crc(u.file) && s.sessions[u.id].name == u.name
    ensures Complete(s, u.id, io).1 == [FinishAck(u.id, true)] && Done(u, Complete(s, u.id, io).0)
  {
    hide Crc;
  }

  /** With nothing missing any more, the session is full and its file is the client's. */
  lemma NothingMissing(u: Upload, s: Store)
    requires Legal(u) && u.id in s.sessions && Sound(s, u.id) && Resumes(s.sessions[u.id], StartRequest(u))
    requires forall i :: 0 <= i < Total(u) && Get(s.sessions[u.id].bitmap, i) ==> HasChunk(u, s.disk[Temp(u.id)], i)
    requires Missing(s.sessions[u.id].bitmap, Total(u)) == {}
    ensures s.sessions[u.id].received == s.sessions[u.id].total && s.disk[Temp(u.id)] == u.file
  {
    var st := s.sessions[u.id];
    MissingEmpty(st.bitmap, st.total, st.received);
    CountFull(st.bitmap, st.total);
    AllChunksAreTheFile(u, s.disk[Temp(u.id)]);
  }

  lemma AcceptFull(s: Store, r: Request, now: nat, io: Io)
    requires r.Chunk? && r.id in s.sessions && Sound(s, r.id) && r.index < s.sessions[r.id].total
    requires
      var st := Accepted(s, r.id, r.index, r.data, now).sessions[r.id];
      st.received == st.total
    ensures
      var s1 := Accepted(s, r.id, r.index, r.data, now);
      Ready(s1, r.id) && AcceptChunk(s, r, now, io)
        == (Complete(s1, r.id, io).0, [ChunkAck(r.id, r.index, !Get(s.sessions[r.id].bitmap, r.index))] + Complete(s1, r.id, io).1)
  {
    hide Complete;
  }

  lemma LastChunk(u: Upload, s: Store, r: Request, now: nat, io: Io)
    requires Uploading(u, s) && Carries(u, r) && io.readable && MissingChunks(u, s) == {r.index}
    ensures AcceptChunk(s, r, now, io).1 == [ChunkAck(u.id, r.index, true), FinishAck(u.id, true)]
    ensures Done(u, AcceptChunk(s, r, now, io).0)
  {
    AcceptedHolds(u, s, r, now);
    var s1 := Accepted(s, r.id, r.index, r.data, now);
    assert r.index in MissingChunks(u, s);
    assert !Get(s.sessions[u.id].bitmap, r.index);
    hide Total, Accepted, WellFormed, Crc, HasChunk, Inv, Complete, Done, AcceptChunk, Get, Missing;
    NothingMissing(u, s1);
    AcceptFull(s, r, now, io);
    CompleteDone(u, s1, io);
  }

  lemma NotLastChunk(u: Upload, s: Store, r: Request, now: nat, io: Io)
    requires Uploading(u, s) && Carries(u, r) && MissingChunks(u, s) != {r.index}
    ensures AcceptChunk(s, r, now, io).1 == [ChunkAck(u.id, r.index, r.index in MissingChunks(u, s))]
    ensures Uploading(u, AcceptChunk(s, r, now, io).0)
    ensures MissingChunks(u, AcceptChunk(s, r, now, io).0) == MissingChunks(u, s) - {r.index}
  {
    AcceptedHolds(u, s, r, now);
    var st := Accepted(s, r.id, r.index, r.data, now).sessions[u.id];
    MissingEmpty(st.bitmap, st.total, st.received);
    MissingEmpty(s.sessions[u.id].bitmap, Total(u), s.sessions[u.id].received);
    assert Get(s.sessions[u.id].bitmap, r.index) <==> r.index !in MissingChunks(u, s);
  }

  /** A chunk for this upload that is turned away changes nothing. */
  lemma RejectedChunk(u: Upload, s: Store, r: Request, now: nat, io: Io)
    requires Uploading(u, s) && r.Chunk? && r.id == u.id && Friendly(u, r, io) && !Carries(u, r)
    ensures HandleChunk(s, r, now, io).0 == s && NoFinish(u, HandleChunk(s, r, now, io).1)
  {
  }

  /** What one message does to an upload: `s` and `s'` are the stores around it. */
  ghost predicate Progress(u: Upload, s: Store, r: Request, s': Store, replies: seq<Reply>)
    requires Uploading(u, s)
  {
    if Carries(u, r) && MissingChunks(u, s) == {r.index} then
      && Done(u, s')
      && replies == [ChunkAck(u.id, r.index, true), FinishAck(u.id, true)]
    else
      && Uploading(u, s') && NoFinish(u, replies)
      && MissingChunks(u, s') == MissingChunks(u, s) - (if Carries(u, r) then {r.index} else {})
      && (Carries(u, r) ==> replies == [ChunkAck(u.id, r.index, r.index in MissingChunks(u, s))])
  }

  /** A chunk of this upload: one more in the bitmap, or the file complete and equal to the original. */
  lemma CarriedChunk(u: Upload, s: Store, r: Request, now: nat, io: Io)
    requires Uploading(u, s) && Carries(u, r) && io.readable
    ensures Progress(u, s, r, AcceptChunk(s, r, now, io).0, AcceptChunk(s, r, now, io).1)
  {
    hide AcceptChunk, Uploading, Done, MissingChunks;
    if MissingChunks(u, s) == {r.index} {
      LastChunk(u, s, r, now, io);
    } else {
      NotLastChunk(u, s, r, now, io);
    }
  }

  lemma ChunkStep(u: Upload, s: Store, r: Request, now: nat, io: Io)
    requires Uploading(u, s) && r.Chunk? && r.id == u.id && Friendly(u, r, io)
    ensures Progress(u, s, r, HandleChunk(s, r, now, io).0, HandleChunk(s, r, now, io).1)
  {
    if Carries(u, r) {
      HandledChunk(u, s, r, now, io);
      CarriedChunk(u, s, r, now, io);
    } else {
      RejectedChunk(u, s, r, now, io);
    }
  }

  lemma NotCarried(u: Upload, r: Request)
    requires !Concerns(u, r)
    ensures !Carries(u, r)
  {
  }

  lemma OtherStep(u: Upload, s: Store, r: Request, now: nat, io: Io)
    requires Uploading(u, s) && Handleable(s, r, io) && !Concerns(u, r)
    ensures Progress(u, s, r, Handle(s, r, now, io).0, Handle(s, r, now, io).1)
  {
    NotCarried(u, r);
    hide Uploading, Handle, Carries, Done, SameFor, Handleable;
    HandleKeepsInv(s, r, now, io);
    OthersLeaveAlone(u.id, s, r, now, io);
    SameForUploading(u, s, Handle(s, r, now, io).0);
  }

  /** A QUERY, or a START of the same file: the time stamp moves, nothing else. */
  lemma TouchStep(u: Upload, s: Store, r: Request, now: nat, io: Io)
    requires Uploading(u, s) && Handleable(s, r, io) && Friendly(u, r, io) && Concerns(u, r) && !r.Chunk?
    ensures Progress(u, s, r, Handle(s, r, now, io).0, Handle(s, r, now, io).1)
  {
    TouchUploading(u, s, now);
    OnlyTouched(u, s, r, now, io);
    hide Uploading, Handle, Done, Handleable, Touch, Friendly;
  }

  lemma OnlyTouched(u: Upload, s: Store, r: Request, now: nat, io: Io)
    requires Uploading(u, s) && Handleable(s, r, io) && Friendly(u, r, io) && Concerns(u, r) && !r.Chunk?
    ensures Handle(s, r, now, io).0 == Touch(s, u.id, now) && NoFinish(u, Handle(s, r, now, io).1)
  {
    hide Inv, Total, Crc;
  }

  /**
   * One friendly message. Either it is the last missing chunk, then it is answered by ACK and a
   * positive FINISH_ACK and the file is complete; or the upload goes on and no FINISH_ACK is sent.
   */
  lemma UploadStep(u: Upload, s: Store, r: Request, now: nat, io: Io)
    requires Uploading(u, s) && Handleable(s, r, io) && Friendly(u, r, io)
    ensures Progress(u, s, r, Handle(s, r, now, io).0, Handle(s, r, now, io).1)
  {
    hide Uploading, Friendly, Progress;
    if !Concerns(u, r) {
      OtherStep(u, s, r, now, io);
    } else if r.Chunk? {
      ChunkStep(u, s, r, now, io);
    } else {
      TouchStep(u, s, r, now, io);
    }
  }

  // ---------------------------------------------------------------- whole runs

  datatype Arrival = Arrival(request: Request, now: nat, io: Io)

  /** Every message can be handled in the state it meets, and is friendly to the upload. */
  ghost predicate FriendlyRun(u: Upload, s: Store, run: seq<Arrival>)
    requires u.chunkSize > 0
    decreases |run|
  {
    run != [] ==>
      && Handleable(s, run[0].request, run[0].io)
      && Friendly(u, run[0].request, run[0].io)
      && FriendlyRun(u, Handle(s, run[0].request, run[0].now, run[0].io).0, run[1..])
  }

  ghost function After(u: Upload, s: Store, run: seq<Arrival>): Store
    requires u.chunkSize > 0 && FriendlyRun(u, s, run)
    decreases |run|
  {
    if run == [] then s else After(u, Handle(s, run[0].request, run[0].now, run[0].io).0, run[1..])
  }

  ghost function RepliesOf(u: Upload, s: Store, run: seq<Arrival>): seq<Reply>
    requires u.chunkSize > 0 && FriendlyRun(u, s, run)
    decreases |run|
  {
    if run == [] then []
    else
      var (s', replies) := Handle(s, run[0].request, run[0].now, run[0].io);
      replies + RepliesOf(u, s', run[1..])
  }

  /** The chunks of this upload that a run carries. */
  ghost function Covered(u: Upload, run: seq<Arrival>): set<nat> {
    set k | 0 <= k < |run| && Carries(u, run[k].request) :: run[k].request.index
  }

  lemma CoveredHead(u: Upload, run: seq<Arrival>)
    requires run != []
    ensures Covered(u, run)
         == (if Carries(u, run[0].request) then {run[0].request.index} else {}) + Covered(u, run[1..])
  {
    forall k | 1 <= k < |run|
      ensures run[k] == run[1..][k - 1]
    {
    }
    forall i | i in Covered(u, run)
      ensures i in (if Carries(u, run[0].request) then {run[0].request.index} else {}) + Covered(u, run[1..])
    {
      var k :| 0 <= k < |run| && Carries(u, run[k].request) && run[k].request.index == i;
      if k > 0 {
        assert Carries(u, run[1..][k - 1].request);
      }
    }
    forall i | i in Covered(u, run[1..])
      ensures i in Covered(u, run)
    {
      var k :| 0 <= k < |run[1..]| && Carries(u, run[1..][k].request) && run[1..][k].request.index == i;
      assert Carries(u, run[k + 1].request);
    }
  }

  lemma StepGoesOn(missing: set<nat>, first: set<nat>, others: set<nat>)
    requires !(missing <= first + others)
    ensures !(missing - first <= others) && missing - first - others == missing - (first + others)
    ensures missing != first
  {
  }

  lemma NoFinishBoth(u: Upload, a: seq<Reply>, b: seq<Reply>)
    requires NoFinish(u, a) && NoFinish(u, b)
    ensures NoFinish(u, a + b)
  {
  }

  lemma NothingCovered(u: Upload, s: Store)
    requires Uploading(u, s)
    ensures Covered(u, []) == {} && MissingChunks(u, s) - {} == MissingChunks(u, s) && NoFinish(u, [])
  {
  }

  /** As long as the run does not carry every missing chunk, the upload goes on. */
  lemma {:induction false} UploadGoesOn(u: Upload, s: Store, run: seq<Arrival>)
    requires Uploading(u, s) && FriendlyRun(u, s, run)
    requires !(MissingChunks(u, s) <= Covered(u, run))
    ensures Uploading(u, After(u, s, run)) && NoFinish(u, RepliesOf(u, s, run))
    ensures MissingChunks(u, After(u, s, run)) == MissingChunks(u, s) - Covered(u, run)
    decreases |run|
  {
    if run != [] {
      var a := run[0];
      var s' := Handle(s, a.request, a.now, a.io).0;
      CoveredHead(u, run);
      hide Uploading, Friendly, Carries, Handle, Done, MissingChunks, Handleable, Covered, NoFinish;
      UploadStep(u, s, a.request, a.now, a.io);
      StepGoesOn(MissingChunks(u, s), if Carries(u, a.request) then {a.request.index} else {}, Covered(u, run[1..]));
      UploadGoesOn(u, s', run[1..]);
      NoFinishBoth(u, Handle(s, a.request, a.now, a.io).1, RepliesOf(u, s', run[1..]));
    } else {
      NothingCovered(u, s);
    }
  }

  /**
   * Upload correctness: the message that brings the last missing chunk, and no earlier one, is
   * answered by a positive FINISH_ACK, and then the finished file is the file that was sent.
   */
  lemma UploadFinishes(u: Upload, s: Store, run: seq<Arrival>, last: Arrival)
    requires Uploading(u, s) && FriendlyRun(u, s, run)
    requires Handleable(After(u, s, run), last.request, last.io) && Friendly(u, last.request, last.io)
    requires !(MissingChunks(u, s) <= Covered(u, run))
    requires Carries(u, last.request) && MissingChunks(u, s) <= Covered(u, run) + {last.request.index}
    ensures NoFinish(u, RepliesOf(u, s, run))
    ensures
      var (s', replies) := Handle(After(u, s, run), last.request, last.now, last.io);
      && replies == [ChunkAck(u.id, last.request.index, true), FinishAck(u.id, true)]
      && Done(u, s')
  {
    UploadGoesOn(u, s, run);
    var m, i := After(u, s, run), last.request.index;
    hide Friendly, Handle, Carries, Covered, Uploading, MissingChunks, Handleable, After, FriendlyRun;
    UploadStep(u, m, last.request, last.now, last.io);
    assert MissingChunks(u, m) == {i};
  }

  /** The store a successful START for a new session leaves. */
  lemma StartedStore(u: Upload, s: Store, now: nat, io: Io)
    requires Legal(u) && Handleable(s, StartRequest(u), io) && io.fd.Some? && io.truncates
    requires u.id in s.sessions ==> !Resumes(s.sessions[u.id], StartRequest(u))
    ensures
      var (s', replies) := Handle(s, StartRequest(u), now, io);
      && u.id in s'.sessions && s'.sessions[u.id] == NewSession(StartRequest(u), io.fd.value, now)
      && Temp(u.id) in s'.disk && s'.disk[Temp(u.id)] == ZeroBytes(|u.file|)
      && replies == [QueryResponse(u.id, Total(u), Empty(Total(u)))]
  {
    hide Inv, Clean, Total, Crc;
  }

  /** The display name plays no part in what is uploaded. */
  lemma Renamed(u: Upload, name: seq<byte>)
    requires Legal(u) && |name| <= MAX_NAME
    ensures Legal(u.(name := name)) && Total(u.(name := name)) == Total(u) > 0
  {
    TotalBounds(u);
  }

  lemma NothingMarked(total: nat)
    ensures total <= 8 * |Empty(total)|
    ensures forall i: nat :: i < total ==> !Get(Empty(total), i)
    ensures forall i: nat :: i in Missing(Empty(total), total) <==> i < total
  {
    hide Get;
    forall i: nat | i < total
      ensures !Get(Empty(total), i)
    {
      EmptyGet(total, i);
    }
  }

  lemma NewSessionUploading(u: Upload, s: Store, fd: nat, now: nat)
    requires Legal(u) && Inv(s) && u.id in s.sessions && s.sessions[u.id] == NewSession(StartRequest(u), fd, now)
    requires Temp(u.id) in s.disk && s.disk[Temp(u.id)] == ZeroBytes(|u.file|)
    ensures Uploading(u.(name := Clean(u.name)), s)
    ensures forall i: nat :: i in MissingChunks(u.(name := Clean(u.name)), s) <==> i < Total(u)
  {
    CleanIsSafe(u.name);
    Renamed(u, Clean(u.name));
    NothingMarked(Total(u));
    assert Sound(s, u.id);
    hide Clean, Crc, Total, Inv, Sound, Get, Missing, Empty, HasChunk, Legal;
  }

  /** A START that finds no session to resume opens the upload, under its cleaned name, with every chunk missing. */
  lemma StartOpensUpload(u: Upload, s: Store, now: nat, io: Io)
    requires Legal(u) && Handleable(s, StartRequest(u), io) && io.fd.Some? && io.truncates
    requires u.id in s.sessions ==> !Resumes(s.sessions[u.id], StartRequest(u))
    ensures
      var (s', replies) := Handle(s, StartRequest(u), now, io);
      && Uploading(u.(name := Clean(u.name)), s')
      && (forall i: nat :: i in MissingChunks(u.(name := Clean(u.name)), s') <==> i < Total(u))
      && replies == [QueryResponse(u.id, Total(u), Empty(Total(u)))]
      && s'.sessions[u.id].bitmap == Empty(Total(u))
  {
    hide Handle, Handleable, Legal, Uploading, Inv, Clean, Total;
    PositiveChunk(u);
    HandleKeepsInv(s, StartRequest(u), now, io);
    StartedStore(u, s, now, io);
    NewSessionUploading(u, Handle(s, StartRequest(u), now, io).0, io.fd.value, now);
  }

  lemma PositiveChunk(u: Upload)
    requires Legal(u)
    ensures u.chunkSize > 0
  {
  }
}
