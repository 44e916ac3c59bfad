/**
 * The server's upload sessions: what every message and every cleanup does to the session
 * table, the open descriptors and the files, and what stays true of them in every run.
 */
module FileTransfer {
  import opened Bytes
  import opened Crc32
  import opened Bitmap
  import opened FileNames
  import opened FileProtocol

  const OFFSET_LIMIT: nat := 0x8000_0000_0000_0000

  /**
   * A temporary file is named after its file id, a finished one after id and cleaned display name: by
   * `FileNames.TempName` and `FileNames.FinalName`, which keep different paths apart.
   */
  datatype Path = Temp(id: nat) | Final(id: nat, name: seq<byte>)

  datatype Session = Session(
    id: nat, size: nat, chunkSize: nat, total: nat, crc: nat,
    bitmap: seq<byte>, received: nat, fd: nat, name: seq<byte>, lastUpdate: nat)

  /** The session table, the open descriptors with the file behind each, and the file contents. */
  datatype Store = Store(sessions: map<nat, Session>, open: map<nat, Path>, disk: map<Path, seq<byte>>)

  /**
   * What the operating system answers while one message is handled: the descriptor `open` returns,
   * whether `ftruncate` works, how much `pwrite` writes (negative: an error), whether `read` works.
   */
  datatype Io = Io(fd: Option<nat>, truncates: bool, written: int, readable: bool)

  // ---------------------------------------------------------------- files

  function ZeroBytes(n: nat): (z: seq<byte>)
    ensures |z| == n
  {
    seq(n, _ => 0)
  }

  /** A positioned write; a gap before it is filled with zeros. */
  function WriteAt(c: seq<byte>, at: nat, data: seq<byte>): (r: seq<byte>)
    ensures |r| == if |c| < at + |data| then at + |data| else |c|
    ensures forall j :: 0 <= j < |data| ==> r[at + j] == data[j]
    ensures forall j :: 0 <= j < |c| && (j < at || j >= at + |data|) ==> r[j] == c[j]
  {
    var w := if |c| < at + |data| then c + ZeroBytes(at + |data| - |c|) else c;
    w[..at] + data + w[at + |data|..]
  }

  function Close(s: Store, fd: nat): Store
    requires fd in s.open
  {
    s.(open := s.open - {fd})
  }

  function CreateTruncated(s: Store, p: Path, fd: nat): Store
    requires fd !in s.open
  {
    s.(open := s.open[fd := p], disk := s.disk[p := []])
  }

  function Unlink(s: Store, p: Path): Store {
    s.(disk := s.disk - {p})
  }

  function Rename(s: Store, p: Path, q: Path): Store
    requires p in s.disk
  {
    s.(disk := (s.disk - {p})[q := s.disk[p]])
  }

  function Forget(s: Store, id: nat): Store {
    s.(sessions := s.sessions - {id})
  }

  // ---------------------------------------------------------------- the invariant

  /** A session whose descriptor is open and whose temporary file exists. */
  ghost predicate Ready(s: Store, id: nat) {
    && id in s.sessions
    && s.sessions[id].fd in s.open
    && Temp(id) in s.disk
  }

  /** One live session: its own descriptor, open on its own temporary file. */
  ghost predicate Sound(s: Store, id: nat)
    requires id in s.sessions
  {
    var st := s.sessions[id];
    && st.id == id
    && 0 < st.total < U32
    && 0 < st.chunkSize < U32
    && WellFormed(st.bitmap, st.total, st.received)
    && Ready(s, id) && s.open[st.fd] == Temp(id)
  }

  /** Every descriptor belongs to a live session, and every live session is sound. */
  ghost predicate Inv(s: Store) {
    && (forall id :: id in s.sessions ==> Sound(s, id))
    && (forall fd :: fd in s.open ==>
          s.open[fd].Temp? && s.open[fd].id in s.sessions && s.sessions[s.open[fd].id].fd == fd)
  }

  /** No live session has all its chunks. */
  ghost predicate Unfinished(s: Store) {
    forall id :: id in s.sessions ==> s.sessions[id].received < s.sessions[id].total
  }

  /** Open descriptors are exactly those of the live sessions. */
  lemma DescriptorsOfSessions(s: Store)
    requires Inv(s)
    ensures s.open.Keys == set id | id in s.sessions :: s.sessions[id].fd
    ensures forall i, j :: i in s.sessions && j in s.sessions && s.sessions[i].fd == s.sessions[j].fd ==> i == j
  {
    forall fd
      ensures fd in s.open <==> fd in (set id | id in s.sessions :: s.sessions[id].fd)
    {
      if fd in s.open {
        assert s.sessions[s.open[fd].id].fd == fd;
      }
      if id :| id in s.sessions && s.sessions[id].fd == fd {
        assert Sound(s, id);
      }
    }
    forall i, j | i in s.sessions && j in s.sessions && s.sessions[i].fd == s.sessions[j].fd
      ensures i == j
    {
      assert Sound(s, i) && Sound(s, j);
    }
  }

  // ---------------------------------------------------------------- handling a message

  /** Closes the descriptor of a session and drops it; its temporary file stays behind. */
  function Release(s: Store, id: nat): Store
    requires id in s.sessions && s.sessions[id].fd in s.open
  {
    Forget(Close(s, s.sessions[id].fd), id)
  }

  /** Closes, unlinks and drops: what both cleanup loops do to a session. */
  function Discard(s: Store, id: nat): Store
    requires id in s.sessions && s.sessions[id].fd in s.open
  {
    Unlink(Release(s, id), Temp(id))
  }

  predicate Resumes(st: Session, r: Request)
    requires r.Start?
  {
    st.size == r.size && st.chunkSize == r.chunkSize && st.total == r.total && st.crc == r.crc
  }

  ghost predicate Handleable(s: Store, r: Request, io: Io) {
    && Inv(s)
    && (r.Start? ==>
          && 0 < r.total < U32 && 0 < r.chunkSize < U32
          && (io.fd.Some? ==> io.fd.value !in Superseded(s, r).open))
  }

  /** The store once a session with other parameters under the same id has been dropped. */
  function Superseded(s: Store, r: Request): Store
    requires r.Start? && Inv(s)
  {
    if r.id in s.sessions && !Resumes(s.sessions[r.id], r) then
      assert Sound(s, r.id);
      Release(s, r.id)
    else s
  }

  function NewSession(r: Request, fd: nat, now: nat): Session
    requires r.Start?
  {
    Session(r.id, r.size, r.chunkSize, r.total, r.crc, Empty(r.total), 0, fd, Clean(r.name), now)
  }

  function Touch(s: Store, id: nat, now: nat): Store
    requires id in s.sessions
  {
    s.(sessions := s.sessions[id := s.sessions[id].(lastUpdate := now)])
  }

  /** A new session with its file created and sized. */
  function Opened(s: Store, r: Request, fd: nat, now: nat): Store
    requires r.Start? && fd !in s.open
  {
    var s' := CreateTruncated(s, Temp(r.id), fd);
    s'.(disk := s'.disk[Temp(r.id) := ZeroBytes(r.size)], sessions := s'.sessions[r.id := NewSession(r, fd, now)])
  }

  /** START for an id that has no session. */
  function StartFresh(s: Store, r: Request, now: nat, io: Io): (Store, seq<Reply>)
    requires r.Start? && (io.fd.Some? ==> io.fd.value !in s.open)
  {
    if io.fd.None? then (s, [Failure(InternalError, "open temp file failed")])
    else if !io.truncates || r.size >= OFFSET_LIMIT then
      (Close(CreateTruncated(s, Temp(r.id), io.fd.value), io.fd.value), [Failure(InternalError, "ftruncate failed")])
    else (Opened(s, r, io.fd.value, now), [QueryResponse(r.id, r.total, Empty(r.total))])
  }

  function HandleStart(s: Store, r: Request, now: nat, io: Io): (Store, seq<Reply>)
    requires r.Start? && Handleable(s, r, io)
  {
    if r.id in s.sessions && Resumes(s.sessions[r.id], r) then
      (Touch(s, r.id, now), [QueryResponse(r.id, r.total, s.sessions[r.id].bitmap)])
    else StartFresh(Superseded(s, r), r, now, io)
  }

  function HandleQuery(s: Store, id: nat, now: nat): (Store, seq<Reply>) {
    if id !in s.sessions then (s, [Failure(StateNotFound, "file state not found")])
    else
      var st := s.sessions[id];
      (Touch(s, id, now), [QueryResponse(id, st.total, st.bitmap)])
  }

  /** How many bytes of a chunk reach the file; negative when the call fails, as it does past the largest offset. */
  function BytesWritten(at: nat, length: nat, io: Io): int {
    if at + length > OFFSET_LIMIT then -1 else if io.written > length then length else io.written
  }

  /** Why a chunk is turned away before anything is written. */
  function Objection(st: Session, r: Request): Option<seq<Reply>>
    requires r.Chunk?
  {
    if r.index >= st.total then Some([Failure(ChunkOutOfRange, "chunk_index out of range")])
    else if |r.data| == 0 then Some([Failure(InvalidArgument, "empty chunk")])
    else if r.index + 1 != st.total && |r.data| != st.chunkSize then Some([Failure(ProtocolViolation, "chunk size mismatch")])
    else if Crc(r.data) != r.crc then
      Some([Failure(ChunkCrcMismatch, "chunk crc32 mismatch"), ChunkAck(r.id, r.index, false)])
    else None
  }

  function Mark(st: Session, i: nat, now: nat): (r: Session)
    requires WellFormed(st.bitmap, st.total, st.received) && i < st.total
    ensures WellFormed(r.bitmap, r.total, r.received) && r.received <= r.total
    ensures r.id == st.id && r.fd == st.fd && r.total == st.total && r.chunkSize == st.chunkSize
  {
    if Get(st.bitmap, i) then st
    else
      SetWellFormed(st.bitmap, st.total, st.received, i);
      st.(bitmap := Set(st.bitmap, i), received := st.received + 1, lastUpdate := now)
  }

  /** The last step of an upload: check the whole file, then keep it or throw it away. */
  function Complete(s: Store, id: nat, io: Io): (Store, seq<Reply>)
    requires Ready(s, id)
  {
    var st := s.sessions[id];
    if !io.readable then (s, [Failure(InternalError, "read failed for crc32")])
    else if Crc(s.disk[Temp(id)]) == st.crc then
      (Forget(Rename(Close(s, st.fd), Temp(id), Final(id, st.name)), id), [FinishAck(id, true)])
    else
      (Forget(Unlink(Close(s, st.fd), Temp(id)), id), [FinishAck(id, false)])
  }

  function Offset(st: Session, i: nat): nat {
    i * st.chunkSize
  }

  /** The store once a chunk has been written and marked. */
  function Accepted(s: Store, id: nat, i: nat, data: seq<byte>, now: nat): Store
    requires Ready(s, id) && WellFormed(s.sessions[id].bitmap, s.sessions[id].total, s.sessions[id].received)
    requires i < s.sessions[id].total
  {
    var st := s.sessions[id];
    s.(disk := s.disk[Temp(id) := WriteAt(s.disk[Temp(id)], Offset(st, i), data)],
       sessions := s.sessions[id := Mark(st, i, now)])
  }

  /** An unobjectionable chunk that reached the file whole: marked, acknowledged, and the upload completed if it was the last. */
  function AcceptChunk(s: Store, r: Request, now: nat, io: Io): (Store, seq<Reply>)
    requires r.Chunk? && r.id in s.sessions && Sound(s, r.id) && r.index < s.sessions[r.id].total
  {
    var s1 := Accepted(s, r.id, r.index, r.data, now);
    var st := s1.sessions[r.id];
    var ack := ChunkAck(r.id, r.index, !Get(s.sessions[r.id].bitmap, r.index));
    if st.received == st.total then
      var (s2, replies) := Complete(s1, r.id, io);
      (s2, [ack] + replies)
    else (s1, [ack])
  }

  function HandleChunk(s: Store, r: Request, now: nat, io: Io): (Store, seq<Reply>)
    requires r.Chunk? && Inv(s)
  {
    if r.id !in s.sessions then (s, [Failure(StateNotFound, "file state not found")])
    else
      var st := s.sessions[r.id];
      var objection := Objection(st, r);
      if objection.Some? then (s, objection.value)
      else
        assert Sound(s, r.id);
        var at := Offset(st, r.index);
        var n := BytesWritten(at, |r.data|, io);
        if n < |r.data| then
          (if n <= 0 then s else s.(disk := s.disk[Temp(r.id) := WriteAt(s.disk[Temp(r.id)], at, r.data[..n])]),
           [Failure(InternalError, "pwrite failed")])
        else
          AcceptChunk(s, r, now, io)
  }

  function Handle(s: Store, r: Request, now: nat, io: Io): (Store, seq<Reply>)
    requires Handleable(s, r, io)
  {
    match r
    case Start(_, _, _, _, _, _) => HandleStart(s, r, now, io)
    case Query(id) => HandleQuery(s, id, now)
    case Chunk(_, _, _, _) => HandleChunk(s, r, now, io)
    case Malformed(code, detail) => (s, [Failure(code, detail)])
  }

  // ---------------------------------------------------------------- every message keeps the invariant

  lemma ReleaseKeepsInv(s: Store, id: nat)
    requires Inv(s) && id in s.sessions && Sound(s, id)
    ensures Inv(Release(s, id)) && (Unfinished(s) ==> Unfinished(Release(s, id)))
  {
    var s' := Release(s, id);
    forall i | i in s'.sessions
      ensures Sound(s', i)
    {
      assert Sound(s, i);
    }
  }

  lemma DiscardKeepsInv(s: Store, id: nat)
    requires Inv(s) && id in s.sessions && Sound(s, id)
    ensures Inv(Discard(s, id)) && (Unfinished(s) ==> Unfinished(Discard(s, id)))
  {
    var s' := Discard(s, id);
    forall i | i in s'.sessions
      ensures Sound(s', i)
    {
      assert Sound(s, i);
    }
  }

  /** A session whose bookkeeping changes but which keeps its descriptor. */
  lemma UpdateKeepsInv(s: Store, id: nat, st: Session, disk: map<Path, seq<byte>>)
    requires Inv(s) && id in s.sessions && st.id == id && st.fd == s.sessions[id].fd
    requires 0 < st.total < U32 && 0 < st.chunkSize < U32 && WellFormed(st.bitmap, st.total, st.received)
    requires forall i :: Temp(i) in s.disk ==> Temp(i) in disk
    ensures Inv(s.(sessions := s.sessions[id := st], disk := disk))
  {
    var s' := s.(sessions := s.sessions[id := st], disk := disk);
    assert Sound(s, id);
    forall i | i in s'.sessions
      ensures Sound(s', i)
    {
      assert i in s.sessions && Sound(s, i);
    }
  }

  lemma TouchKeepsInv(s: Store, id: nat, now: nat)
    requires Inv(s) && id in s.sessions
    ensures Inv(Touch(s, id, now)) && (Unfinished(s) ==> Unfinished(Touch(s, id, now)))
  {
    assert Sound(s, id);
    UpdateKeepsInv(s, id, s.sessions[id].(lastUpdate := now), s.disk);
    assert Touch(s, id, now) == s.(sessions := s.sessions[id := s.sessions[id].(lastUpdate := now)], disk := s.disk);
  }

  lemma DiskOnlyKeepsInv(s: Store, disk: map<Path, seq<byte>>)
    requires Inv(s) && forall i :: Temp(i) in s.disk ==> Temp(i) in disk
    ensures Inv(s.(disk := disk))
  {
    forall i | i in s.sessions
      ensures Sound(s.(disk := disk), i)
    {
      assert Sound(s, i);
    }
  }

  lemma InsertKeepsInv(s: Store, r: Request, fd: nat, now: nat)
    requires r.Start? && Inv(s) && r.id !in s.sessions && fd !in s.open
    requires 0 < r.total < U32 && 0 < r.chunkSize < U32
    ensures Inv(Opened(s, r, fd, now))
    ensures Unfinished(s) ==> Unfinished(Opened(s, r, fd, now))
  {
    var s' := Opened(s, r, fd, now);
    EmptyWellFormed(r.total);
    forall i | i in s'.sessions
      ensures Sound(s', i)
    {
      assert i != r.id ==> Sound(s, i);
    }
  }

  lemma OpenedAndClosed(s: Store, p: Path, fd: nat)
    requires fd !in s.open
    ensures Close(CreateTruncated(s, p, fd), fd) == s.(disk := s.disk[p := []])
  {
    assert s.open[fd := p] - {fd} == s.open;
  }

  lemma StartFreshKeepsInv(s: Store, r: Request, now: nat, io: Io)
    requires r.Start? && Inv(s) && r.id !in s.sessions && (io.fd.Some? ==> io.fd.value !in s.open)
    requires 0 < r.total < U32 && 0 < r.chunkSize < U32
    ensures Inv(StartFresh(s, r, now, io).0)
    ensures Unfinished(s) ==> Unfinished(StartFresh(s, r, now, io).0)
  {
    if io.fd.Some? {
      InsertKeepsInv(s, r, io.fd.value, now);
      DiskOnlyKeepsInv(s, s.disk[Temp(r.id) := []]);
      OpenedAndClosed(s, Temp(r.id), io.fd.value);
      hide Inv, Opened, CreateTruncated, Close;
    }
  }

  lemma StartKeepsInv(s: Store, r: Request, now: nat, io: Io)
    requires r.Start? && Handleable(s, r, io)
    ensures Inv(HandleStart(s, r, now, io).0)
    ensures Unfinished(s) ==> Unfinished(HandleStart(s, r, now, io).0)
  {
    if r.id in s.sessions && Resumes(s.sessions[r.id], r) {
      TouchKeepsInv(s, r.id, now);
    } else {
      if r.id in s.sessions {
        assert Sound(s, r.id);
        ReleaseKeepsInv(s, r.id);
      }
      StartFreshKeepsInv(Superseded(s, r), r, now, io);
    }
  }

  lemma CompleteKeepsInv(s: Store, id: nat, io: Io)
    requires Inv(s) && id in s.sessions && Sound(s, id)
    ensures Inv(Complete(s, id, io).0)
    ensures io.readable ==> Complete(s, id, io).0.sessions == s.sessions - {id}
  {
    var s' := Complete(s, id, io).0;
    forall i | i in s'.sessions
      ensures Sound(s', i)
    {
      assert Sound(s, i);
    }
  }

  lemma AcceptedKeepsInv(s: Store, r: Request, now: nat)
    requires r.Chunk? && Inv(s) && r.id in s.sessions && Sound(s, r.id) && r.index < s.sessions[r.id].total
    ensures Inv(Accepted(s, r.id, r.index, r.data, now))
  {
    var s' := Accepted(s, r.id, r.index, r.data, now);
    UpdateKeepsInv(s, r.id, s'.sessions[r.id], s'.disk);
    assert s' == s.(sessions := s.sessions[r.id := s'.sessions[r.id]], disk := s'.disk);
  }

  lemma AcceptedChunkKeepsInv(s: Store, r: Request, now: nat, io: Io)
    requires r.Chunk? && Inv(s) && r.id in s.sessions && Sound(s, r.id) && r.index < s.sessions[r.id].total
    ensures Inv(AcceptChunk(s, r, now, io).0)
    ensures Unfinished(s) && io.readable ==> Unfinished(AcceptChunk(s, r, now, io).0)
  {
    AcceptedKeepsInv(s, r, now);
    var s1 := Accepted(s, r.id, r.index, r.data, now);
    if s1.sessions[r.id].received == s1.sessions[r.id].total {
      CompleteKeepsInv(s1, r.id, io);
    }
  }

  lemma ChunkKeepsInv(s: Store, r: Request, now: nat, io: Io)
    requires r.Chunk? && Inv(s)
    ensures Inv(HandleChunk(s, r, now, io).0)
    ensures Unfinished(s) && io.readable ==> Unfinished(HandleChunk(s, r, now, io).0)
  {
    if r.id in s.sessions && Objection(s.sessions[r.id], r).None? {
      assert Sound(s, r.id);
      var at := Offset(s.sessions[r.id], r.index);
      var n := BytesWritten(at, |r.data|, io);
      if n == |r.data| {
        AcceptedChunkKeepsInv(s, r, now, io);
      } else if n > 0 {
        DiskOnlyKeepsInv(s, s.disk[Temp(r.id) := WriteAt(s.disk[Temp(r.id)], at, r.data[..n])]);
      }
    }
  }

  /** Any message, malformed ones and I/O failures included. */
  lemma HandleKeepsInv(s: Store, r: Request, now: nat, io: Io)
    requires Handleable(s, r, io)
    ensures Inv(Handle(s, r, now, io).0)
    ensures Unfinished(s) && io.readable ==> Unfinished(Handle(s, r, now, io).0)
  {
    match r
    case Start(_, _, _, _, _, _) => StartKeepsInv(s, r, now, io);
    case Query(id) =>
      if id in s.sessions {
        TouchKeepsInv(s, id, now);
      }
    case Chunk(_, _, _, _) => ChunkKeepsInv(s, r, now, io);
    case Malformed(_, _) =>
  }
}
