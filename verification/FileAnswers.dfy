/**
 * The server's answers, exactly: which reply means what, over every store, message and outcome of the
 * I/O; and over whole runs, against the START that opened the session.
 */
module FileAnswers {
  import opened Bytes
  import opened Crc32
  import opened Bitmap
  import opened FileNames
  import opened FileProtocol
  import opened FileTransfer
  import opened FileManager
  import opened FileRuns

  /** The number of the error that comes first among the replies; zero if the first is no error. */
  function FirstCode(replies: seq<Reply>): nat {
    if replies != [] && replies[0].Failure? then CodeNumber(replies[0].code) else 0
  }

  // ---------------------------------------------------------------- START

  /** A session of the same file: size, chunk size, count and checksum agree. */
  predicate SameFile(s: Store, r: Request)
    requires r.Start?
  {
    r.id in s.sessions &&
    var st := s.sessions[r.id];
    st.size == r.size && st.chunkSize == r.chunkSize && st.total == r.total && st.crc == r.crc
  }

  /**
   * START: resumed if the session is one of the same file, else an old session of that id is gone
   * whatever happens, and there is a new one if and only if its file could be created and sized.
   */
  lemma StartAnswered(s: Store, r: Request, now: nat, io: Io)
    requires r.Start? && Handleable(s, r, io)
    ensures
      var (s', replies) := Handle(s, r, now, io);
      var opens := io.fd.Some? && io.truncates && r.size < 0x8000_0000_0000_0000;
      && (SameFile(s, r) ==>
            && replies == [QueryResponse(r.id, r.total, s.sessions[r.id].bitmap)]
            && s' == s.(sessions := s.sessions[r.id := s.sessions[r.id].(lastUpdate := now)]))
      && (!SameFile(s, r) && !opens ==>
            && |replies| == 1 && FirstCode(replies) == 0x1002 && s'.sessions == s.sessions - {r.id}
            && s'.disk == if io.fd.None? then s.disk else s.disk[Temp(r.id) := []])
      && (!SameFile(s, r) && opens ==>
            && s'.sessions.Keys == s.sessions.Keys + {r.id}
            && (forall id :: id in s.sessions && id != r.id ==> s'.sessions[id] == s.sessions[id])
            && var st := s'.sessions[r.id];
               && st.size == r.size && st.chunkSize == r.chunkSize && st.total == r.total && st.crc == r.crc
               && st.name == Clean(r.name) && st.lastUpdate == now && st.received == 0
               && |st.bitmap| == (r.total + 7) / 8 && (forall b :: b in st.bitmap ==> b == 0)
               && replies == [QueryResponse(r.id, r.total, st.bitmap)]
               && Temp(r.id) in s'.disk && |s'.disk[Temp(r.id)]| == r.size && (forall b :: b in s'.disk[Temp(r.id)] ==> b == 0)
               && (forall p :: p in s.disk && p != Temp(r.id) ==> p in s'.disk && s'.disk[p] == s.disk[p]))
  {
    hide Inv, Clean;
  }

  // ---------------------------------------------------------------- QUERY

  lemma QueryAnswered(s: Store, id: nat, now: nat, io: Io)
    requires Inv(s)
    ensures
      var (s', replies) := Handle(s, Query(id), now, io);
      && |replies| == 1 && (FirstCode(replies) == 0x3001 <==> id !in s.sessions)
      && (id !in s.sessions ==> s' == s)
      && (id in s.sessions ==>
            && replies == [QueryResponse(id, s.sessions[id].total, s.sessions[id].bitmap)]
            && s' == s.(sessions := s.sessions[id := s.sessions[id].(lastUpdate := now)]))
  {
    hide Inv;
  }

  lemma MalformedAnswered(s: Store, code: ErrorCode, detail: string, now: nat, io: Io)
    requires Inv(s)
    ensures Handle(s, Malformed(code, detail), now, io) == (s, [Failure(code, detail)])
  {
  }

  // ---------------------------------------------------------------- CHUNK

  /** The bytes that reached the file before the write stopped; a negative number is a failure. */
  function Arrived(st: Session, r: Request, io: Io): int
    requires r.Chunk?
  {
    if r.index * st.chunkSize + |r.data| > 0x8000_0000_0000_0000 then -1
    else if io.written > |r.data| then |r.data| else io.written
  }

  ghost predicate InRange(s: Store, r: Request)
    requires r.Chunk?
  {
    r.id in s.sessions && r.index < s.sessions[r.id].total
  }

  /** A chunk that is in range, not empty, and as long as its place calls for. */
  ghost predicate Sized(s: Store, r: Request)
    requires r.Chunk?
  {
    InRange(s, r) && r.data != [] && (r.index + 1 == s.sessions[r.id].total || |r.data| == s.sessions[r.id].chunkSize)
  }

  ghost predicate Intact(s: Store, r: Request)
    requires r.Chunk?
  {
    Sized(s, r) && Crc(r.data) == r.crc
  }

  /** A chunk that is taken: intact, and written whole. */
  ghost predicate Takes(s: Store, r: Request, io: Io)
    requires r.Chunk?
  {
    Intact(s, r) && Arrived(s.sessions[r.id], r, io) >= |r.data|
  }

  lemma SomethingWrong(s: Store, r: Request, now: nat, io: Io)
    requires r.Chunk? && Inv(s) && r.id in s.sessions && Objection(s.sessions[r.id], r).Some?
    ensures HandleChunk(s, r, now, io) == (s, Objection(s.sessions[r.id], r).value)
  {
    hide Inv, Crc;
  }

  lemma ObjectionExactly(s: Store, r: Request)
    requires r.Chunk? && r.id in s.sessions
    ensures Objection(s.sessions[r.id], r).None? <==> Intact(s, r)
    ensures Objection(s.sessions[r.id], r).Some? ==>
      var replies := Objection(s.sessions[r.id], r).value;
      var code := FirstCode(replies);
      && (code == 0x3003 <==> !InRange(s, r))
      && (code == 0x1001 <==> InRange(s, r) && r.data == [])
      && (code == 0x1004 <==> InRange(s, r) && r.data != [] && !Sized(s, r))
      && (code == 0x3002 <==> Sized(s, r))
      && code in {0x3003, 0x1001, 0x1004, 0x3002}
      && replies[1..] == if code == 0x3002 then [ChunkAck(r.id, r.index, false)] else []
  {
    hide Crc;
  }

  lemma AckComes(s: Store, r: Request, now: nat, io: Io)
    requires r.Chunk? && Inv(s) && r.id in s.sessions && Objection(s.sessions[r.id], r).None?
    requires BytesWritten(Offset(s.sessions[r.id], r.index), |r.data|, io) >= |r.data|
    ensures r.index < s.sessions[r.id].total && r.index / 8 < |s.sessions[r.id].bitmap|
    ensures
      var replies := HandleChunk(s, r, now, io).1;
      replies != [] && replies[0] == ChunkAck(r.id, r.index, !Get(s.sessions[r.id].bitmap, r.index))
  {
    assert Sound(s, r.id);
    hide Crc, Complete, Accepted, WriteAt;
  }

  lemma ShortWrite(s: Store, r: Request, now: nat, io: Io)
    requires r.Chunk? && Inv(s) && r.id in s.sessions && Objection(s.sessions[r.id], r).None?
    requires BytesWritten(Offset(s.sessions[r.id], r.index), |r.data|, io) < |r.data|
    ensures
      var (s', replies) := HandleChunk(s, r, now, io);
      var n := BytesWritten(Offset(s.sessions[r.id], r.index), |r.data|, io);
      && replies == [Failure(InternalError, "pwrite failed")] && s'.sessions == s.sessions && s'.open == s.open
      && Temp(r.id) in s.disk
      && s'.disk == if n <= 0 then s.disk else s.disk[Temp(r.id) := WriteAt(s.disk[Temp(r.id)], r.index * s.sessions[r.id].chunkSize, r.data[..n])]
  {
    assert Sound(s, r.id);
    hide Crc, AcceptChunk, WriteAt;
  }

  lemma ArrivedIsWritten(st: Session, r: Request, io: Io)
    requires r.Chunk?
    ensures Arrived(st, r, io) == BytesWritten(Offset(st, r.index), |r.data|, io)
  {
  }

  /**
   * A chunk message: which error it gets, if and only if what is wrong with it. A chunk that is turned away
   * changes nothing, one whose write stopped short changes the file only; every other one is acknowledged
   * first, as new or not.
   */
  lemma ChunkAnswered(s: Store, r: Request, now: nat, io: Io)
    requires r.Chunk? && Inv(s)
    ensures
      var (s', replies) := Handle(s, r, now, io);
      var code := FirstCode(replies);
      && (code == 0x3001 <==> r.id !in s.sessions)
      && (code == 0x3003 <==> r.id in s.sessions && !InRange(s, r))
      && (code == 0x1001 <==> InRange(s, r) && r.data == [])
      && (code == 0x1004 <==> InRange(s, r) && r.data != [] && !Sized(s, r))
      && (code == 0x3002 <==> Sized(s, r) && !Intact(s, r))
      && (code == 0x1002 <==> Intact(s, r) && !Takes(s, r, io))
      && (code == 0 <==> Takes(s, r, io))
      && (code != 0 ==> replies[1..] == if code == 0x3002 then [ChunkAck(r.id, r.index, false)] else [])
      && (code != 0 && code != 0x1002 ==> s' == s)
      && (code == 0x1002 ==>
            var n := Arrived(s.sessions[r.id], r, io);
            && s'.sessions == s.sessions && s'.open == s.open && Temp(r.id) in s.disk
            && s'.disk == if n <= 0 then s.disk
                          else s.disk[Temp(r.id) := WriteAt(s.disk[Temp(r.id)], r.index * s.sessions[r.id].chunkSize, r.data[..n])])
      && (code == 0 ==>
            && r.index / 8 < |s.sessions[r.id].bitmap|
            && replies != [] && replies[0] == ChunkAck(r.id, r.index, !Get(s.sessions[r.id].bitmap, r.index)))
  {
    if r.id in s.sessions {
      ObjectionExactly(s, r);
      ArrivedIsWritten(s.sessions[r.id], r, io);
      if Objection(s.sessions[r.id], r).Some? {
        SomethingWrong(s, r, now, io);
      } else if Arrived(s.sessions[r.id], r, io) < |r.data| {
        ShortWrite(s, r, now, io);
      } else {
        AckComes(s, r, now, io);
      }
      hide HandleChunk, Objection, BytesWritten, Arrived, Inv, Crc, WriteAt, Get;
    }
  }

  // ---------------------------------------------------------------- the end of an upload

  /** With this chunk every chunk of the session is marked. */
  ghost predicate Completes(s: Store, r: Request)
    requires r.Chunk? && InRange(s, r)
  {
    var st := s.sessions[r.id];
    forall j :: 0 <= j < st.total && j != r.index ==> j / 8 < |st.bitmap| && Get(st.bitmap, j)
  }

  /** The temporary file with this chunk in it. */
  function Assembled(s: Store, r: Request): seq<byte>
    requires r.Chunk? && r.id in s.sessions && Temp(r.id) in s.disk
  {
    WriteAt(s.disk[Temp(r.id)], r.index * s.sessions[r.id].chunkSize, r.data)
  }

  lemma MarkCompletes(st: Session, i: nat, now: nat)
    requires WellFormed(st.bitmap, st.total, st.received) && i < st.total
    ensures
      var st' := Mark(st, i, now);
      st'.received == st'.total <==> forall j :: 0 <= j < st.total && j != i ==> j / 8 < |st.bitmap| && Get(st.bitmap, j)
  {
    var st' := Mark(st, i, now);
    CountFull(st'.bitmap, st'.total);
    if !Get(st.bitmap, i) {
      forall j: nat | j < st.total
        ensures Get(st'.bitmap, j) <==> i == j || Get(st.bitmap, j)
      {
        SetGet(st.bitmap, i, j);
      }
    }
  }

  /** A chunk that was taken: the store behind it, the file checked or not. */
  lemma TakenStore(s: Store, r: Request, now: nat, io: Io)
    requires r.Chunk? && Inv(s) && Takes(s, r, io)
    ensures Temp(r.id) in s.disk && Sound(s, r.id)
    ensures Handle(s, r, now, io) == AcceptChunk(s, r, now, io)
    ensures Accepted(s, r.id, r.index, r.data, now)
         == s.(disk := s.disk[Temp(r.id) := Assembled(s, r)], sessions := s.sessions[r.id := Mark(s.sessions[r.id], r.index, now)])
  {
    assert Sound(s, r.id);
    ObjectionExactly(s, r);
    ArrivedIsWritten(s.sessions[r.id], r, io);
    hide AcceptChunk, Crc, WriteAt, Mark;
  }

  /** Not the last chunk: it is in the file, its bit is set, and nothing else has changed. */
  lemma ChunkTaken(s: Store, r: Request, now: nat, io: Io)
    requires r.Chunk? && Inv(s) && Takes(s, r, io) && !Completes(s, r)
    ensures Temp(r.id) in s.disk && Sound(s, r.id)
    ensures
      var (s', replies) := Handle(s, r, now, io);
      && |replies| == 1 && s'.open == s.open && s'.disk == s.disk[Temp(r.id) := Assembled(s, r)]
      && r.id in s'.sessions && s'.sessions == s.sessions[r.id := s'.sessions[r.id]]
      && var st, st' := s.sessions[r.id], s'.sessions[r.id];
         && st' == st.(bitmap := st'.bitmap, received := st'.received, lastUpdate := st'.lastUpdate)
         && |st'.bitmap| == |st.bitmap|
         && (forall j: nat :: j < st.total ==> (Get(st'.bitmap, j) <==> j == r.index || Get(st.bitmap, j)))
         && st'.lastUpdate == if Get(st.bitmap, r.index) then st.lastUpdate else now
  {
    TakenStore(s, r, now, io);
    var st := s.sessions[r.id];
    MarkCompletes(st, r.index, now);
    assert WellFormed(st.bitmap, st.total, st.received);
    hide Inv, Crc, Complete, WriteAt, WellFormed;
    if !Get(st.bitmap, r.index) {
      forall j: nat | j < st.total
        ensures Get(Set(st.bitmap, r.index), j) <==> r.index == j || Get(st.bitmap, j)
      {
        SetGet(st.bitmap, r.index, j);
      }
    }
  }

  lemma LastChunkTaken(s: Store, r: Request, now: nat, io: Io)
    requires r.Chunk? && Inv(s) && Takes(s, r, io) && Completes(s, r)
    ensures Temp(r.id) in s.disk && Sound(s, r.id)
    ensures
      var s1 := Accepted(s, r.id, r.index, r.data, now);
      && Ready(s1, r.id)
      && Handle(s, r, now, io).0 == Complete(s1, r.id, io).0
      && Handle(s, r, now, io).1 == [ChunkAck(r.id, r.index, !Get(s.sessions[r.id].bitmap, r.index))] + Complete(s1, r.id, io).1
  {
    TakenStore(s, r, now, io);
    MarkCompletes(s.sessions[r.id], r.index, now);
    hide Inv, Crc, Complete, WriteAt;
  }

  /** What the end of an upload leaves behind. */
  ghost predicate Ended(s: Store, r: Request, ok: bool, s': Store)
    requires r.Chunk? && r.id in s.sessions && Temp(r.id) in s.disk
  {
    var st := s.sessions[r.id];
    && s'.sessions == s.sessions - {r.id}
    && s'.open == s.open - {st.fd}
    && Temp(r.id) !in s'.disk
    && (forall p :: p in s'.disk <==> (p in s.disk && p != Temp(r.id)) || (ok && p == Final(r.id, st.name)))
    && (forall p :: p in s'.disk ==> s'.disk[p] == if ok && p == Final(r.id, st.name) then Assembled(s, r) else s.disk[p])
  }

  /** The last step on its own: the file is compared with the checksum of its session. */
  lemma CompleteMeans(s: Store, id: nat, io: Io)
    requires Ready(s, id)
    ensures
      var (s', replies) := Complete(s, id, io);
      var st, content := s.sessions[id], s.disk[Temp(id)];
      var ok := Crc(content) == st.crc;
      if !io.readable then s' == s && replies == [Failure(InternalError, "read failed for crc32")]
      else
        && replies == [FinishAck(id, ok)]
        && s'.sessions == s.sessions - {id} && s'.open == s.open - {st.fd}
        && s'.disk == if ok then (s.disk - {Temp(id)})[Final(id, st.name) := content] else s.disk - {Temp(id)}
  {
    hide Crc;
  }

  lemma EndedDisk(s: Store, r: Request, ok: bool, s': Store, before: map<Path, seq<byte>>)
    requires r.Chunk? && r.id in s.sessions && Temp(r.id) in s.disk
    requires before == s.disk[Temp(r.id) := Assembled(s, r)]
    requires s'.sessions == s.sessions - {r.id} && s'.open == s.open - {s.sessions[r.id].fd}
    requires s'.disk
          == if ok then (before - {Temp(r.id)})[Final(r.id, s.sessions[r.id].name) := Assembled(s, r)] else before - {Temp(r.id)}
    ensures Ended(s, r, ok, s')
  {
    hide Assembled;
  }

  lemma CompleteExactly(s: Store, r: Request, now: nat, io: Io)
    requires r.Chunk? && Inv(s) && Takes(s, r, io) && Completes(s, r) && Temp(r.id) in s.disk && Sound(s, r.id)
    ensures
      var s1 := Accepted(s, r.id, r.index, r.data, now);
      Ready(s1, r.id) &&
      var (s', replies) := Complete(s1, r.id, io);
      if !io.readable then s' == s1 && replies == [Failure(InternalError, "read failed for crc32")]
      else
        var ok := Crc(Assembled(s, r)) == s.sessions[r.id].crc;
        replies == [FinishAck(r.id, ok)] && Ended(s, r, ok, s')
  {
    LastChunkTaken(s, r, now, io);
    TakenStore(s, r, now, io);
    MarkKeeps(s.sessions[r.id], r.index, now);
    hide Inv, Crc, WriteAt, AcceptChunk, Takes, Completes, Accepted, WellFormed, Assembled, Complete, Ready, Ended, Mark, Handle, Sound;
    var s1 := Accepted(s, r.id, r.index, r.data, now);
    CompleteMeans(s1, r.id, io);
    if io.readable {
      assert s1.sessions - {r.id} == s.sessions - {r.id};
      EndedDisk(s, r, Crc(Assembled(s, r)) == s.sessions[r.id].crc, Complete(s1, r.id, io).0, s1.disk);
    }
  }

  lemma MarkKeeps(st: Session, i: nat, now: nat)
    requires WellFormed(st.bitmap, st.total, st.received) && i < st.total
    ensures Mark(st, i, now).fd == st.fd && Mark(st, i, now).crc == st.crc && Mark(st, i, now).name == st.name
    ensures Mark(st, i, now).size == st.size && Mark(st, i, now).chunkSize == st.chunkSize && Mark(st, i, now).total == st.total
  {
  }

  lemma OnlyAck(replies: seq<Reply>, ack: Reply)
    requires |replies| == 1 && replies[0] == ack
    ensures replies == [ack] + []
  {
  }

  /** What a chunk that was taken is answered with. */
  lemma TakenReplies(s: Store, r: Request, now: nat, io: Io)
    requires r.Chunk? && Inv(s) && Takes(s, r, io)
    ensures r.index / 8 < |s.sessions[r.id].bitmap| && Temp(r.id) in s.disk
    ensures Handle(s, r, now, io).1
         == [ChunkAck(r.id, r.index, !Get(s.sessions[r.id].bitmap, r.index))]
          + (if !Completes(s, r) then []
             else if !io.readable then [Failure(InternalError, "read failed for crc32")]
             else [FinishAck(r.id, Crc(Assembled(s, r)) == s.sessions[r.id].crc)])
  {
    ChunkAnswered(s, r, now, io);
    if Completes(s, r) {
      LastChunkTaken(s, r, now, io);
      hide *;
      CompleteExactly(s, r, now, io);
    } else {
      ChunkTaken(s, r, now, io);
      hide *;
      OnlyAck(Handle(s, r, now, io).1, ChunkAck(r.id, r.index, !Get(s.sessions[r.id].bitmap, r.index)));
    }
  }

  lemma ChunkNoFinish(s: Store, r: Request, now: nat, io: Io)
    requires r.Chunk? && Inv(s) && (!Takes(s, r, io) || !Completes(s, r) || !io.readable)
    ensures forall x :: x in Handle(s, r, now, io).1 ==> !x.FinishAck?
  {
    ChunkAnswered(s, r, now, io);
    hide *;
    if Takes(s, r, io) {
      TakenReplies(s, r, now, io);
    } else {
      Rejects(Handle(s, r, now, io).1, r);
    }
  }

  lemma NoFinish(s: Store, r: Request, now: nat, io: Io)
    requires Handleable(s, r, io) && (r.Chunk? ==> !Takes(s, r, io) || !Completes(s, r) || !io.readable)
    ensures forall x :: x in Handle(s, r, now, io).1 ==> !x.FinishAck?
  {
    if r.Chunk? {
      hide Handle, Inv, Takes, Completes;
      ChunkNoFinish(s, r, now, io);
    } else if r.Start? {
      StartAnswered(s, r, now, io);
      var replies := Handle(s, r, now, io).1;
      if |replies| == 1 && FirstCode(replies) != 0 {
        OnlyError(replies);
      }
      hide Handle, Inv, FirstCode;
    } else {
      hide Inv, HandleChunk, HandleStart;
    }
  }

  lemma OnlyError(replies: seq<Reply>)
    requires |replies| == 1 && FirstCode(replies) != 0
    ensures forall x :: x in replies ==> !x.FinishAck?
  {
  }

  lemma Rejects(replies: seq<Reply>, r: Request)
    requires r.Chunk? && FirstCode(replies) != 0
    requires replies[1..] == if FirstCode(replies) == 0x3002 then [ChunkAck(r.id, r.index, false)] else []
    ensures forall x :: x in replies ==> !x.FinishAck?
  {
    assert replies == [replies[0]] + replies[1..];
  }

  lemma FinishSent(s: Store, r: Request, now: nat, io: Io)
    requires r.Chunk? && Inv(s) && Takes(s, r, io) && Completes(s, r) && io.readable
    ensures Temp(r.id) in s.disk
    ensures
      var (s', replies) := Handle(s, r, now, io);
      var ok := Crc(Assembled(s, r)) == s.sessions[r.id].crc;
      && |replies| == 2 && replies[0].ChunkAck? && replies[1] == FinishAck(r.id, ok) && replies[1] in replies
      && (forall x :: x in replies && x.FinishAck? ==> x == replies[1])
      && Ended(s, r, ok, s')
  {
    LastChunkTaken(s, r, now, io);
    TakenReplies(s, r, now, io);
    hide *;
    TwoReplies(Handle(s, r, now, io).1, ChunkAck(r.id, r.index, !Get(s.sessions[r.id].bitmap, r.index)),
               FinishAck(r.id, Crc(Assembled(s, r)) == s.sessions[r.id].crc));
    CompleteExactly(s, r, now, io);
  }

  lemma TwoReplies(replies: seq<Reply>, ack: Reply, last: Reply)
    requires replies == [ack] + [last] && ack.ChunkAck?
    ensures |replies| == 2 && replies[0] == ack && replies[1] == last && replies[1] in replies
    ensures forall x :: x in replies && x.FinishAck? ==> x == last
  {
  }

  /**
   * FINISH_ACK, over every message: it is sent if and only if a chunk was taken that completes its session and
   * the whole file could be read. It says yes if and only if the file has the checksum announced. With yes
   * the finished file has exactly the assembled content; with no, no finished file is created or
   * changed. Either way the session, its descriptor and its temporary file are gone, and nothing else is.
   */
  lemma FinishExactly(s: Store, r: Request, now: nat, io: Io)
    requires Handleable(s, r, io)
    ensures
      var (s', replies) := Handle(s, r, now, io);
      && ((exists x :: x in replies && x.FinishAck?) <==> r.Chunk? && Takes(s, r, io) && Completes(s, r) && io.readable)
      && (forall x :: x in replies && x.FinishAck? ==>
            && r.Chunk? && r.id in s.sessions && Temp(r.id) in s.disk && x.id == r.id
            && (x.ok <==> Crc(Assembled(s, r)) == s.sessions[r.id].crc)
            && Ended(s, r, x.ok, s'))
  {
    if r.Chunk? && Takes(s, r, io) && Completes(s, r) && io.readable {
      FinishSent(s, r, now, io);
    } else {
      NoFinish(s, r, now, io);
    }
  }

  /** If the whole file cannot be read, the chunk is kept and the upload stays where it is. */
  lemma UnreadableFile(s: Store, r: Request, now: nat, io: Io)
    requires r.Chunk? && Inv(s) && Takes(s, r, io) && Completes(s, r) && !io.readable
    ensures
      var (s', replies) := Handle(s, r, now, io);
      && |replies| == 2 && replies[1] == Failure(InternalError, "read failed for crc32") && s'.open == s.open
      && r.id in s'.sessions && s'.sessions[r.id].received == s'.sessions[r.id].total
      && Temp(r.id) in s.disk && s'.disk == s.disk[Temp(r.id) := Assembled(s, r)]
  {
    LastChunkTaken(s, r, now, io);
    CompleteExactly(s, r, now, io);
    TakenStore(s, r, now, io);
    MarkCompletes(s.sessions[r.id], r.index, now);
    assert WellFormed(s.sessions[r.id].bitmap, s.sessions[r.id].total, s.sessions[r.id].received);
    hide Handle, Inv, Complete, Assembled, Crc, Get, Ready, WellFormed, Takes;
  }

  /** A file damaged within four consecutive bytes is never taken for the one announced. */
  lemma DamageRefused(s: Store, r: Request, now: nat, io: Io, file: seq<byte>, i: nat)
    requires Handleable(s, r, io) && r.Chunk? && r.id in s.sessions && Temp(r.id) in s.disk
    requires s.sessions[r.id].crc == Crc(file)
    requires |Assembled(s, r)| == |file| && Assembled(s, r) != file
    requires forall j :: 0 <= j < |file| && (j < i || j >= i + 4) ==> Assembled(s, r)[j] == file[j]
    ensures forall x :: x in Handle(s, r, now, io).1 && x.FinishAck? ==> !x.ok
  {
    FinishExactly(s, r, now, io);
    FourByteBurstDetected(Assembled(s, r), file, i);
    hide Handle, Inv, Assembled, Crc, Ended, Takes, Completes;
  }

  // ---------------------------------------------------------------- over whole runs

  /** What a session keeps from its START to its end. */
  predicate SameUpload(a: Session, b: Session) {
    a.size == b.size && a.chunkSize == b.chunkSize && a.total == b.total && a.crc == b.crc && a.name == b.name
  }

  /** The session is the one this START asks for. */
  predicate AskedFor(e: Event, id: nat, st: Session) {
    e.Message? && e.payload != [] &&
    var r := Parse(e.payload);
    && r.Start? && r.id == id && st.size == r.size && st.chunkSize == r.chunkSize && st.total == r.total && st.crc == r.crc
    && st.name == Clean(r.name)
  }

  lemma ChunkKeepsUpload(s: Store, r: Request, now: nat, io: Io, id: nat)
    requires r.Chunk? && Inv(s) && id in HandleChunk(s, r, now, io).0.sessions
    ensures id in s.sessions && SameUpload(HandleChunk(s, r, now, io).0.sessions[id], s.sessions[id])
  {
    ChunkAnswered(s, r, now, io);
    if Takes(s, r, io) {
      if Completes(s, r) {
        LastKeepsUpload(s, r, now, io, id);
      } else {
        ChunkTaken(s, r, now, io);
        hide Complete, HandleChunk, Inv, Assembled, Crc, Ready, WellFormed, Takes, Completes, Mark, Get;
      }
    }
  }

  lemma LastKeepsUpload(s: Store, r: Request, now: nat, io: Io, id: nat)
    requires r.Chunk? && Inv(s) && Takes(s, r, io) && Completes(s, r) && id in Handle(s, r, now, io).0.sessions
    ensures id in s.sessions && SameUpload(Handle(s, r, now, io).0.sessions[id], s.sessions[id])
  {
    TakenStore(s, r, now, io);
    assert WellFormed(s.sessions[r.id].bitmap, s.sessions[r.id].total, s.sessions[r.id].received);
    MarkKeeps(s.sessions[r.id], r.index, now);
    LastChunkTaken(s, r, now, io);
    CompleteExactly(s, r, now, io);
    hide Handle, Complete, Inv, Assembled, Crc, Ready, WellFormed, Takes, Completes, Mark, Get;
  }

  lemma StepKeepsUpload(s: Store, e: Event, s': Store, id: nat)
    requires Inv(s) && Next(s, e, s') && id in s'.sessions
    ensures (id in s.sessions && SameUpload(s'.sessions[id], s.sessions[id])) || AskedFor(e, id, s'.sessions[id])
  {
    if e.Message? && e.payload != [] {
      var r := Parse(e.payload);
      if r.Start? {
        ParsedStart(e.payload);
        StartAnswered(s, r, e.now, e.io);
        hide HandleStart, Clean, Parse;
      } else if r.Chunk? {
        ChunkKeepsUpload(s, r, e.now, e.io, id);
        hide HandleChunk, Parse;
      }
    }
  }

  /** Every live session is the one some earlier START asked for. */
  lemma {:induction false} SessionFromStart(states: seq<Store>, events: seq<Event>, n: nat, id: nat) returns (i: nat)
    requires Run(states, events) && n < |states| && id in states[n].sessions
    ensures i < n && AskedFor(events[i], id, states[n].sessions[id])
    decreases n
  {
    NoneAtFirst(states, events, id);
    hide *;
    OneStepKeeps(states, events, n - 1, id);
    if AskedFor(events[n - 1], id, states[n].sessions[id]) {
      i := n - 1;
    } else {
      i := SessionFromStart(states, events, n - 1, id);
      StillAskedFor(events[i], id, states[n - 1].sessions[id], states[n].sessions[id]);
    }
  }

  lemma NoneAtFirst(states: seq<Store>, events: seq<Event>, id: nat)
    requires Run(states, events)
    ensures states != [] && id !in states[0].sessions && |states| == |events| + 1
  {
  }

  lemma OneStepKeeps(states: seq<Store>, events: seq<Event>, n: nat, id: nat)
    requires Run(states, events) && n < |events| && n + 1 < |states| && id in states[n + 1].sessions
    ensures (id in states[n].sessions && SameUpload(states[n + 1].sessions[id], states[n].sessions[id]))
         || AskedFor(events[n], id, states[n + 1].sessions[id])
  {
    InvInRun(states, events, n);
    OneStep(states, events, n);
    hide *;
    StepKeepsUpload(states[n], events[n], states[n + 1], id);
  }

  lemma OneStep(states: seq<Store>, events: seq<Event>, n: nat)
    requires Run(states, events) && n < |events| && Inv(states[n])
    ensures n + 1 < |states| && Next(states[n], events[n], states[n + 1])
  {
  }

  lemma StillAskedFor(e: Event, id: nat, before: Session, after: Session)
    requires AskedFor(e, id, before) && SameUpload(after, before)
    ensures AskedFor(e, id, after)
  {
    hide Parse, Clean;
  }

  /**
   * Over whole runs: a FINISH_ACK compares the assembled file with the checksum of a START of that id that came
   * before, and a yes leaves the file under the name that START asked for.
   */
  lemma FinishedAgainstItsStart(states: seq<Store>, events: seq<Event>, n: nat, x: Reply) returns (i: nat)
    requires Run(states, events) && n < |events| && events[n].Message? && events[n].payload != []
    requires Inv(states[n]) && Handleable(states[n], Parse(events[n].payload), events[n].io)
    requires x.FinishAck? && x in Handle(states[n], Parse(events[n].payload), events[n].now, events[n].io).1
    ensures i < n && events[i].Message? && events[i].payload != [] && Parse(events[i].payload).Start? && Parse(events[i].payload).id == x.id
    ensures
      var start, r := Parse(events[i].payload), Parse(events[n].payload);
      && r.Chunk? && r.id in states[n].sessions && Temp(r.id) in states[n].disk
      && (x.ok <==> Crc(Assembled(states[n], r)) == start.crc)
      && (x.ok ==> Final(x.id, Clean(start.name)) in states[n + 1].disk
                   && states[n + 1].disk[Final(x.id, Clean(start.name))] == Assembled(states[n], r))
  {
    var r := Parse(events[n].payload);
    FinishExactly(states[n], r, events[n].now, events[n].io);
    assert Next(states[n], events[n], states[n + 1]);
    assert r.Chunk?;
    hide Run, Handle, Inv, Parse, Assembled, Crc, Clean, Takes, Completes;
    i := SessionFromStart(states, events, n, r.id);
  }

  // ---------------------------------------------------------------- when a session was last used

  /** A message that counts as use: START or QUERY of the session, or a chunk it did not have. */
  ghost predicate Uses(s: Store, r: Request, io: Io, id: nat) {
    && !r.Malformed? && r.id == id
    && (r.Chunk? ==> Takes(s, r, io) && r.index / 8 < |s.sessions[id].bitmap| && !Get(s.sessions[id].bitmap, r.index))
  }

  lemma CompleteKeepsUse(s: Store, r: Request, now: nat, io: Io)
    requires r.Chunk? && Inv(s) && Takes(s, r, io) && Completes(s, r) && r.id in Handle(s, r, now, io).0.sessions
    ensures r.index / 8 < |s.sessions[r.id].bitmap|
    ensures Handle(s, r, now, io).0.sessions[r.id].lastUpdate
         == if Get(s.sessions[r.id].bitmap, r.index) then s.sessions[r.id].lastUpdate else now
    ensures forall id :: id in s.sessions && id != r.id ==>
      id in Handle(s, r, now, io).0.sessions && Handle(s, r, now, io).0.sessions[id] == s.sessions[id]
  {
    LastChunkTaken(s, r, now, io);
    CompleteExactly(s, r, now, io);
    TakenStore(s, r, now, io);
    assert WellFormed(s.sessions[r.id].bitmap, s.sessions[r.id].total, s.sessions[r.id].received);
    hide Handle, Inv, Complete, Assembled, Crc, Get, Ready, WellFormed, Takes, Completes, Set;
  }

  lemma ChunkUse(s: Store, r: Request, now: nat, io: Io, id: nat)
    requires r.Chunk? && Inv(s) && id in Handle(s, r, now, io).0.sessions
    ensures id in s.sessions
    ensures Handle(s, r, now, io).0.sessions[id].lastUpdate == if Uses(s, r, io, id) then now else s.sessions[id].lastUpdate
  {
    ChunkAnswered(s, r, now, io);
    ChunkKeepsUpload(s, r, now, io, id);
    if Takes(s, r, io) {
      if Completes(s, r) {
        LastChunkTaken(s, r, now, io);
        CompleteExactly(s, r, now, io);
        if r.id in Handle(s, r, now, io).0.sessions {
          CompleteKeepsUse(s, r, now, io);
        }
        hide Handle, Complete, Assembled, Crc, Get, Ready, Takes, Completes, Inv;
      } else {
        ChunkTaken(s, r, now, io);
        hide Handle, Complete, Assembled, Crc, Get, Ready, Takes, Completes, Inv;
      }
    } else {
      hide Handle, Complete, Assembled, Crc, Get, Ready, Takes, Completes, Inv;
    }
  }

  /** A session's time stamp is that of the last message that used it. */
  lemma UseRecorded(s: Store, r: Request, now: nat, io: Io, id: nat)
    requires Handleable(s, r, io) && id in Handle(s, r, now, io).0.sessions
    ensures Uses(s, r, io, id) ==> Handle(s, r, now, io).0.sessions[id].lastUpdate == now
    ensures !Uses(s, r, io, id) ==> id in s.sessions && Handle(s, r, now, io).0.sessions[id].lastUpdate == s.sessions[id].lastUpdate
  {
    if r.Chunk? {
      ChunkUse(s, r, now, io, id);
    } else if r.Start? {
      StartAnswered(s, r, now, io);
      hide HandleStart, Inv;
    } else if r.Query? {
      QueryAnswered(s, r.id, now, io);
    }
  }

  // ---------------------------------------------------------------- what a cleanup leaves

  /** Not used for longer than `ttl`, judged by its time stamp; a stamp in the future is not old. */
  predicate Idle(st: Session, now: nat, ttl: nat) {
    now > st.lastUpdate + ttl
  }

  ghost function InUse(s: Store, now: nat, ttl: nat): set<nat> {
    set id | id in s.sessions && !Idle(s.sessions[id], now, ttl)
  }

  /**
   * A cleanup: every idle session is gone; of the others as many as are allowed are left, unchanged, and none
   * of them was used before one that had to go.
   */
  lemma CleanupExactly(s: Store, now: nat, ttl: nat, max: nat, s': Store)
    requires CleanedUp(s, now, ttl, max, s')
    ensures s'.sessions.Keys <= InUse(s, now, ttl) && forall id :: id in s'.sessions ==> s'.sessions[id] == s.sessions[id]
    ensures |s'.sessions| == if |InUse(s, now, ttl)| <= max then |InUse(s, now, ttl)| else max
    ensures forall x, y :: x in InUse(s, now, ttl) && x !in s'.sessions && y in s'.sessions ==>
      s.sessions[x].lastUpdate <= s.sessions[y].lastUpdate
  {
    assert LiveAt(s, now, ttl) == InUse(s, now, ttl);
  }

  /** Of each session that is gone, and of no other, the descriptor is closed and the temporary file unlinked. */
  lemma CleanupFiles(s: Store, now: nat, ttl: nat, max: nat, s': Store, fd: nat, p: Path)
    requires Inv(s) && CleanedUp(s, now, ttl, max, s')
    ensures fd in s'.open <==> fd in s.open && s.open[fd].id in s'.sessions
    ensures fd in s'.open ==> s'.open[fd] == s.open[fd]
    ensures p in s'.disk <==> p in s.disk && !(p.Temp? && p.id in s.sessions && p.id !in s'.sessions)
    ensures p in s'.disk ==> s'.disk[p] == s.disk[p]
  {
    var gone := s.sessions.Keys - s'.sessions.Keys;
    if fd in s.open {
      OwnDescriptor(s, fd, gone);
    }
    hide Inv, LiveAt;
  }

  lemma OwnDescriptor(s: Store, fd: nat, gone: set<nat>)
    requires Inv(s) && fd in s.open && gone <= s.sessions.Keys
    ensures s.open[fd].id in s.sessions
    ensures fd in (set i | i in gone :: s.sessions[i].fd) <==> s.open[fd].id in gone
  {
    var id := s.open[fd].id;
    assert s.sessions[id].fd == fd;
    if i :| i in gone && s.sessions[i].fd == fd {
      assert Sound(s, i) && Sound(s, id);
    }
  }
}
