/**
 * The session table as the server updates it in place: one entry point per client message, and
 * the periodic cleanup. Each method is tied to `FileTransfer`, where the properties are proved.
 */
module FileManager {
  import opened Bytes
  import opened Crc32
  import opened Bitmap
  import opened FileNames
  import opened FileProtocol
  import opened FileTransfer

  const BLOCK: nat := 64 * 1024

  // ---------------------------------------------------------------- cleanup, as a relation

  predicate Expired(st: Session, now: nat, ttl: nat) {
    now > st.lastUpdate && now - st.lastUpdate > ttl
  }

  ghost function LiveAt(s: Store, now: nat, ttl: nat): set<nat> {
    set id | id in s.sessions && !Expired(s.sessions[id], now, ttl)
  }

  /** `s'` is `s` with the sessions `gone` discarded, each one's descriptor closed and file unlinked. */
  ghost predicate Without(s: Store, gone: set<nat>, s': Store) {
    && gone <= s.sessions.Keys
    && s'.sessions == s.sessions - gone
    && s'.open == s.open - (set id | id in gone :: s.sessions[id].fd)
    && s'.disk == s.disk - (set id | id in gone :: Temp(id))
  }

  /** What a cleanup leaves: no expired session, at most `max` others, and the most recently used of them. */
  ghost predicate CleanedUp(s: Store, now: nat, ttl: nat, max: nat, s': Store) {
    var live := LiveAt(s, now, ttl);
    && Without(s, s.sessions.Keys - s'.sessions.Keys, s')
    && s'.sessions.Keys <= live
    && |s'.sessions| == (if |live| <= max then |live| else max)
    && (forall evicted, kept :: evicted in live && evicted !in s'.sessions && kept in s'.sessions ==>
          s.sessions[evicted].lastUpdate <= s.sessions[kept].lastUpdate)
  }

  lemma WithoutNone(s: Store)
    ensures Without(s, {}, s)
  {
  }

  lemma RemoveOneMore<K, V>(m: map<K, V>, gone: set<K>, k: K)
    ensures (m - gone) - {k} == m - (gone + {k})
  {
  }

  lemma WithoutOneMore(s: Store, gone: set<nat>, s': Store, id: nat)
    requires Inv(s) && Without(s, gone, s') && Inv(s') && id in s'.sessions && Sound(s', id)
    ensures Without(s, gone + {id}, Discard(s', id))
  {
    var s'' := Discard(s', id);
    hide Inv, Sound;
    var fds, temps := (set i | i in gone :: s.sessions[i].fd), (set i | i in gone :: Temp(i));
    assert (set i | i in gone + {id} :: s.sessions[i].fd) == fds + {s.sessions[id].fd};
    assert (set i | i in gone + {id} :: Temp(i)) == temps + {Temp(id)};
    RemoveOneMore(s.sessions, gone, id);
    RemoveOneMore(s.open, fds, s.sessions[id].fd);
    RemoveOneMore(s.disk, temps, Temp(id));
  }

  // ---------------------------------------------------------------- sorting by last update

  datatype Entry = Entry(id: nat, lastUpdate: nat)

  predicate SortedByAge(e: seq<Entry>) {
    forall i, j :: 0 <= i < j < |e| ==> e[i].lastUpdate <= e[j].lastUpdate
  }

  ghost predicate DistinctIds(e: seq<Entry>) {
    forall i, j :: 0 <= i < j < |e| ==> e[i].id != e[j].id
  }

  ghost function Ids(e: seq<Entry>): set<nat> {
    set i | 0 <= i < |e| :: e[i].id
  }

  ghost function Members(ids: seq<nat>): set<nat> {
    set x | x in ids
  }

  lemma OneMoreMember(gone: set<nat>, ids: seq<nat>, k: nat)
    requires k < |ids|
    ensures gone + Members(ids[..k + 1]) == gone + Members(ids[..k]) + {ids[k]}
  {
    assert ids[..k + 1] == ids[..k] + [ids[k]];
  }

  lemma AlreadyGone(s: Store, gone: set<nat>, s': Store, id: nat)
    requires Without(s, gone, s') && id in s.sessions && id !in s'.sessions
    ensures Without(s, gone + {id}, s')
  {
    assert id in gone;
    assert gone + {id} == gone;
  }

  lemma {:induction false} DistinctCount(e: seq<Entry>)
    requires DistinctIds(e)
    ensures |Ids(e)| == |e|
  {
    if e != [] {
      var last := |e| - 1;
      DistinctCount(e[..last]);
      assert Ids(e) == Ids(e[..last]) + {e[last].id};
    }
  }

  lemma SubsetOfSameSize(a: set<nat>, b: set<nat>)
    requires a <= b && |a| == |b|
    ensures a == b
  {
    assert |b - a| == |b| - |a|;
  }

  /** The entries of a table, one per session, with the ages the table has. */
  ghost predicate Lists(e: seq<Entry>, sessions: map<nat, Session>) {
    && DistinctIds(e)
    && |e| == |sessions|
    && forall i :: 0 <= i < |e| ==> e[i].id in sessions && e[i].lastUpdate == sessions[e[i].id].lastUpdate
  }

  lemma ListsAll(e: seq<Entry>, sessions: map<nat, Session>)
    requires Lists(e, sessions)
    ensures Ids(e) == sessions.Keys
  {
    DistinctCount(e);
    SubsetOfSameSize(Ids(e), sessions.Keys);
  }

  /** Puts one entry in its place. */
  method InsertByAge(sorted: seq<Entry>, e: Entry) returns (r: seq<Entry>)
    requires SortedByAge(sorted)
    ensures SortedByAge(r)
    ensures exists k :: 0 <= k <= |sorted| && r == sorted[..k] + [e] + sorted[k..]
  {
    var k := 0;
    while k < |sorted| && sorted[k].lastUpdate <= e.lastUpdate
      invariant 0 <= k <= |sorted|
      invariant forall j :: 0 <= j < k ==> sorted[j].lastUpdate <= e.lastUpdate
    {
      k := k + 1;
    }
    r := sorted[..k] + [e] + sorted[k..];
  }

  lemma InsertLists(e: seq<Entry>, sorted: seq<Entry>, i: nat, k: nat, sessions: map<nat, Session>)
    requires Lists(e, sessions) && i < |e| && k <= |sorted| == i
    requires DistinctIds(sorted) && (forall x :: x in sorted <==> x in e[..i])
    ensures var r := sorted[..k] + [e[i]] + sorted[k..];
      DistinctIds(r) && (forall x :: x in r <==> x in e[..i + 1])
  {
    var r := sorted[..k] + [e[i]] + sorted[k..];
    forall j | 0 <= j < |sorted|
      ensures sorted[j].id != e[i].id
    {
      assert sorted[j] in e[..i];
    }
    assert e[..i + 1] == e[..i] + [e[i]];
    assert sorted == sorted[..k] + sorted[k..];
  }

  method SortByAge(entries: seq<Entry>, ghost sessions: map<nat, Session>) returns (sorted: seq<Entry>)
    requires Lists(entries, sessions)
    ensures SortedByAge(sorted) && Lists(sorted, sessions)
  {
    sorted := [];
    for i := 0 to |entries|
      invariant |sorted| == i && SortedByAge(sorted) && DistinctIds(sorted)
      invariant forall x :: x in sorted <==> x in entries[..i]
    {
      ghost var before := sorted;
      sorted := InsertByAge(sorted, entries[i]);
      ghost var k :| 0 <= k <= |before| && sorted == before[..k] + [entries[i]] + before[k..];
      InsertLists(entries, before, i, k, sessions);
    }
    assert entries[..|entries|] == entries;
    forall i | 0 <= i < |sorted|
      ensures sorted[i].id in sessions && sorted[i].lastUpdate == sessions[sorted[i].id].lastUpdate
    {
      assert sorted[i] in entries;
    }
  }

  // ---------------------------------------------------------------- reading a file for its checksum

  lemma UpdateBlock(content: seq<byte>, at: nat, length: nat)
    requires at + length <= |content|
    ensures Update(Update(AllOnes(), content[..at]), content[at..at + length]) == Update(AllOnes(), content[..at + length])
  {
    UpdateSplit(AllOnes(), content[..at], content[at..at + length]);
    assert content[..at] + content[at..at + length] == content[..at + length];
  }

  lemma NothingYet(content: seq<byte>)
    ensures Update(AllOnes(), content[..0]) == AllOnes()
  {
  }

  method ComputeFileCrc(content: seq<byte>) returns (n: nat)
    ensures n == Crc(content)
  {
    hide Update, Xor, Slot;
    var crc := new CRC32();
    crc.Reset();
    NothingYet(content);
    var at := 0;
    while at < |content|
      invariant 0 <= at <= |content| && crc.Valid()
      invariant crc.current == Update(AllOnes(), content[..at])
    {
      var length := if |content| - at < BLOCK then |content| - at else BLOCK;
      UpdateBlock(content, at, length);
      crc.Feed(content[at..at + length]);
      at := at + length;
    }
    assert content[..at] == content;
    var w := crc.Finish();
    n := ToNat(w);
  }

  lemma ParsedStart(m: seq<byte>)
    requires m != [] && Parse(m).Start?
    ensures 0 < Parse(m).total < U32 && 0 < Parse(m).chunkSize < U32
  {
    Pow256Values();
  }

  class FileTransferManager {
    var sessions: map<nat, Session>
    var open: map<nat, Path>
    var disk: map<Path, seq<byte>>

    ghost function View(): Store
      reads this
    {
      Store(sessions, open, disk)
    }

    constructor ()
      ensures View() == Store(map[], map[], map[]) && Inv(View())
    {
      sessions, open, disk := map[], map[], map[];
    }

    method CloseFd(fd: nat)
      requires fd in open
      modifies this`open
      ensures View() == Close(old(View()), fd)
    {
      open := open - {fd};
    }

    /** One binary message from a client, and the replies to it. */
    method HandleClientMessage(payload: seq<byte>, now: nat, io: Io) returns (replies: seq<seq<byte>>)
      requires Inv(View())
      requires payload != [] ==> Handleable(View(), Parse(payload), io)
      modifies this
      ensures payload == [] ==> View() == old(View()) && replies == []
      ensures payload != [] ==>
        var r := Handle(old(View()), Parse(payload), now, io);
        View() == r.0 && replies == EncodeReplies(r.1)
      ensures Inv(View())
    {
      if payload == [] {
        return [];
      }
      HandleKeepsInv(View(), Parse(payload), now, io);
      var r := Parse(payload);
      var out: seq<Reply>;
      match r {
        case Start(_, _, _, _, _, _) => out := OnStart(r, now, io);
        case Query(id) => out := OnQuery(id, now);
        case Chunk(_, _, _, _) => out := OnChunk(r, now, io);
        case Malformed(code, detail) => out := [Failure(code, detail)];
      }
      replies := EncodeReplies(out);
    }

    method OnStart(r: Request, now: nat, io: Io) returns (out: seq<Reply>)
      requires r.Start? && Handleable(View(), r, io)
      modifies this
      ensures (View(), out) == HandleStart(old(View()), r, now, io)
    {
      if r.id in sessions {
        assert Sound(View(), r.id);
        var st := sessions[r.id];
        if st.size == r.size && st.chunkSize == r.chunkSize && st.total == r.total && st.crc == r.crc {
          out := [QueryResponse(r.id, r.total, st.bitmap)];
          sessions := sessions[r.id := st.(lastUpdate := now)];
          return;
        }
        CloseFd(st.fd);
        sessions := sessions - {r.id};
      }
      out := StartNew(r, now, io);
    }

    /** START for an id without a session: its file is created and sized. */
    method StartNew(r: Request, now: nat, io: Io) returns (out: seq<Reply>)
      requires r.Start? && (io.fd.Some? ==> io.fd.value !in open)
      modifies this
      ensures (View(), out) == StartFresh(old(View()), r, now, io)
    {
      hide Clean;
      var name := SanitizeName(r.name);
      if io.fd.None? {
        return [Failure(InternalError, "open temp file failed")];
      }
      var fd := io.fd.value;
      open := open[fd := Temp(r.id)];
      disk := disk[Temp(r.id) := []];
      if !io.truncates || r.size >= OFFSET_LIMIT {
        CloseFd(fd);
        return [Failure(InternalError, "ftruncate failed")];
      }
      disk := disk[Temp(r.id) := ZeroBytes(r.size)];
      sessions := sessions[r.id := Session(r.id, r.size, r.chunkSize, r.total, r.crc, Empty(r.total), 0, fd, name, now)];
      out := [QueryResponse(r.id, r.total, Empty(r.total))];
    }

    method OnQuery(id: nat, now: nat) returns (out: seq<Reply>)
      modifies this`sessions
      ensures (View(), out) == HandleQuery(old(View()), id, now)
    {
      if id !in sessions {
        return [Failure(StateNotFound, "file state not found")];
      }
      var st := sessions[id];
      out := [QueryResponse(id, st.total, st.bitmap)];
      sessions := sessions[id := st.(lastUpdate := now)];
    }

    method OnChunk(r: Request, now: nat, io: Io) returns (out: seq<Reply>)
      requires r.Chunk? && Inv(View())
      modifies this
      ensures (View(), out) == HandleChunk(old(View()), r, now, io)
    {
      if r.id !in sessions {
        return [Failure(StateNotFound, "file state not found")];
      }
      assert Sound(View(), r.id);
      var st := sessions[r.id];
      if r.index >= st.total {
        return [Failure(ChunkOutOfRange, "chunk_index out of range")];
      }
      if |r.data| == 0 {
        return [Failure(InvalidArgument, "empty chunk")];
      }
      if r.index + 1 != st.total && |r.data| != st.chunkSize {
        return [Failure(ProtocolViolation, "chunk size mismatch")];
      }
      var got := Crc(r.data);
      if got != r.crc {
        return [Failure(ChunkCrcMismatch, "chunk crc32 mismatch"), ChunkAck(r.id, r.index, false)];
      }
      var at := Offset(st, r.index);
      var n := BytesWritten(at, |r.data|, io);
      if n < |r.data| {
        if n > 0 {
          disk := disk[Temp(r.id) := WriteAt(disk[Temp(r.id)], at, r.data[..n])];
        }
        return [Failure(InternalError, "pwrite failed")];
      }
      out := TakeChunk(r, now, io);
    }

    /** A sound chunk: written, marked, acknowledged, and the upload completed if it was the last. */
    method TakeChunk(r: Request, now: nat, io: Io) returns (out: seq<Reply>)
      requires r.Chunk? && r.id in sessions && Sound(View(), r.id) && r.index < sessions[r.id].total
      modifies this
      ensures (View(), out) == AcceptChunk(old(View()), r, now, io)
    {
      var st := sessions[r.id];
      disk := disk[Temp(r.id) := WriteAt(disk[Temp(r.id)], Offset(st, r.index), r.data)];
      var already := Get(st.bitmap, r.index);
      if !already {
        st := st.(bitmap := Set(st.bitmap, r.index), received := st.received + 1, lastUpdate := now);
        sessions := sessions[r.id := st];
      }
      assert View() == Accepted(old(View()), r.id, r.index, r.data, now);
      out := [ChunkAck(r.id, r.index, !already)];
      if st.received == st.total {
        var last := FinishUpload(r.id, io);
        out := out + last;
      }
    }

    method FinishUpload(id: nat, io: Io) returns (out: seq<Reply>)
      requires Ready(View(), id)
      modifies this
      ensures (View(), out) == Complete(old(View()), id, io)
    {
      var st := sessions[id];
      if !io.readable {
        return [Failure(InternalError, "read failed for crc32")];
      }
      var fileCrc := ComputeFileCrc(disk[Temp(id)]);
      CloseFd(st.fd);
      if fileCrc == st.crc {
        disk := (disk - {Temp(id)})[Final(id, st.name) := disk[Temp(id)]];
        out := [FinishAck(id, true)];
      } else {
        disk := disk - {Temp(id)};
        out := [FinishAck(id, false)];
      }
      sessions := sessions - {id};
    }

    method DiscardSession(id: nat)
      requires Inv(View()) && id in sessions
      modifies this
      ensures id in old(sessions) && Sound(old(View()), id) && View() == Discard(old(View()), id) && Inv(View())
    {
      assert Sound(View(), id);
      DiscardKeepsInv(View(), id);
      CloseFd(sessions[id].fd);
      disk := disk - {Temp(id)};
      sessions := sessions - {id};
    }

    /** Collects the expired ids, in whatever order the table is walked. */
    method CollectExpired(now: nat, ttl: nat) returns (expired: seq<nat>)
      ensures forall id :: id in expired <==> id in sessions && Expired(sessions[id], now, ttl)
      ensures forall i, j :: 0 <= i < j < |expired| ==> expired[i] != expired[j]
    {
      expired := [];
      var todo := sessions.Keys;
      while todo != {}
        invariant todo <= sessions.Keys
        invariant forall id :: id in expired <==> id in sessions && id !in todo && Expired(sessions[id], now, ttl)
        invariant forall i, j :: 0 <= i < j < |expired| ==> expired[i] != expired[j]
        decreases todo
      {
        var id :| id in todo;
        if Expired(sessions[id], now, ttl) {
          expired := expired + [id];
        }
        todo := todo - {id};
      }
    }

    /** The table as a list of ids with their last update, in whatever order it is walked. */
    method ListSessions() returns (entries: seq<Entry>)
      ensures Lists(entries, sessions)
    {
      entries := [];
      var todo := sessions.Keys;
      while todo != {}
        invariant todo <= sessions.Keys
        invariant |entries| + |todo| == |sessions|
        invariant forall i :: 0 <= i < |entries| ==>
          entries[i].id in sessions && entries[i].id !in todo && entries[i].lastUpdate == sessions[entries[i].id].lastUpdate
        invariant DistinctIds(entries)
        decreases todo
      {
        var id :| id in todo;
        entries := entries + [Entry(id, sessions[id].lastUpdate)];
        todo := todo - {id};
      }
    }

    /** Discards every session whose id is listed. */
    method DiscardListed(ids: seq<nat>, ghost s: Store, ghost gone: set<nat>)
      requires Inv(s) && Inv(View()) && Without(s, gone, View())
      requires forall id :: id in ids ==> id in s.sessions
      modifies this
      ensures Inv(View())
      ensures Without(s, gone + Members(ids), View())
      ensures Unfinished(old(View())) ==> Unfinished(View())
    {
      ghost var before := View();
      assert gone + Members(ids[..0]) == gone;
      hide Without, Inv, Unfinished, Discard, Members;
      for k := 0 to |ids|
        invariant Inv(View()) && (Unfinished(before) ==> Unfinished(View()))
        invariant Without(s, gone + Members(ids[..k]), View())
      {
        OneMoreMember(gone, ids, k);
        if ids[k] in sessions {
          assert Sound(View(), ids[k]);
          WithoutOneMore(s, gone + Members(ids[..k]), View(), ids[k]);
          DiscardKeepsInv(View(), ids[k]);
          DiscardSession(ids[k]);
        } else {
          assert ids[k] in s.sessions;
          AlreadyGone(s, gone + Members(ids[..k]), View(), ids[k]);
        }
      }
      assert ids[..|ids|] == ids;
    }

    /** The first half of a cleanup: sessions idle longer than `ttl`. */
    method DiscardExpired(now: nat, ttl: nat)
      requires Inv(View())
      modifies this
      ensures Inv(View()) && (Unfinished(old(View())) ==> Unfinished(View()))
      ensures Without(old(View()), old(sessions.Keys) - sessions.Keys, View())
      ensures sessions.Keys == LiveAt(old(View()), now, ttl)
    {
      ghost var s := View();
      var expired := CollectExpired(now, ttl);
      WithoutNone(s);
      DiscardListed(expired, s, {});
      assert {} + Members(expired) == Members(expired);
      assert s.sessions.Keys - sessions.Keys == Members(expired);
    }

    /** The second half: the least recently used sessions beyond `max`. */
    method EvictOldest(max: nat, ghost s: Store, ghost gone: set<nat>) returns (ghost evicted: set<nat>, ghost kept: set<nat>)
      requires Inv(s) && Inv(View()) && Without(s, gone, View()) && |sessions| > max
      modifies this
      ensures Inv(View()) && (Unfinished(old(View())) ==> Unfinished(View()))
      ensures Without(s, gone + evicted, View())
      ensures ByAge(old(sessions), evicted, kept) && |kept| == max
    {
      var entries := ListSessions();
      var sortable := SortByAge(entries, sessions);
      var removeCount := |sessions| - max;
      SplitByAge(sortable, sessions, removeCount);
      evicted, kept := Ids(sortable[..removeCount]), Ids(sortable[removeCount..]);
      var oldest := OldestIds(sortable, removeCount);
      DiscardListed(oldest, s, gone);
    }

    /** First the sessions idle longer than `ttl`, then the least recently used beyond `max`. */
    method CleanupSessions(now: nat, ttl: nat, max: nat)
      requires Inv(View())
      modifies this
      ensures Inv(View()) && CleanedUp(old(View()), now, ttl, max, View())
      ensures Unfinished(old(View())) ==> Unfinished(View())
    {
      ghost var s := View();
      DiscardExpired(now, ttl);
      ghost var gone := s.sessions.Keys - sessions.Keys;
      if |sessions| <= max {
        return;
      }
      assert sessions == s.sessions - gone;
      ghost var evicted, kept := EvictOldest(max, s, gone);
      KeepsMostRecent(s, now, ttl, max, gone, evicted, kept, View());
    }
  }

  /** The sessions fall into `evicted` and `kept`, and nothing evicted is newer than anything kept. */
  ghost predicate ByAge(sessions: map<nat, Session>, evicted: set<nat>, kept: set<nat>) {
    && sessions.Keys == evicted + kept && evicted !! kept
    && forall x, y :: x in evicted && y in kept ==> sessions[x].lastUpdate <= sessions[y].lastUpdate
  }

  function OldestIds(sorted: seq<Entry>, n: nat): seq<nat>
    requires n <= |sorted|
  {
    seq(n, i requires 0 <= i < n => sorted[i].id)
  }

  /** In a list of distinct ids, the first `n` and the others have nothing in common. */
  lemma CutList(sorted: seq<Entry>, n: nat)
    requires DistinctIds(sorted) && n <= |sorted|
    ensures Members(OldestIds(sorted, n)) == Ids(sorted[..n])
    ensures Ids(sorted) == Ids(sorted[..n]) + Ids(sorted[n..]) && Ids(sorted[..n]) !! Ids(sorted[n..])
    ensures |Ids(sorted[n..])| == |sorted| - n
  {
    var ids := OldestIds(sorted, n);
    forall x
      ensures x in Members(ids) <==> x in Ids(sorted[..n])
    {
      if x in Ids(sorted[..n]) {
        var i :| 0 <= i < n && sorted[..n][i].id == x;
        assert ids[i] == x;
      }
    }
    assert forall i :: 0 <= i < |sorted| - n ==> sorted[n..][i] == sorted[n + i];
    forall x | x in Ids(sorted)
      ensures x in Ids(sorted[..n]) + Ids(sorted[n..])
    {
      var i :| 0 <= i < |sorted| && sorted[i].id == x;
      if i < n {
        assert sorted[..n][i].id == x;
      } else {
        assert sorted[n..][i - n].id == x;
      }
    }
    DistinctCount(sorted[n..]);
  }

  lemma OlderFirst(sorted: seq<Entry>, sessions: map<nat, Session>, n: nat, x: nat, y: nat)
    requires Lists(sorted, sessions) && SortedByAge(sorted) && n <= |sorted|
    requires x in Ids(sorted[..n]) && y in Ids(sorted[n..])
    ensures x in sessions && y in sessions && sessions[x].lastUpdate <= sessions[y].lastUpdate
  {
    var i :| 0 <= i < n && sorted[..n][i].id == x;
    var j :| 0 <= j < |sorted| - n && sorted[n..][j].id == y;
    assert sorted[n..][j] == sorted[n + j];
  }

  lemma SplitByAge(sorted: seq<Entry>, sessions: map<nat, Session>, n: nat)
    requires Lists(sorted, sessions) && SortedByAge(sorted) && n <= |sorted|
    ensures ByAge(sessions, Ids(sorted[..n]), Ids(sorted[n..])) && |Ids(sorted[n..])| == |sorted| - n
    ensures Members(OldestIds(sorted, n)) == Ids(sorted[..n])
    ensures forall id :: id in OldestIds(sorted, n) ==> id in sessions
  {
    CutList(sorted, n);
    ListsAll(sorted, sessions);
    forall x, y | x in Ids(sorted[..n]) && y in Ids(sorted[n..])
      ensures sessions[x].lastUpdate <= sessions[y].lastUpdate
    {
      OlderFirst(sorted, sessions, n, x, y);
    }
  }

  lemma Partition(all: set<nat>, gone: set<nat>, evicted: set<nat>, kept: set<nat>, left: set<nat>)
    requires gone <= all && all - gone == evicted + kept && evicted !! kept && left == all - (gone + evicted)
    ensures left == kept && all - left == gone + evicted
  {
  }

  lemma AgesAgree(sessions: map<nat, Session>, gone: set<nat>, evicted: set<nat>, kept: set<nat>, x: nat, y: nat)
    requires ByAge(sessions - gone, evicted, kept) && x in evicted && y in kept
    ensures x in sessions && y in sessions && sessions[x].lastUpdate <= sessions[y].lastUpdate
  {
    assert (sessions - gone)[x] == sessions[x] && (sessions - gone)[y] == sessions[y];
  }

  /** What is left after the oldest are gone is what a cleanup promises. */
  lemma KeepsMostRecent(s: Store, now: nat, ttl: nat, max: nat, gone: set<nat>, evicted: set<nat>, kept: set<nat>, s': Store)
    requires gone == s.sessions.Keys - LiveAt(s, now, ttl)
    requires Without(s, gone + evicted, s') && ByAge(s.sessions - gone, evicted, kept)
    requires |kept| == max < |LiveAt(s, now, ttl)|
    ensures CleanedUp(s, now, ttl, max, s')
  {
    var live := LiveAt(s, now, ttl);
    assert (s.sessions - gone).Keys == s.sessions.Keys - gone == live;
    Partition(s.sessions.Keys, gone, evicted, kept, s'.sessions.Keys);
    forall x, y | x in live && x !in s'.sessions && y in s'.sessions
      ensures s.sessions[x].lastUpdate <= s.sessions[y].lastUpdate
    {
      AgesAgree(s.sessions, gone, evicted, kept, x, y);
    }
  }
}
