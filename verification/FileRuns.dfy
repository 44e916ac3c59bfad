/** Whole lives of the session table: any messages and any cleanups, in any order. */
module FileRuns {
  import opened Bytes
  import opened Crc32
  import opened Bitmap
  import opened FileProtocol
  import opened FileTransfer
  import opened FileManager

  datatype Event =
    | Message(payload: seq<byte>, now: nat, io: Io)
    | Cleanup(now: nat, ttl: nat, max: nat)

  /** One event: a message is parsed and handled, a cleanup leaves whatever `CleanedUp` allows. */
  ghost predicate Next(s: Store, e: Event, s': Store)
    requires Inv(s)
  {
    match e
    case Message(payload, now, io) =>
      if payload == [] then s' == s
      else
        var r := Parse(payload);
        FreshDescriptor(s, r, io) && (Handleable(s, r, io) ==> s' == Handle(s, r, now, io).0)
    case Cleanup(now, ttl, max) => CleanedUp(s, now, ttl, max, s')
  }

  /** The operating system never hands out a descriptor that is open. */
  ghost predicate FreshDescriptor(s: Store, r: Request, io: Io)
    requires Inv(s)
  {
    r.Start? && io.fd.Some? ==> io.fd.value !in Superseded(s, r).open
  }

  /** A run from the empty table: as long as the invariant holds, each state follows from the last one. */
  ghost predicate Run(states: seq<Store>, events: seq<Event>) {
    && |states| == |events| + 1
    && states[0] == Store(map[], map[], map[])
    && forall i :: 0 <= i < |events| && Inv(states[i]) ==> Next(states[i], events[i], states[i + 1])
  }

  lemma WithoutKeepsInv(s: Store, gone: set<nat>, s': Store)
    requires Inv(s) && Without(s, gone, s')
    ensures Inv(s') && (Unfinished(s) ==> Unfinished(s'))
  {
    forall id | id in s'.sessions
      ensures Sound(s', id)
    {
      assert Sound(s, id);
    }
    forall fd | fd in s'.open
      ensures s'.open[fd].Temp? && s'.open[fd].id in s'.sessions && s'.sessions[s'.open[fd].id].fd == fd
    {
      var id := s.open[fd].id;
      assert s.sessions[id].fd == fd;
    }
  }

  lemma StepKeepsInv(s: Store, e: Event, s': Store)
    requires Inv(s) && Next(s, e, s')
    ensures Inv(s')
  {
    match e
    case Message(payload, now, io) =>
      if payload != [] {
        var r := Parse(payload);
        if r.Start? {
          ParsedStart(payload);
        }
        HandleKeepsInv(s, r, now, io);
      }
    case Cleanup(now, ttl, max) =>
      WithoutKeepsInv(s, s.sessions.Keys - s'.sessions.Keys, s');
  }

  /** A chunk message of that file during which reading the whole file failed. */
  predicate FailedRead(e: Event, id: nat) {
    e.Message? && e.payload != [] && Parse(e.payload).Chunk? && Parse(e.payload).id == id && !e.io.readable
  }

  /** A session that has all its chunks. */
  ghost predicate Full(s: Store, id: nat) {
    id in s.sessions && s.sessions[id].received >= s.sessions[id].total
  }

  lemma StartLeavesNoneFull(s: Store, r: Request, now: nat, io: Io, id: nat)
    requires r.Start? && Handleable(s, r, io) && Full(HandleStart(s, r, now, io).0, id)
    ensures Full(s, id)
  {
    hide Inv;
  }

  lemma CompleteLeavesNoneFull(s: Store, id: nat, io: Io, other: nat)
    requires Ready(s, id) && Full(Complete(s, id, io).0, other)
    ensures Full(s, other) && (other == id ==> !io.readable)
  {
    hide Crc;
  }

  lemma AcceptedFull(s: Store, r: Request, now: nat, io: Io, id: nat)
    requires r.Chunk? && r.id in s.sessions && Sound(s, r.id) && r.index < s.sessions[r.id].total
    requires Full(AcceptChunk(s, r, now, io).0, id) && !Full(s, id)
    ensures r.id == id && !io.readable
  {
    var s1 := Accepted(s, r.id, r.index, r.data, now);
    assert id != r.id ==> (Full(s1, id) <==> Full(s, id));
    hide Complete, Crc, WriteAt, Set, Get;
    if s1.sessions[r.id].received == s1.sessions[r.id].total {
      CompleteLeavesNoneFull(s1, r.id, io, id);
    }
  }

  lemma ChunkFull(s: Store, r: Request, now: nat, io: Io, id: nat)
    requires r.Chunk? && Inv(s) && Full(HandleChunk(s, r, now, io).0, id) && !Full(s, id)
    ensures r.id == id && !io.readable
  {
    hide AcceptChunk, Crc, WriteAt;
    if r.id in s.sessions && Objection(s.sessions[r.id], r).None? {
      assert Sound(s, r.id);
      if BytesWritten(Offset(s.sessions[r.id], r.index), |r.data|, io) >= |r.data| {
        AcceptedFull(s, r, now, io, id);
      }
    }
  }

  /** Only a failed read leaves a session full. */
  lemma StepFull(s: Store, e: Event, s': Store, id: nat)
    requires Inv(s) && Next(s, e, s') && Full(s', id) && !Full(s, id)
    ensures FailedRead(e, id)
  {
    if e.Message? && e.payload != [] {
      var r := Parse(e.payload);
      if r.Start? {
        ParsedStart(e.payload);
        StartLeavesNoneFull(s, r, e.now, e.io, id);
      } else if r.Chunk? {
        ChunkFull(s, r, e.now, e.io, id);
      }
    }
  }

  lemma {:induction false} InvInRun(states: seq<Store>, events: seq<Event>, n: nat)
    requires Run(states, events) && n < |states|
    ensures Inv(states[n])
    decreases n
  {
    if n > 0 {
      InvInRun(states, events, n - 1);
      StepKeepsInv(states[n - 1], events[n - 1], states[n]);
    }
  }

  /** A full session was left full by a failed read of its own file, and has been full ever since. */
  lemma {:induction false} FullSinceFailedRead(states: seq<Store>, events: seq<Event>, n: nat, id: nat) returns (i: nat)
    requires Run(states, events) && n < |states| && Full(states[n], id)
    ensures i < n && FailedRead(events[i], id) && forall j :: i < j <= n ==> Full(states[j], id)
    decreases n
  {
    NoneFullAtFirst(states[0], id);
    hide Full, FailedRead, Inv, Next;
    InvInRun(states, events, n - 1);
    if Full(states[n - 1], id) {
      i := FullSinceFailedRead(states, events, n - 1, id);
    } else {
      StepFull(states[n - 1], events[n - 1], states[n], id);
      i := n - 1;
    }
  }

  lemma NoneFullAtFirst(s: Store, id: nat)
    ensures s == Store(map[], map[], map[]) ==> !Full(s, id)
  {
  }

  /**
   * In every state of every run the bitmaps and counters are right, the open descriptors are those
   * of the live sessions, and a live session misses a chunk unless a whole-file read of its own failed.
   */
  lemma RunsKeepInv(states: seq<Store>, events: seq<Event>, n: nat)
    requires Run(states, events) && n < |states|
    ensures Inv(states[n])
    ensures forall id :: id in states[n].sessions ==>
      || states[n].sessions[id].received < states[n].sessions[id].total
      || exists i :: 0 <= i < n && FailedRead(events[i], id)
  {
    InvInRun(states, events, n);
    hide Run, Inv, FailedRead;
    forall id | id in states[n].sessions && Full(states[n], id)
      ensures exists i :: 0 <= i < n && FailedRead(events[i], id)
    {
      var i := FullSinceFailedRead(states, events, n, id);
    }
  }

  /** The same, spelled out for one live session and for the descriptor table. */
  lemma LiveSessions(states: seq<Store>, events: seq<Event>, n: nat, id: nat)
    requires Run(states, events) && n < |states| && id in states[n].sessions
    ensures
      var st := states[n].sessions[id];
      && |st.bitmap| == (st.total + 7) / 8
      && (forall i :: st.total <= i < 8 * |st.bitmap| ==> !Get(st.bitmap, i))
      && st.total <= 8 * |st.bitmap| && st.received == Count(st.bitmap, st.total)
    ensures states[n].open.Keys == set i | i in states[n].sessions :: states[n].sessions[i].fd
    ensures (exists i :: 0 <= i < n && FailedRead(events[i], id)) ||
      var st := states[n].sessions[id];
      exists i :: 0 <= i < st.total && i / 8 < |st.bitmap| && !Get(st.bitmap, i)
  {
    RunsKeepInv(states, events, n);
    assert Sound(states[n], id);
    DescriptorsOfSessions(states[n]);
    var st := states[n].sessions[id];
    CountFull(st.bitmap, st.total);
  }
}
