/** What the rest of the world may do to the session table while one upload is under way. */
module OtherUsers {
  import opened Bytes
  import opened FileProtocol
  import opened FileTransfer
  import opened FileManager
  import opened Upload

  lemma SameForTwice(id: nat, a: Store, b: Store, c: Store)
    requires SameFor(id, a, b) && SameFor(id, b, c)
    ensures SameFor(id, a, c)
  {
  }

  lemma SameForSelf(id: nat, s: Store)
    ensures SameFor(id, s, s)
  {
  }

  /** Removing other sessions leaves this one and its files alone. */
  lemma WithoutOthers(id: nat, s: Store, gone: set<nat>, s': Store)
    requires Without(s, gone, s') && id !in gone
    ensures SameFor(id, s, s')
  {
  }

  /** A cleanup that has no reason to remove this session leaves it and its files alone. */
  lemma CleanupSpares(id: nat, s: Store, now: nat, ttl: nat, max: nat, s': Store)
    requires CleanedUp(s, now, ttl, max, s')
    requires id in s.sessions ==> !Expired(s.sessions[id], now, ttl) && |s.sessions| <= max
    ensures SameFor(id, s, s')
  {
    if id in s.sessions {
      LiveIsSubset(s, now, ttl);
      SubsetOfSameSize(s'.sessions.Keys, LiveAt(s, now, ttl));
      assert id in LiveAt(s, now, ttl);
    }
    hide Without, SameFor;
    WithoutOthers(id, s, s.sessions.Keys - s'.sessions.Keys, s');
  }

  lemma LiveIsSubset(s: Store, now: nat, ttl: nat)
    ensures |LiveAt(s, now, ttl)| <= |s.sessions|
  {
    SubsetIsSmaller(LiveAt(s, now, ttl), s.sessions.Keys);
  }

  lemma SubsetIsSmaller(a: set<nat>, b: set<nat>)
    requires a <= b
    ensures |a| <= |b|
  {
    assert |b - a| == |b| - |a|;
  }

  /** A descriptor the operating system may hand out while this message is handled. */
  predicate MayOpen(sessions: map<nat, Session>, open: map<nat, Path>, r: Request, fd: nat)
    requires r.Start?
  {
    fd !in open || (r.id in sessions && !Resumes(sessions[r.id], r) && sessions[r.id].fd == fd)
  }

  lemma ArrivedHandleable(s: Store, payload: seq<byte>, io: Io)
    requires Inv(s) && payload != []
    requires Parse(payload).Start? && io.fd.Some? ==> MayOpen(s.sessions, s.open, Parse(payload), io.fd.value)
    ensures Handleable(s, Parse(payload), io)
  {
    if Parse(payload).Start? {
      ParsedStart(payload);
    }
    hide Parse;
  }

  /**
   * Any number of messages that are malformed or for other ids, from any client, with any outcome of
   * their I/O, and of cleanups that find no reason to remove this session.
   */
  method OthersAct(server: FileTransferManager, id: nat)
    requires Inv(server.View())
    modifies server
    ensures Inv(server.View()) && SameFor(id, old(server.View()), server.View())
  {
    ghost var s0 := server.View();
    SameForSelf(id, s0);
    hide *;
    var n: nat := *;
    while n > 0
      invariant Inv(server.View()) && SameFor(id, s0, server.View())
    {
      OneActs(server, id, s0);
      n := n - 1;
    }
  }

  method OneActs(server: FileTransferManager, id: nat, ghost s0: Store)
    requires Inv(server.View()) && SameFor(id, s0, server.View())
    modifies server
    ensures Inv(server.View()) && SameFor(id, s0, server.View())
  {
    ghost var s := server.View();
    var now: nat := *;
    var cleanup: bool := *;
    if cleanup {
      var ttl: nat := *;
      var max: nat := *;
      if id in server.sessions && (Expired(server.sessions[id], now, ttl) || |server.sessions| > max) {
        return;
      }
      hide Inv, CleanedUp, SameFor;
      server.CleanupSessions(now, ttl, max);
      CleanupSpares(id, s, now, ttl, max, server.View());
    } else {
      var payload: seq<byte> := *;
      var io: Io := *;
      if payload == [] || !FromAnother(id, Parse(payload)) || !Possible(server.sessions, server.open, Parse(payload), io) {
        return;
      }
      hide Inv, SameFor, Parse, Handleable;
      ArrivedHandleable(s, payload, io);
      OthersLeaveAlone(id, s, Parse(payload), now, io);
      var replies := server.HandleClientMessage(payload, now, io);
    }
    SameForTwice(id, s0, s, server.View());
  }

  predicate FromAnother(id: nat, r: Request) {
    r.Malformed? || r.id != id
  }

  predicate Possible(sessions: map<nat, Session>, open: map<nat, Path>, r: Request, io: Io) {
    r.Start? && io.fd.Some? ==> MayOpen(sessions, open, r, io.fd.value)
  }
}
