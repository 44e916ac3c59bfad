/** The replay check of 0-RTT mode: a nonce is accepted once in any window of 300 seconds. */
module NonceWindow {
  import opened Bytes

  const TTL: nat := 300

  type Nonce = seq<byte>
  type Seen = map<Nonce, nat>

  /** The difference of two 64-bit clock readings, which wraps around when the clock has gone back. */
  function Elapsed(now: nat, then_: nat): (d: nat)
    requires now < U64 && then_ < U64
  {
    if now >= then_ then now - then_ else U64 - (then_ - now)
  }

  ghost predicate Valid(seen: Seen) {
    forall n :: n in seen ==> seen[n] < U64
  }

  function Pruned(seen: Seen, now: nat): (r: Seen)
    requires now < U64 && Valid(seen)
  {
    map n | n in seen && Elapsed(now, seen[n]) <= TTL :: seen[n]
  }

  function Judge(seen: Seen, nonce: Nonce, now: nat): (r: (Seen, bool))
    requires now < U64 && Valid(seen)
    ensures Valid(r.0)
  {
    var kept := Pruned(seen, now);
    if nonce == [] || nonce in kept then (kept, false) else (kept[nonce := now], true)
  }

  class NonceCache {
    var seen: Seen

    constructor ()
      ensures seen == map[]
    {
      seen := map[];
    }

    /** First the expired entries go, in whatever order they are walked; then the nonce is judged. */
    method AcceptNonce(nonce: Nonce, now: nat) returns (accepted: bool)
      requires now < U64 && Valid(seen)
      modifies this
      ensures (seen, accepted) == Judge(old(seen), nonce, now)
    {
      var todo := seen.Keys;
      while todo != {}
        invariant todo <= seen.Keys <= old(seen).Keys
        invariant forall n :: n in seen ==> seen[n] == old(seen)[n]
        invariant forall n :: n in seen && n !in todo ==> Elapsed(now, seen[n]) <= TTL
        invariant forall n :: n in old(seen) && n !in seen ==> Elapsed(now, old(seen)[n]) > TTL
        decreases todo
      {
        var n :| n in todo;
        if Elapsed(now, seen[n]) > TTL {
          seen := seen - {n};
        }
        todo := todo - {n};
      }
      assert seen == Pruned(old(seen), now);
      if nonce == [] || nonce in seen {
        return false;
      }
      seen := seen[nonce := now];
      accepted := true;
    }
  }

  // ---------------------------------------------------------------- sequences of calls

  datatype Call = Call(nonce: Nonce, now: nat)

  /** Clock readings are 64-bit numbers; nothing is said about their order. */
  ghost predicate Timed(calls: seq<Call>) {
    forall i :: 0 <= i < |calls| ==> calls[i].now < U64
  }

  /** The cache before the `k`-th call. */
  function SeenBefore(calls: seq<Call>, k: nat): (seen: Seen)
    requires Timed(calls) && k <= |calls|
    ensures Valid(seen)
    decreases k
  {
    if k == 0 then map[] else Judge(SeenBefore(calls, k - 1), calls[k - 1].nonce, calls[k - 1].now).0
  }

  predicate Accepts(calls: seq<Call>, k: nat)
    requires Timed(calls) && k < |calls|
  {
    Judge(SeenBefore(calls, k), calls[k].nonce, calls[k].now).1
  }

  /** At the `j`-th call the nonce of the `i`-th looks older than the window. */
  predicate Lapsed(calls: seq<Call>, i: nat, j: nat)
    requires Timed(calls) && i < |calls| && j < |calls|
  {
    Elapsed(calls[j].now, calls[i].now) > TTL
  }

  /** In numbers: more than 300 seconds later, or earlier, but not by nearly the whole range of the clock. */
  lemma LapsedMeans(calls: seq<Call>, i: nat, j: nat)
    requires Timed(calls) && i < |calls| && j < |calls|
    ensures Lapsed(calls, i, j) <==>
      if calls[j].now >= calls[i].now then calls[j].now - calls[i].now > 300
      else calls[i].now - calls[j].now < 0x1_0000_0000_0000_0000 - 300
  {
  }

  /** No call after the `i`-th and before the `k`-th has dropped its nonce. */
  ghost predicate Kept(calls: seq<Call>, i: nat, k: nat)
    requires Timed(calls) && i < k <= |calls|
  {
    forall j :: i < j < k ==> !Lapsed(calls, i, j)
  }

  /** The `i`-th call accepted `n` at time `t`, and it was kept. */
  ghost predicate CameFrom(calls: seq<Call>, k: nat, n: Nonce, t: nat, i: int)
    requires Timed(calls) && k <= |calls|
  {
    0 <= i < k && Accepts(calls, i) && Kept(calls, i, k) && calls[i] == Call(n, t)
  }

  /** What the cache holds of `n` comes from an accepted call whose nonce was kept. */
  ghost predicate Truthful(calls: seq<Call>, k: nat, n: Nonce)
    requires Timed(calls) && k <= |calls|
  {
    var seen := SeenBefore(calls, k);
    n in seen ==> exists i :: CameFrom(calls, k, n, seen[n], i)
  }

  /** The nonce of an accepted call is in the cache, with its time, as long as it was kept. */
  ghost predicate Held(calls: seq<Call>, k: nat, i: nat)
    requires Timed(calls) && i < k <= |calls|
  {
    var seen := SeenBefore(calls, k);
    Accepts(calls, i) && Kept(calls, i, k) ==> calls[i].nonce in seen && seen[calls[i].nonce] == calls[i].now
  }

  /** What one call makes of the cache. */
  lemma AfterCall(calls: seq<Call>, k: nat)
    requires Timed(calls) && k < |calls|
    ensures
      var kept, seen, call := Pruned(SeenBefore(calls, k), calls[k].now), SeenBefore(calls, k + 1), calls[k];
      && seen == (if Accepts(calls, k) then kept[call.nonce := call.now] else kept)
      && (Accepts(calls, k) <==> call.nonce != [] && call.nonce !in kept)
  {
  }

  lemma KeptOnce(calls: seq<Call>, i: nat, k: nat)
    requires Timed(calls) && i < k < |calls|
    ensures Kept(calls, i, k + 1) <==> Kept(calls, i, k) && !Lapsed(calls, i, k)
  {
  }

  lemma StaysTruthful(calls: seq<Call>, k: nat, n: Nonce)
    requires Timed(calls) && k < |calls| && Truthful(calls, k, n)
    ensures Truthful(calls, k + 1, n)
  {
    AfterCall(calls, k);
    var before, seen := SeenBefore(calls, k), SeenBefore(calls, k + 1);
    hide SeenBefore, Accepts;
    if n in seen {
      if n == calls[k].nonce && Accepts(calls, k) {
        assert CameFrom(calls, k + 1, n, seen[n], k);
      } else {
        var i :| CameFrom(calls, k, n, before[n], i);
        KeptOnce(calls, i, k);
        assert CameFrom(calls, k + 1, n, seen[n], i);
      }
    }
  }

  lemma StaysHeld(calls: seq<Call>, k: nat, i: nat)
    requires Timed(calls) && i < k < |calls| && Held(calls, k, i)
    ensures Held(calls, k + 1, i)
  {
    AfterCall(calls, k);
    KeptOnce(calls, i, k);
    hide SeenBefore, Accepts, Kept;
  }

  lemma NewlyHeld(calls: seq<Call>, k: nat)
    requires Timed(calls) && k < |calls|
    ensures Held(calls, k + 1, k)
  {
    AfterCall(calls, k);
  }

  lemma {:induction false} CacheRemembers(calls: seq<Call>, k: nat)
    requires Timed(calls) && k <= |calls|
    ensures forall n :: Truthful(calls, k, n)
    ensures forall i :: 0 <= i < k ==> Held(calls, k, i)
    decreases k
  {
    if k > 0 {
      CacheRemembers(calls, k - 1);
      hide Held, Truthful;
      forall n
        ensures Truthful(calls, k, n)
      {
        StaysTruthful(calls, k - 1, n);
      }
      NewlyHeld(calls, k - 1);
      forall i | 0 <= i < k
        ensures Held(calls, k, i)
      {
        if i < k - 1 {
          StaysHeld(calls, k - 1, i);
        }
      }
    }
  }

  /** An earlier acceptance of the same nonce that no call since, this one included, has taken for expired. */
  ghost predicate StillHeld(calls: seq<Call>, i: nat, k: nat)
    requires Timed(calls) && i < k < |calls|
  {
    calls[i].nonce == calls[k].nonce && Accepts(calls, i) && forall j :: i < j <= k ==> !Lapsed(calls, i, j)
  }

  lemma HeldIsRejected(calls: seq<Call>, i: nat, k: nat)
    requires Timed(calls) && i < k < |calls| && StillHeld(calls, i, k) && Held(calls, k, i)
    ensures !Accepts(calls, k)
  {
    AfterCall(calls, k);
    assert Kept(calls, i, k);
    hide SeenBefore, Accepts;
    assert !Lapsed(calls, i, k);
  }

  lemma SourceIsHeld(calls: seq<Call>, k: nat, t: nat, i: int)
    requires Timed(calls) && k < |calls| && CameFrom(calls, k, calls[k].nonce, t, i) && Elapsed(calls[k].now, t) <= TTL
    ensures 0 <= i < k && StillHeld(calls, i, k)
  {
    hide Accepts;
    assert !Lapsed(calls, i, k);
  }

  lemma RejectedIsHeld(calls: seq<Call>, k: nat) returns (i: int)
    requires Timed(calls) && k < |calls| && Truthful(calls, k, calls[k].nonce)
    requires calls[k].nonce != [] && !Accepts(calls, k)
    ensures 0 <= i < k && StillHeld(calls, i, k)
  {
    AfterCall(calls, k);
    hide Accepts, CameFrom, StillHeld, Judge;
    var seen, n := SeenBefore(calls, k), calls[k].nonce;
    i :| CameFrom(calls, k, n, seen[n], i);
    SourceIsHeld(calls, k, seen[n], i);
  }

  /**
   * The exact rule, whatever the clock does: a nonce is accepted if and only if it is not empty and
   * every earlier acceptance of it looked expired to some call since.
   */
  lemma AcceptedExactly(calls: seq<Call>, k: nat)
    requires Timed(calls) && k < |calls|
    ensures Accepts(calls, k) <==>
      && calls[k].nonce != []
      && forall i :: 0 <= i < k && calls[i].nonce == calls[k].nonce && Accepts(calls, i) ==>
           exists j :: i < j <= k && Lapsed(calls, i, j)
  {
    CacheRemembers(calls, k);
    AfterCall(calls, k);
    hide SeenBefore, Accepts, Truthful, Held, Lapsed, Pruned;
    if Accepts(calls, k) {
      forall i | 0 <= i < k && calls[i].nonce == calls[k].nonce && Accepts(calls, i)
        ensures exists j :: i < j <= k && Lapsed(calls, i, j)
      {
        if StillHeld(calls, i, k) {
          HeldIsRejected(calls, i, k);
        }
      }
    } else if calls[k].nonce != [] {
      assert Truthful(calls, k, calls[k].nonce);
      var i := RejectedIsHeld(calls, k);
    }
  }

  // ---------------------------------------------------------------- a clock that does not go back

  ghost predicate Clocked(calls: seq<Call>) {
    Timed(calls) && forall i, j :: 0 <= i < j < |calls| ==> calls[i].now <= calls[j].now
  }

  lemma LapsedBefore(calls: seq<Call>, i: nat, k: nat)
    requires Clocked(calls) && i < k < |calls|
    ensures (exists j :: i < j <= k && Lapsed(calls, i, j)) <==> calls[k].now - calls[i].now > TTL
  {
    assert calls[i].now <= calls[k].now;
    if j :| i < j <= k && Lapsed(calls, i, j) {
      assert calls[i].now <= calls[j].now <= calls[k].now;
    } else {
      assert !Lapsed(calls, i, k);
    }
  }

  /**
   * The window: with a clock that does not go back, a nonce is accepted if and only if it is not
   * empty and was not accepted in the 300 seconds before.
   */
  lemma AcceptedOncePerWindow(calls: seq<Call>, k: nat)
    requires Clocked(calls) && k < |calls|
    ensures Accepts(calls, k) <==>
      && calls[k].nonce != []
      && forall i :: 0 <= i < k && calls[i].nonce == calls[k].nonce && Accepts(calls, i) ==> calls[k].now - calls[i].now > 300
  {
    AcceptedExactly(calls, k);
    hide Accepts;
    forall i | 0 <= i < k && calls[i].nonce == calls[k].nonce && Accepts(calls, i)
      ensures (exists j :: i < j <= k && Lapsed(calls, i, j)) <==> calls[k].now - calls[i].now > TTL
    {
      LapsedBefore(calls, i, k);
    }
  }

  // ---------------------------------------------------------------- a clock set back

  /**
   * Two calls with the same nonce are both accepted exactly if the second one comes more than 300
   * seconds later or, because the subtraction wraps, with the clock set back at all.
   */
  lemma ReplayAfterClockSetBack(nonce: Nonce, t: nat, t': nat)
    requires nonce != [] && t < U64 - 300 && t' < U64
    ensures Timed([Call(nonce, t), Call(nonce, t')]) && Accepts([Call(nonce, t), Call(nonce, t')], 0)
    ensures Accepts([Call(nonce, t), Call(nonce, t')], 1) <==> t' < t || t' > t + 300
  {
    var calls := [Call(nonce, t), Call(nonce, t')];
    AcceptedExactly(calls, 0);
    AcceptedExactly(calls, 1);
    hide Accepts;
    LapsedMeans(calls, 0, 1);
    assert Lapsed(calls, 0, 1) <==> t' < t || t' > t + 300;
    assert (exists j :: 0 < j <= 1 && Lapsed(calls, 0, j)) <==> Lapsed(calls, 0, 1);
  }

  /** For instance one second back: the replay goes through. */
  lemma ReplayOneSecondBack()
    ensures
      var calls := [Call([7], 1000), Call([7], 999)];
      Timed(calls) && Accepts(calls, 0) && Accepts(calls, 1)
  {
    ReplayAfterClockSetBack([7], 1000, 999);
  }
}
