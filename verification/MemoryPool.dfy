/**
 * The pool of read buffers: preallocated blocks on a free list, with the heap to fall back on, and the
 * guards that borrow one block each. A block is known by its address.
 */
module MemoryPool {
  import opened Bytes

  type Address = nat

  /** The preallocated blocks, the free ones, the live heap blocks, and the counters of fallbacks and deletions. */
  datatype Pool = Pool(owned: seq<Address>, free: seq<Address>, heap: set<Address>, fallbacks: nat, deleted: nat)

  /** Borrows the block freed last; with none free, one from the heap, which `fresh` is the address of. */
  function Acquired(p: Pool, newBlock: Address): (r: (Pool, Address)) {
    if p.free != [] then (p.(free := p.free[..|p.free| - 1]), p.free[|p.free| - 1])
    else (p.(heap := p.heap + {newBlock}, fallbacks := p.fallbacks + 1), newBlock)
  }

  /** Deleting what is not a live heap block is undefined; that it never happens is part of what is proved. */
  function Released(p: Pool, a: Address): Pool
    requires a in p.owned || a in p.heap
  {
    if a in p.owned then p.(free := p.free + [a])
    else p.(heap := p.heap - {a}, deleted := p.deleted + 1)
  }

  // ---------------------------------------------------------------- the object

  class MemoryPool {
    var ownedBlocks: seq<Address>
    var freeList: seq<Address>
    /** Live heap blocks: known to the allocator, not to the pool. */
    ghost var heap: set<Address>
    ghost var deleted: nat
    var heapFallbackTotal: nat

    ghost function View(): Pool
      reads this
    {
      Pool(ownedBlocks, freeList, heap, heapFallbackTotal, deleted)
    }

    /** The blocks are allocated one after the other and all put on the free list. */
    constructor (blocks: seq<Address>)
      ensures View() == Pool(blocks, blocks, {}, 0, 0)
    {
      ownedBlocks, freeList, heap, deleted, heapFallbackTotal := [], [], {}, 0, 0;
      new;
      for i := 0 to |blocks|
        invariant ownedBlocks == freeList == blocks[..i] && heap == {} && deleted == 0 && heapFallbackTotal == 0
      {
        ownedBlocks := ownedBlocks + [blocks[i]];
        freeList := freeList + [blocks[i]];
      }
      assert blocks[..|blocks|] == blocks;
    }

    method IsOwnedPointer(a: Address) returns (owned: bool)
      ensures owned <==> a in ownedBlocks
    {
      for i := 0 to |ownedBlocks|
        invariant a !in ownedBlocks[..i]
      {
        if ownedBlocks[i] == a {
          return true;
        }
      }
      owned := false;
    }

    method Acquire(newBlock: Address) returns (a: Address)
      modifies this
      ensures (View(), a) == Acquired(old(View()), newBlock)
    {
      if freeList != [] {
        a := freeList[|freeList| - 1];
        freeList := freeList[..|freeList| - 1];
        return;
      }
      heapFallbackTotal := heapFallbackTotal + 1;
      heap := heap + {newBlock};
      a := newBlock;
    }

    /** Nothing happens for a null pointer. */
    method Release(p: Option<Address>)
      requires p.Some? ==> p.value in ownedBlocks || p.value in heap
      modifies this
      ensures View() == if p.None? then old(View()) else Released(old(View()), p.value)
    {
      if p.None? {
        return;
      }
      var owned := IsOwnedPointer(p.value);
      if owned {
        freeList := freeList + [p.value];
        return;
      }
      heap := heap - {p.value};
      deleted := deleted + 1;
    }
  }

  // ---------------------------------------------------------------- guards over time

  /** The pool, and the block each live guard holds. */
  datatype System = System(pool: Pool, held: map<nat, Address>)

  datatype Action = Open(guard: nat, newBlock: Address) | Shut(guard: nat)

  ghost predicate Distinct(s: seq<Address>) {
    forall i, j :: 0 <= i < j < |s| ==> s[i] != s[j]
  }

  /** A new guard; the heap never hands out the address of a block that is in use. */
  ghost predicate Enabled(s: System, a: Action) {
    match a
    case Open(g, f) => g !in s.held && f !in s.pool.owned && f !in s.pool.heap
    case Shut(g) => g in s.held
  }

  ghost predicate Inv(s: System) {
    && Distinct(s.pool.owned) && Distinct(s.pool.free)
    && (forall a :: a in s.pool.free ==> a in s.pool.owned)
    && (forall a :: a in s.pool.heap ==> a !in s.pool.owned)
    && (forall g :: g in s.held ==> s.held[g] in s.pool.heap || (s.held[g] in s.pool.owned && s.held[g] !in s.pool.free))
    && (forall a :: a in s.pool.heap || (a in s.pool.owned && a !in s.pool.free) ==> a in s.held.Values)
    && (forall g, h :: g in s.held && h in s.held && s.held[g] == s.held[h] ==> g == h)
    && s.pool.fallbacks == s.pool.deleted + |s.pool.heap|
  }

  function Next(s: System, a: Action): System
    requires Inv(s) && Enabled(s, a)
  {
    match a
    case Open(g, f) =>
      var (pool, block) := Acquired(s.pool, f);
      System(pool, s.held[g := block])
    case Shut(g) => System(Released(s.pool, s.held[g]), s.held - {g})
  }

  lemma DropLast(free: seq<Address>)
    requires Distinct(free) && free != []
    ensures
      var rest, a := free[..|free| - 1], free[|free| - 1];
      Distinct(rest) && a !in rest && forall x :: x in free <==> x == a || x in rest
  {
    var rest, a := free[..|free| - 1], free[|free| - 1];
    assert free == rest + [a];
  }

  lemma OpenKeepsInv(s: System, g: nat, f: Address)
    requires Inv(s) && Enabled(s, Open(g, f))
    ensures Inv(Next(s, Open(g, f)))
  {
    var s' := Next(s, Open(g, f));
    if s.pool.free != [] {
      DropLast(s.pool.free);
    }
    forall a | a in s'.pool.heap || (a in s'.pool.owned && a !in s'.pool.free)
      ensures a in s'.held.Values
    {
      if a == s'.held[g] {
      } else {
        var h :| h in s.held && s.held[h] == a;
        assert h in s'.held && s'.held[h] == a;
      }
    }
  }

  lemma AddFree(free: seq<Address>, a: Address)
    requires Distinct(free) && a !in free
    ensures Distinct(free + [a]) && forall x :: x in free + [a] <==> x == a || x in free
  {
  }

  lemma ShutKeepsInv(s: System, g: nat)
    requires Inv(s) && Enabled(s, Shut(g))
    ensures Inv(Next(s, Shut(g)))
  {
    var s' := Next(s, Shut(g));
    if s.held[g] in s.pool.owned {
      AddFree(s.pool.free, s.held[g]);
    }
    hide Distinct;
    forall a | a in s'.pool.heap || (a in s'.pool.owned && a !in s'.pool.free)
      ensures a in s'.held.Values
    {
      var h :| h in s.held && s.held[h] == a;
      assert h in s'.held && s'.held[h] == a;
    }
  }

  ghost predicate Run(blocks: seq<Address>, states: seq<System>, actions: seq<Action>) {
    && Distinct(blocks)
    && |states| == |actions| + 1 && states[0] == System(Pool(blocks, blocks, {}, 0, 0), map[])
    && forall i :: 0 <= i < |actions| && Inv(states[i]) ==>
         Enabled(states[i], actions[i]) && states[i + 1] == Next(states[i], actions[i])
  }

  lemma {:induction false} RunKeepsInv(blocks: seq<Address>, states: seq<System>, actions: seq<Action>, n: nat)
    requires Run(blocks, states, actions) && n < |states|
    ensures Inv(states[n]) && states[n].pool.owned == blocks
    decreases n
  {
    if n > 0 {
      RunKeepsInv(blocks, states, actions, n - 1);
      match actions[n - 1]
      case Open(g, f) => OpenKeepsInv(states[n - 1], g, f);
      case Shut(g) => ShutKeepsInv(states[n - 1], g);
    }
  }

  ghost function LentOwned(s: System): set<Address> {
    set g | g in s.held && s.held[g] in s.pool.owned :: s.held[g]
  }

  /** The free list and the lent blocks partition the preallocated ones, and no block is lent twice. */
  lemma BlocksPartitioned(blocks: seq<Address>, states: seq<System>, actions: seq<Action>, n: nat)
    requires Run(blocks, states, actions) && n < |states|
    ensures
      var s := states[n];
      && Distinct(s.pool.free)
      && (set a | a in blocks) == (set a | a in s.pool.free) + LentOwned(s)
      && (set a | a in s.pool.free) !! LentOwned(s)
      && (forall g, h :: g in s.held && h in s.held && g != h ==> s.held[g] != s.held[h])
  {
    RunKeepsInv(blocks, states, actions, n);
    var s := states[n];
    forall a | a in blocks && a !in s.pool.free
      ensures a in LentOwned(s)
    {
      var g :| g in s.held && s.held[g] == a;
    }
  }

  /** The heap is used only when every preallocated block is lent. */
  lemma FallbackOnlyWhenAllLent(blocks: seq<Address>, states: seq<System>, actions: seq<Action>, n: nat)
    requires Run(blocks, states, actions) && n < |actions|
    requires states[n + 1].pool.fallbacks != states[n].pool.fallbacks
    ensures forall a :: a in blocks ==> exists g :: g in states[n].held && states[n].held[g] == a
  {
    RunKeepsInv(blocks, states, actions, n);
    forall a | a in blocks
      ensures exists g :: g in states[n].held && states[n].held[g] == a
    {
      assert a !in states[n].pool.free;
      assert a in states[n].held.Values;
    }
  }

  /**
   * Every heap block that was handed out is either held by a guard or has been deleted, once: deletions
   * hit live blocks only, and with no guard alive as many were deleted as were handed out.
   */
  lemma HeapBlocksDeletedOnce(blocks: seq<Address>, states: seq<System>, actions: seq<Action>, n: nat)
    requires Run(blocks, states, actions) && n < |states|
    ensures states[n].pool.fallbacks == states[n].pool.deleted + |states[n].pool.heap|
    ensures forall a :: a in states[n].pool.heap <==> a in states[n].held.Values && a !in blocks
    ensures n < |actions| && actions[n].Shut? && actions[n].guard in states[n].held && states[n].held[actions[n].guard] !in blocks ==>
      && states[n].held[actions[n].guard] in states[n].pool.heap
      && states[n + 1].pool.heap == states[n].pool.heap - {states[n].held[actions[n].guard]}
    ensures states[n].held == map[] ==> states[n].pool.deleted == states[n].pool.fallbacks
  {
    RunKeepsInv(blocks, states, actions, n);
    var s := states[n];
    if s.held == map[] {
      assert s.pool.heap == {};
    }
  }

  /** The block freed last is lent next, and the pool is as it was. */
  lemma LastFreedFirst(p: Pool, a: Address, newBlock: Address)
    requires a in p.owned
    ensures Acquired(Released(p, a), newBlock) == (p, a)
  {
    assert (p.free + [a])[..|p.free|] == p.free;
  }
}
