/** Whole runs of allocations and deallocations, as a client that remembers what it was given sees them. */
module PoolRuns {
  import opened Types
  import opened MemoryPool

  datatype Step =
    | Take(id: OrderId, quantity: int, lifetime: RestingLifetime, side: Side)
    | GiveBack(index: nat)   // among the blocks now held, oldest first

  /** How many blocks are held after the steps. */
  function Held(n: nat, steps: seq<Step>): nat
    requires Possible(n, steps)
    decreases |steps|
  {
    if steps == [] then n
    else Held(if steps[0].Take? then n + 1 else n - 1, steps[1..])
  }

  /** Only blocks that are held are given back. */
  predicate Possible(n: nat, steps: seq<Step>)
    decreases |steps|
  {
    steps == []
    || (steps[0].Take? && Possible(n + 1, steps[1..]))
    || (steps[0].GiveBack? && steps[0].index < n && Possible(n - 1, steps[1..]))
  }

  /** The most blocks ever held at once. */
  function Peak(n: nat, steps: seq<Step>): (p: nat)
    requires Possible(n, steps)
    ensures p >= n
    decreases |steps|
  {
    if steps == [] then n
    else
      var later := Peak(if steps[0].Take? then n + 1 else n - 1, steps[1..]);
      if later < n then n else later
  }

  function Cut(held: seq<nat>, i: nat): seq<nat>
    requires i < |held|
  {
    held[..i] + held[i + 1..]
  }

  /** The blocks held are the live blocks, none twice. */
  ghost predicate Owns(blocks: Blocks, held: seq<nat>) {
    Distinct(held) && forall k: nat :: k in held <==> IsLive(blocks, k)
  }

  lemma OwnsMore(before: Blocks, after: Blocks, held: seq<nat>, k: nat, order: RestingOrder)
    requires Owns(before, held) && Placed(before, after, k, order)
    ensures k !in held && Owns(after, held + [k])
  {
  }

  lemma OwnsLess(before: Blocks, held: seq<nat>, i: nat, first: Pointer)
    requires Owns(before, held) && i < |held| && held[i] < |before|
    ensures Owns(before[held[i] := Free(first)], Cut(held, i))
  {
    var after, rest := before[held[i] := Free(first)], Cut(held, i);
    forall k: nat ensures k in rest <==> IsLive(after, k) {
      if k in rest {
        var j :| 0 <= j < |rest| && rest[j] == k;
        assert held[if j < i then j else j + 1] == k;
        assert k in held && k != held[i];
      }
      if IsLive(after, k) {
        assert k in held;
        var j :| 0 <= j < |held| && held[j] == k;
        assert rest[if j < i then j else j - 1] == k;
      }
    }
  }

  /** The size of the pool is the smallest doubling of its first slab that holds the peak. */
  ghost predicate Tight(initial: nat, slabs: nat, total: nat, peak: nat) {
    && slabs >= 1 && total == Capacity(initial, slabs - 1) && peak <= total
    && (slabs > 1 ==> Capacity(initial, slabs - 2) < peak)
  }

  lemma OwnedSize(blocks: Blocks, held: seq<nat>)
    requires Owns(blocks, held)
    ensures |held| == |LiveBlocks(blocks)|
  {
    DistinctHasSize(held);
    assert Elements(held) == LiveBlocks(blocks);
  }

  function Max(a: nat, b: nat): nat {
    if a < b then b else a
  }

  lemma TightAfterTake(initial: nat, slabs: nat, total: nat, peak: nat, held: nat, exhausted: bool)
    requires Tight(initial, slabs, total, peak) && total >= 1 && held <= total && (exhausted <==> held == total)
    ensures exhausted ==> Tight(initial, slabs + 1, 2 * total, Max(peak, held + 1))
    ensures !exhausted ==> Tight(initial, slabs, total, Max(peak, held + 1))
  {
  }

  lemma HeldIsAllocated(pool: MemoryPool, held: seq<nat>)
    requires pool.Valid() && Owns(pool.blocks, held)
    ensures |held| == pool.currentlyAllocated <= pool.totalElements && pool.totalElements >= 1
    ensures pool.firstFree.None? <==> |held| == pool.totalElements
    ensures pool.totalElements == Capacity(pool.initial, |pool.slabs| - 1)
  {
    hide Distinct;
    FreeAndLivePartition(pool.blocks, pool.firstFree, pool.freeList);
    OwnedSize(pool.blocks, held);
  }

  /** One allocation: a block not held before, and growth only when all blocks are held. */
  method Request(pool: MemoryPool, held: seq<nat>, step: Step, ghost peak: nat) returns (more: seq<nat>)
    requires pool.Valid() && Owns(pool.blocks, held) && step.Take?
    requires Tight(pool.initial, |pool.slabs|, pool.totalElements, peak)
    modifies pool
    ensures pool.Valid() && Owns(pool.blocks, more) && |more| == |held| + 1
    ensures Tight(pool.initial, |pool.slabs|, pool.totalElements, Max(peak, |held| + 1))
  {
    hide MemoryPool.Valid, Owns, Placed, Tight;
    HeldIsAllocated(pool, held);
    TightAfterTake(pool.initial, |pool.slabs|, pool.totalElements, peak, |held|, pool.firstFree.None?);
    ghost var before := pool.blocks;
    var k := pool.Allocate(step.id, step.quantity, step.lifetime, step.side);
    OwnsMore(before, pool.blocks, held, k,
             RestingOrder(None, None, null, step.id, step.quantity, step.lifetime, step.side));
    more := held + [k];
    HeldIsAllocated(pool, more);
  }

  method Return(pool: MemoryPool, held: seq<nat>, index: nat) returns (fewer: seq<nat>)
    requires pool.Valid() && Owns(pool.blocks, held) && index < |held|
    modifies pool
    ensures pool.Valid() && Owns(pool.blocks, fewer) && |fewer| == |held| - 1
    ensures |pool.slabs| == old(|pool.slabs|) && pool.totalElements == old(pool.totalElements)
  {
    hide MemoryPool.Valid;
    assert held[index] in held;
    OwnsLess(pool.blocks, held, index, pool.firstFree);
    HeldIsAllocated(pool, held);
    pool.Deallocate(held[index]);
    fewer := Cut(held, index);
    HeldIsAllocated(pool, fewer);
  }

  lemma NothingHeld(pool: MemoryPool)
    requires pool.Valid() && AllFree(pool.blocks) && |pool.slabs| == 1
    ensures Owns(pool.blocks, []) && Tight(pool.initial, 1, pool.totalElements, 0)
  {
  }

  /** Over any run from a new pool: no block is handed out while it is held, the blocks held are exactly the live ones,
      and the pool is no larger than doubling up to the peak demands. */
  method RunSteps(pool: MemoryPool, steps: seq<Step>) returns (held: seq<nat>)
    requires pool.Valid() && AllFree(pool.blocks) && |pool.slabs| == 1 && Possible(0, steps)
    modifies pool
    ensures pool.Valid() && Owns(pool.blocks, held) && |held| == Held(0, steps)
    ensures Tight(pool.initial, |pool.slabs|, pool.totalElements, Peak(0, steps))
  {
    hide MemoryPool.Valid, Owns, Tight;
    held := [];
    ghost var peak := 0;
    NothingHeld(pool);
    for i := 0 to |steps|
      invariant pool.Valid() && Owns(pool.blocks, held) && Possible(|held|, steps[i..])
      invariant Held(0, steps) == Held(|held|, steps[i..])
      invariant |held| <= peak
      invariant Peak(0, steps) == Max(peak, Peak(|held|, steps[i..]))
      invariant Tight(pool.initial, |pool.slabs|, pool.totalElements, peak)
    {
      assert steps[i..][0] == steps[i] && steps[i..][1..] == steps[i + 1..];
      if steps[i].Take? {
        held := Request(pool, held, steps[i], peak);
        peak := Max(peak, |held|);
      } else {
        held := Return(pool, held, steps[i].index);
      }
    }
  }
}
