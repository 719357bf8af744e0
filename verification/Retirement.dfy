/** What the book does with an order that leaves it: forget the id, free the memory. */
module Retirement {
  import opened Types
  import opened MemoryPool

  type IdMap = map<OrderId, nat>

  method RetireOrder(pool: MemoryPool, ids: IdMap, order: nat) returns (remaining: IdMap)
    requires pool.Valid() && IsLive(pool.blocks, order)
    modifies pool
    ensures pool.Valid()
    ensures remaining == ids - {old(pool.blocks)[order].order.id}
    ensures pool.blocks == old(pool.blocks)[order := Free(old(pool.firstFree))]
    ensures pool.currentlyAllocated == old(pool.currentlyAllocated) - 1
    ensures pool.slabs == old(pool.slabs)
  {
    remaining := ids - {pool.blocks[order].order.id};
    pool.Deallocate(order);
  }
}
