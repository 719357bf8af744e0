/** A price level: an intrusive doubly linked FIFO of resting orders. */
module PriceLevel {
  import opened Types
  import opened MemoryPool
  import opened PriceTime
  import opened Chains
  import opened Pruning
  import opened Retirement

  class PriceLevel {
    var head: Pointer
    var tail: Pointer
    const price: Price
    ghost const side: Side   // of the ladder the level belongs to
    var totalVolume: int
    var orderCount: int
    ghost var orders: seq<nat>

    ghost predicate Valid(blocks: Blocks)
      reads this
    {
      && Chain(blocks, this, orders)
      && head == Element(orders, 0)
      && tail == Element(orders, |orders| - 1)
      && orderCount == |orders| <= UINT32_MAX
      && totalVolume == WrapU64(Shares(View(blocks, price, orders)))
    }

    ghost predicate IsNew()
      reads this
    {
      head.None? && tail.None? && totalVolume == 0 && orderCount == 0 && orders == []
    }

    lemma Facts(blocks: Blocks)
      requires Valid(blocks)
      ensures Chain(blocks, this, orders) && orderCount == |orders| <= UINT32_MAX
      ensures head == Element(orders, 0)
    {
    }

    /** A change confined to another level leaves this one valid, with the same orders. */
    lemma Untouched(before: Blocks, after: Blocks, touched: object?)
      requires Valid(before) && Confined(before, after, touched) && touched != this
      ensures Valid(after) && View(after, price, orders) == View(before, price, orders)
    {
      hide Chain, View, Confined;
      OtherChain(before, after, touched, this, price, orders);
    }

    constructor (price: Price, ghost side: Side)
      ensures this.price == price && this.side == side && IsNew() && fresh(this)
    {
      head, tail := None, None;
      this.price, this.side := price, side;
      totalVolume, orderCount := 0, 0;
      orders := [];
    }

    predicate Empty()
      reads this
    {
      orderCount == 0
    }

    method PushBack(pool: MemoryPool, newOrder: nat)
      requires pool.Valid() && Valid(pool.blocks)
      requires IsLive(pool.blocks, newOrder) && pool.blocks[newOrder].order.level == null
      requires IsInt32(pool.blocks[newOrder].order.quantity)
      requires pool.blocks[newOrder].order.prev.None?
      requires orderCount < UINT32_MAX
      modifies this, pool`blocks
      ensures pool.Valid() && Valid(pool.blocks)
      ensures orders == old(orders) + [newOrder]
      ensures Relinked(old(pool.blocks), pool.blocks, orders)
      ensures Confined(old(pool.blocks), pool.blocks, this)
    {
      hide Threaded, Chain, Relinked, LinkBack, Shares, View, Confined, WrapU64;
      UnlinkedIsAbsent(pool.blocks, this, orders, newOrder);
      Appended(pool.blocks, this, price, orders, newOrder, pool.firstFree, pool.freeList);
      WrapU64Adds(Shares(View(pool.blocks, price, orders)), pool.blocks[newOrder].order.quantity);
      pool.blocks := WriteBackLinks(pool.blocks, this, tail, newOrder);
      if tail.None? {
        head := Some(newOrder);
      }
      tail := Some(newOrder);
      totalVolume := WrapU64(totalVolume + pool.blocks[newOrder].order.quantity);
      orderCount := (orderCount + 1) % TWO_TO_32;
      orders := orders + [newOrder];
    }

    /** Takes out the oldest order; null when there is none. */
    method PopFront(pool: MemoryPool) returns (order: Pointer)
      requires pool.Valid() && Valid(pool.blocks)
      modifies this, pool`blocks
      ensures pool.Valid() && Valid(pool.blocks)
      ensures order == Element(old(orders), 0)
      ensures orders == if old(orders) == [] then [] else Without(old(orders), 0)
      ensures order.Some? ==> Released(old(pool.blocks), pool.blocks, old(orders), order.value)
      ensures Confined(old(pool.blocks), pool.blocks, this)
      ensures order.None? ==> pool.blocks == old(pool.blocks)
    {
      hide Threaded, Chain, Relinked, Unlink, Shares, View, Released, WrapU64;
      if head.None? {
        return None;
      }
      Unlinked(pool.blocks, this, price, orders, 0, pool.firstFree, pool.freeList);
      WrapU64Adds(Shares(View(pool.blocks, price, orders)), -pool.blocks[orders[0]].order.quantity);
      order := head;
      head := pool.blocks[order.value].order.next;
      pool.blocks := WriteUnlinked(pool.blocks, order.value);
      if head.None? {
        tail := None;
      }
      totalVolume := WrapU64(totalVolume - pool.blocks[order.value].order.quantity);
      orderCount := (orderCount - 1) % TWO_TO_32;
      orders := Without(orders, 0);
    }

    /** Takes out an order from any position; answers whether the level is now empty. */
    method RemoveOrder(pool: MemoryPool, order: nat) returns (nowEmpty: bool)
      requires pool.Valid() && Valid(pool.blocks) && order in orders
      modifies this, pool`blocks
      ensures pool.Valid() && Valid(pool.blocks)
      ensures orders == Without(old(orders), IndexOf(old(orders), order))
      ensures Released(old(pool.blocks), pool.blocks, old(orders), order)
      ensures Confined(old(pool.blocks), pool.blocks, this)
      ensures nowEmpty == (orders == [])
    {
      hide Threaded, Chain, Relinked, Unlink, Shares, View, Released, WrapU64;
      ghost var i := IndexOf(orders, order);
      Unlinked(pool.blocks, this, price, orders, i, pool.firstFree, pool.freeList);
      WrapU64Adds(Shares(View(pool.blocks, price, orders)), -pool.blocks[order].order.quantity);
      var prev, next := pool.blocks[order].order.prev, pool.blocks[order].order.next;
      pool.blocks := WriteUnlinked(pool.blocks, order);
      if prev.None? {
        head := next;
      }
      if next.None? {
        tail := prev;
      }
      totalVolume := WrapU64(totalVolume - pool.blocks[order].order.quantity);
      orderCount := (orderCount - 1) % TWO_TO_32;
      orders := Without(orders, i);
      nowEmpty := Empty();
    }

    /** A partial fill of the oldest order, which keeps its place. */
    method TakeSharesFromFirst(pool: MemoryPool, sharesTaken: int)
      requires pool.Valid() && Valid(pool.blocks) && orders != []
      requires IsInt32(OrderAt(pool.blocks, orders[0]).quantity - sharesTaken)
      modifies this`totalVolume, pool`blocks
      ensures pool.Valid() && Valid(pool.blocks)
      ensures pool.blocks
           == WithQuantity(old(pool.blocks), orders[0], OrderAt(old(pool.blocks), orders[0]).quantity - sharesTaken)
      ensures Confined(old(pool.blocks), pool.blocks, this)
    {
      hide Threaded, Chain, Shares, View, WrapU64;
      ghost var left := OrderAt(pool.blocks, orders[0]).quantity - sharesTaken;
      Requantified(pool.blocks, this, price, orders, 0, left, pool.firstFree, pool.freeList);
      WrapU64Adds(Shares(View(pool.blocks, price, orders)), -sharesTaken);
      pool.blocks := WithQuantity(pool.blocks, head.value, pool.blocks[head.value].order.quantity - sharesTaken);
      totalVolume := WrapU64(totalVolume - sharesTaken);
    }

    method ReduceOrderQuantity(pool: MemoryPool, order: nat, quantityReduced: int)
      requires pool.Valid() && Valid(pool.blocks) && order in orders
      requires quantityReduced <= OrderAt(pool.blocks, order).quantity
      requires IsInt32(OrderAt(pool.blocks, order).quantity - quantityReduced)
      modifies this`totalVolume, pool`blocks
      ensures pool.Valid() && Valid(pool.blocks)
      ensures pool.blocks
           == WithQuantity(old(pool.blocks), order, OrderAt(old(pool.blocks), order).quantity - quantityReduced)
      ensures Confined(old(pool.blocks), pool.blocks, this)
    {
      hide Threaded, Chain, Shares, View, WrapU64;
      ghost var i, left := IndexOf(orders, order), OrderAt(pool.blocks, order).quantity - quantityReduced;
      Requantified(pool.blocks, this, price, orders, i, left, pool.firstFree, pool.freeList);
      WrapU64Adds(Shares(View(pool.blocks, price, orders)), -quantityReduced);
      pool.blocks := WithQuantity(pool.blocks, order, pool.blocks[order].order.quantity - quantityReduced);
      totalVolume := WrapU64(totalVolume - quantityReduced);
    }

    /** Unlinks one order and hands it to the retirement callback, which frees its memory. */
    method PruneOrder(pool: MemoryPool, ids: IdMap, order: nat) returns (remaining: IdMap)
      requires pool.Valid() && Valid(pool.blocks) && order in orders
      modifies this, pool
      ensures pool.Valid() && Valid(pool.blocks)
      ensures orders == Without(old(orders), IndexOf(old(orders), order))
      ensures Erased(old(pool.blocks), pool.blocks, old(orders), order)
      ensures Confined(old(pool.blocks), pool.blocks, this)
      ensures remaining == ids - {OrderAt(old(pool.blocks), order).id}
      ensures pool.currentlyAllocated == old(pool.currentlyAllocated) - 1 && pool.slabs == old(pool.slabs)
    {
      hide Threaded, Chain, Shares, View, Relinked;
      ghost var before, chain := pool.blocks, orders;
      NodeOf(before, this, chain, order);
      var nowEmpty := RemoveOrder(pool, order);
      ghost var unlinked := pool.blocks;
      OrderIsKept(before, unlinked, chain, order);
      remaining := RetireOrder(pool, ids, order);
      ErasedAfterRelease(before, unlinked, chain, order, pool.blocks);
      ErasedIsConfined(before, pool.blocks, this, chain, order);
      RemovedIsAbsent(before, this, chain, IndexOf(chain, order));
      ChainFrame(unlinked, pool.blocks, this, price, orders);
    }

    /** Walks the whole level, pruning its DAY orders. The walk keeps its place although each pruned
        order's memory is freed under it. Shares are totalled in 32 signed bits. */
    method PruneDayOrders(pool: MemoryPool, ids: IdMap) returns (stats: LevelPruneStats, remaining: IdMap)
      requires pool.Valid() && Valid(pool.blocks)
      modifies this, pool
      ensures pool.Valid() && Valid(pool.blocks)
      ensures orders == Kept(old(pool.blocks), old(orders))
      ensures Pruned(old(pool.blocks), pool.blocks, old(orders))
      ensures Confined(old(pool.blocks), pool.blocks, this)
      ensures Tally(View(old(pool.blocks), price, old(orders)), ids, stats, remaining)
      ensures pool.currentlyAllocated == old(pool.currentlyAllocated) - stats.ordersPruned
      ensures pool.slabs == old(pool.slabs)
      ensures View(pool.blocks, price, orders)
           == WithLifetime(View(old(pool.blocks), price, old(orders)), GoodTillCancel)
    {
      hide Threaded, Chain, Shares, View, Pruned, Progress, Walked, Kept, Erased, WithLifetime, WrapI32, Tally, Layout;
      hide MemoryPool.Valid;
      ghost var before, chain := pool.blocks, orders;
      ghost var j := 0;
      ProgressStarts(before, this, price, chain, ids);
      remaining := ids;
      stats := LevelPruneStats(0, 0);
      var ptr := head;
      while ptr.Some?
        invariant j <= |chain| && ptr == Element(chain, j)
        invariant pool.Valid() && Valid(pool.blocks)
        invariant Progress(before, pool.blocks, price, chain, orders, j, ids, stats, remaining)
        invariant pool.currentlyAllocated == old(pool.currentlyAllocated) - stats.ordersPruned
        invariant pool.slabs == old(pool.slabs)
        decreases |chain| - j
      {
        NextRead(before, pool.blocks, this, price, chain, orders, j, ids, stats, remaining);
        var order := pool.blocks[ptr.value].order;
        var next := order.next;
        if order.lifetime == DayOnly {
          ghost var mid, was, tally := pool.blocks, orders, (stats, remaining);
          stats := LevelPruneStats(stats.ordersPruned + 1, WrapI32(stats.quantityPruned + order.quantity));
          remaining := PruneOrder(pool, remaining, ptr.value);
          ProgressPrunes(before, mid, pool.blocks, this, price, chain, was, j, ids, tally.0, tally.1);
        } else {
          ProgressSkips(before, pool.blocks, this, price, chain, orders, j, ids, stats, remaining);
        }
        ptr := next;
        j := j + 1;
      }
      ProgressEnds(before, pool.blocks, this, price, chain, orders, ids, stats, remaining);
    }
  }

  /** The pointer writes of linking an order behind the tail of a level. */
  method WriteBackLinks(blocks: Blocks, level: object, tail: Pointer, newOrder: nat) returns (memory: Blocks)
    requires IsLive(blocks, newOrder) && (tail.Some? ==> IsLive(blocks, tail.value))
    ensures memory == LinkBack(blocks, level, tail, newOrder)
  {
    memory := blocks;
    if tail.Some? {
      memory := WithPrev(memory, newOrder, tail);
      memory := WithNext(memory, tail.value, Some(newOrder));
    }
    memory := WithNext(memory, newOrder, None);
    memory := WithLevel(memory, newOrder, level);
  }

  /** The pointer writes of taking an order out from between its neighbours. */
  method WriteUnlinked(blocks: Blocks, order: nat) returns (memory: Blocks)
    requires Detachable(blocks, order)
    ensures memory == Unlink(blocks, order)
  {
    memory := blocks;
    var prev, next := memory[order].order.prev, memory[order].order.next;
    if prev.Some? {
      memory := WithNext(memory, prev.value, next);
    }
    if next.Some? {
      memory := WithPrev(memory, next.value, prev);
    }
    memory := Detached(memory, order);
  }
}
