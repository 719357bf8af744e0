/** Every way of counting the resting orders gives the same number. */
module Census {
  import opened Types
  import opened MemoryPool
  import opened PriceTime
  import opened Chains
  import opened Retirement
  import opened PriceLevel
  import opened LadderView
  import opened PriceLadder
  import opened Registry
  import opened OrderBook

  // ---------- cardinalities ----------

  lemma {:induction false} SameSize(ids: IdMap, live: set<nat>)
    requires forall id :: id in ids ==> ids[id] in live
    requires forall a, b :: a in ids && b in ids && ids[a] == ids[b] ==> a == b
    requires forall k :: k in live ==> exists id :: id in ids && ids[id] == k
    ensures |ids| == |live|
    decreases live
  {
    if live == {} {
      assert ids.Keys == {};
    } else {
      var k :| k in live;
      var id :| id in ids && ids[id] == k;
      forall x | x in live - {k} ensures exists y :: y in ids - {id} && (ids - {id})[y] == x {
        var y :| y in ids && ids[y] == x;
        assert y in ids - {id};
      }
      SameSize(ids - {id}, live - {k});
      assert (ids - {id}).Keys == ids.Keys - {id};
    }
  }

  lemma IndexedSize(blocks: Blocks, ids: IdMap)
    requires Indexed(blocks, ids)
    ensures |ids| == |LiveBlocks(blocks)|
  {
    forall k | k in LiveBlocks(blocks) ensures exists id :: id in ids && ids[id] == k {
      assert blocks[k].order.id in ids;
    }
    SameSize(ids, LiveBlocks(blocks));
  }

  lemma {:induction false} IdsSize(q: Queue)
    requires DistinctIds(q)
    ensures |Ids(q)| == |q|
  {
    if q != [] {
      assert q == [q[0]] + q[1..];
      assert Ids(q) == {q[0].id} + Ids(q[1..]);
      assert q[0].id !in Ids(q[1..]);
      IdsSize(q[1..]);
    }
  }

  function TotalLength(views: Views): nat {
    if views == [] then 0 else |views[0]| + TotalLength(views[1..])
  }

  lemma {:induction false} FlattenLength(side: Side, views: Views)
    ensures |Flatten(side, views)| == TotalLength(views)
  {
    if views != [] { FlattenLength(side, views[1..]); }
  }

  /** What the levels' cached counts add up to. */
  function OrderCounts(levels: seq<PriceLevel>): int
    reads levels
  {
    if levels == [] then 0 else levels[0].orderCount + OrderCounts(levels[1..])
  }

  lemma {:induction false} CountsAreLengths(levels: seq<PriceLevel>, views: Views)
    requires |levels| == |views|
    requires forall i :: 0 <= i < |levels| ==> levels[i].orderCount == |views[i]|
    ensures OrderCounts(levels) == TotalLength(views)
  {
    if levels != [] { CountsAreLengths(levels[1..], views[1..]); }
  }

  // ---------- the ladder, the map, the pool ----------

  lemma LadderCounts(ladder: PriceLadder, blocks: Blocks)
    requires ladder.Valid(blocks)
    ensures OrderCounts(ladder.levels) == |ladder.Orders(blocks)|
  {
    hide View, Chain, BestIs, Flatten;
    var views := ladder.Contents(blocks);
    forall i | 0 <= i < |ladder.levels| ensures ladder.levels[i].orderCount == |views[i]| {
      ladder.levels[i].Facts(blocks);
    }
    CountsAreLengths(ladder.levels, views);
    FlattenLength(ladder.side, views);
  }

  lemma PoolCounts(pool: MemoryPool)
    requires pool.Valid()
    ensures pool.currentlyAllocated == |LiveBlocks(pool.blocks)|
    ensures pool.totalElements == pool.initial * Pow2(|pool.slabs| - 1) == |pool.blocks|
  {
    FreeAndLivePartition(pool.blocks, pool.firstFree, pool.freeList);
    CapacityIsPower(pool.initial, |pool.slabs| - 1);
  }

  lemma MapCounts(ob: OrderBook)
    requires ob.Valid()
    ensures |ob.idToOrder| == |ob.Orders(Buy)| + |ob.Orders(Sell)| == |LiveBlocks(ob.pool.blocks)|
  {
    hide OrderBook.Sound, OrderBook.Orders, SideLinked, Indexed, DistinctIds, Ids;
    ob.IdFacts();
    var bids, asks := Ids(ob.Orders(Buy)), Ids(ob.Orders(Sell));
    forall id ensures id in bids + asks <==> id in ob.idToOrder.Keys {
    }
    assert bids + asks == ob.idToOrder.Keys && bids !! asks;
    IdsSize(ob.Orders(Buy));
    IdsSize(ob.Orders(Sell));
    IndexedSize(ob.pool.blocks, ob.idToOrder);
  }

  /** Live pool blocks, the pool's counter, the id map, the two queues and the levels' counts all agree. */
  lemma CountsAgree(ob: OrderBook)
    requires ob.Valid()
    ensures ob.pool.currentlyAllocated == |LiveBlocks(ob.pool.blocks)| == |ob.idToOrder|
    ensures |ob.idToOrder| == |ob.Abs().bids| + |ob.Abs().asks|
    ensures |ob.idToOrder| == OrderCounts(ob.bids.levels) + OrderCounts(ob.asks.levels)
  {
    hide MemoryPool.Valid, PriceLadder.Valid, Registered, PriceLadder.Orders, OrderCounts, LiveBlocks;
    PoolCounts(ob.pool);
    MapCounts(ob);
    LadderCounts(ob.bids, ob.pool.blocks);
    LadderCounts(ob.asks, ob.pool.blocks);
  }
}
