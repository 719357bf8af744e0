/** The order book: id map, two ladders and the pool, driven by the public requests. */
module OrderBook {
  import opened Types
  import opened MemoryPool
  import opened PriceTime
  import opened QueueLemmas
  import opened Chains
  import opened Retirement
  import opened PriceLevel
  import opened LadderView
  import opened LadderScans
  import opened PriceLadder
  import opened Registry
  import opened SessionPruning
  import opened BookSpec
  import opened BookLemmas
  import opened Matching
  import opened TopLevels
  import opened LiquidityScan

  class OrderBook {
    const pool: MemoryPool
    const bids: PriceLadder
    const asks: PriceLadder
    const minPrice: Price
    const maxPrice: Price
    var idToOrder: IdMap

    function Ladder(side: Side): PriceLadder {
      if side.Buy? then bids else asks
    }

    ghost predicate Shape() {
      && bids.Shape() && bids.side == Buy && bids.minPrice == minPrice && bids.maxPrice == maxPrice
      && asks.Shape() && asks.side == Sell && asks.minPrice == minPrice && asks.maxPrice == maxPrice
    }

    /** Both ladders are sound over the pool's memory; orders in transit are allowed. */
    ghost predicate Sound()
      reads this, pool, bids, asks, bids.levels, asks.levels
    {
      Shape() && pool.Valid() && bids.Valid(pool.blocks) && asks.Valid(pool.blocks)
    }

    ghost predicate Valid()
      reads this, pool, bids, asks, bids.levels, asks.levels
    {
      && Sound()
      && Registered(pool.blocks, idToOrder, bids.Lists(), asks.Lists())
    }

    ghost function Lists(side: Side): Lists
      reads bids.levels, asks.levels
    {
      Ladder(side).Lists()
    }

    ghost function Levels(side: Side): Views
      reads pool, bids.levels, asks.levels
    {
      Ladder(side).Contents(pool.blocks)
    }

    ghost function Orders(side: Side): Queue
      reads pool, bids.levels, asks.levels
    {
      Ladder(side).Orders(pool.blocks)
    }

    /** The book the requests are about. */
    ghost function Abs(): Book
      reads pool, bids.levels, asks.levels
    {
      Book(minPrice, maxPrice, Orders(Buy), Orders(Sell))
    }

    constructor (initialPoolSize: nat, minPrice: Price, maxPrice: Price)
      requires initialPoolSize >= 1 && minPrice <= maxPrice
      ensures Valid() && Abs() == Book(minPrice, maxPrice, [], [])
      ensures fresh(this) && fresh(pool) && fresh(bids) && fresh(asks)
      ensures fresh(bids.levels)
      ensures fresh(asks.levels)
      ensures idToOrder == map[] && pool.currentlyAllocated == 0 && pool.totalElements == initialPoolSize
      ensures pool.initial == initialPoolSize && |pool.slabs| == 1
    {
      pool := new MemoryPool(initialPoolSize);
      bids := new PriceLadder(minPrice, maxPrice, Buy);
      asks := new PriceLadder(minPrice, maxPrice, Sell);
      this.minPrice, this.maxPrice := minPrice, maxPrice;
      idToOrder := map[];
      new;
      hide MemoryPool.Valid, PriceLadder.Shape, PriceLadder.IsNew, Sound, Valid, Abs, AllFree;
      assert fresh(bids.levels);
      assert fresh(asks.levels);
      NewBookIsEmpty();
    }

    lemma NewBookIsEmpty()
      requires Shape() && pool.Valid() && idToOrder == map[]
      requires AllFree(pool.blocks) && bids.IsNew() && asks.IsNew()
      ensures Valid() && Abs() == Book(minPrice, maxPrice, [], [])
    {
      hide MemoryPool.Valid, PriceLadder.Shape, PriceLadder.Valid, PriceLadder.Orders, PriceLadder.IsNew, Registered;
      bids.NewLadderIsEmpty(pool.blocks);
      asks.NewLadderIsEmpty(pool.blocks);
      NothingRegistered();
    }

    lemma NothingRegistered()
      requires Shape() && idToOrder == map[]
      requires AllFree(pool.blocks) && bids.IsNew() && asks.IsNew()
      ensures Registered(pool.blocks, idToOrder, bids.Lists(), asks.Lists())
    {
    }

    /** Where a live order is linked. */
    lemma WhereLinked(k: nat) returns (i: nat, m: nat)
      requires Valid() && IsLive(pool.blocks, k)
      ensures var side := pool.blocks[k].order.side;
              && i < |Lists(side)| && m < |Lists(side)[i]| && Lists(side)[i][m] == k
              && pool.blocks[k].order.level == Ladder(side).levels[i]
              && forall j :: 0 <= j < |Lists(side)| && j != i ==> k !in Lists(side)[j]
    {
      hide MemoryPool.Valid, View, BestIs;
      var ladder := Ladder(pool.blocks[k].order.side);
      i :| 0 <= i < |ladder.Lists()| && k in ladder.Lists()[i];
      m :| 0 <= m < |ladder.Lists()[i]| && ladder.Lists()[i][m] == k;
      NodeOf(pool.blocks, ladder.levels[i], ladder.levels[i].orders, k);
      forall j | 0 <= j < |ladder.levels| && j != i ensures k !in ladder.levels[j].orders {
        assert ladder.levels[j].price != ladder.levels[i].price;
        if k in ladder.levels[j].orders {
          NodeOf(pool.blocks, ladder.levels[j], ladder.levels[j].orders, k);
          assert false;
        }
      }
    }

    /** One level changed and nothing outside it: both ladders still hold together, and only that level's
        orders differ. */
    lemma LevelsAfterChange(side: Side, i: nat, before: Blocks, lists: Lists)
      requires Shape() && i < |lists| == |Ladder(side).levels|
      requires Confined(before, pool.blocks, Ladder(side).levels[i])
      requires forall j :: 0 <= j < |lists| && j != i ==>
                 Ladder(side).levels[j].Valid(before) && Ladder(side).levels[j].orders == lists[j]
      requires Ladder(side).levels[i].Valid(pool.blocks)
      requires Ladder(Opposite(side)).LevelsValid(before)
      ensures Ladder(side).LevelsValid(pool.blocks)
      ensures Lists(side) == lists[i := Ladder(side).levels[i].orders]
      ensures Levels(side)
           == ViewsOf(before, minPrice, lists)[i := View(pool.blocks, minPrice + i, Ladder(side).levels[i].orders)]
      ensures Ladder(Opposite(side)).LevelsValid(pool.blocks)
      ensures Levels(Opposite(side)) == ViewsOf(before, minPrice, Lists(Opposite(side)))
    {
      hide PriceLevel.Valid, View, Confined, PriceLadder.LevelsValid;
      Ladder(side).LevelChanged(i, before, pool.blocks, lists);
      Ladder(Opposite(side)).LadderUntouched(before, pool.blocks, Ladder(side).levels[i]);
    }

    /** Both ladders hold together over the pool's memory, whatever their cached best prices say. */
    ghost predicate LevelsSound()
      reads this, pool, bids.levels, asks.levels
    {
      Shape() && pool.Valid() && bids.LevelsValid(pool.blocks) && asks.LevelsValid(pool.blocks)
    }

    method Unlink(order: nat) returns (level: PriceLevel, nowEmpty: bool, ghost i: nat, ghost m: nat)
      requires Valid() && IsLive(pool.blocks, order)
      modifies pool`blocks, bids.levels, asks.levels
      ensures LevelsSound()
      ensures var side := OrderAt(old(pool.blocks), order).side;
              && LeftLevel(old(pool.blocks), pool.blocks, order, old(Lists(side)), Lists(side), old(Levels(side)),
                           Levels(side), i, m)
              && Lists(Opposite(side)) == old(Lists(Opposite(side)))
              && Levels(Opposite(side)) == old(Levels(Opposite(side)))
              && Ladder(Opposite(side)).Valid(pool.blocks)
              && i < |Ladder(side).levels| && level == Ladder(side).levels[i] && nowEmpty == (Levels(side)[i] == [])
    {
      hide MemoryPool.Valid, PriceLevel.Valid, Registered, Chain, Threaded, Confined, Released, BestIs, Shares;
      hide Flatten, View, ViewsOf, LeftLevel;
      i, m := WhereLinked(order);
      var side := pool.blocks[order].order.side;
      level := pool.blocks[order].order.level as PriceLevel;
      ghost var before, lists := pool.blocks, Lists(side);
      level.Facts(before);
      nowEmpty := level.RemoveOrder(pool, order);
      level.Facts(pool.blocks);
      IndexInChain(before, level, lists[i], m);
      LeavesLevel(before, pool.blocks, level, minPrice, lists, i, m);
      LevelsAfterChange(side, i, before, lists);
    }

    /** A level lost an order: rescan from its price if it is now empty and was the best one. */
    method RefreshAfterRemoval(level: PriceLevel, nowEmpty: bool, side: Side, ghost i: nat, ghost before: Views)
      requires LevelsSound() && Ladder(Opposite(side)).Valid(pool.blocks)
      requires i < |Ladder(side).levels| == |before| && level == Ladder(side).levels[i] && before[i] != []
      requires BestIs(side, minPrice, before, Ladder(side).bestPrice)
      requires Levels(side) == before[i := Levels(side)[i]] && nowEmpty == (Levels(side)[i] == [])
      modifies Ladder(side)
      ensures Sound()
    {
      hide MemoryPool.Valid, PriceLadder.LevelsValid, BestIs, ViewsOf, NoneBetter, PriceLadder.Lists;
      BestAfterRemoval(side, minPrice, before, Ladder(side).bestPrice, i, Levels(side)[i]);
      if nowEmpty {
        var restingLevels := Ladder(side);
        var cancelPrice := level.price;
        if restingLevels.bestPrice == Some(cancelPrice) {
          restingLevels.RefreshBestPrice(cancelPrice, pool.blocks);
        }
      }
    }

    /** Freeing a block that is on no level disturbs neither ladder. */
    lemma SoundAfterFree(before: Blocks)
      requires Shape() && pool.Valid() && Confined(before, pool.blocks, null)
      requires bids.Valid(before) && asks.Valid(before)
      ensures Sound()
      ensures bids.Contents(pool.blocks) == bids.Contents(before) && asks.Contents(pool.blocks) == asks.Contents(before)
    {
      hide MemoryPool.Valid, PriceLadder.LevelsValid, BestIs, ViewsOf, PriceLadder.Lists, Confined;
      bids.LadderUntouched(before, pool.blocks, null);
      asks.LadderUntouched(before, pool.blocks, null);
    }

    /** The id map and the queues know the same orders. */
    lemma IdFacts()
      requires Valid()
      ensures DistinctIds(Orders(Buy)) && DistinctIds(Orders(Sell))
      ensures forall id :: id in Ids(Orders(Buy))
                           <==> id in idToOrder && OrderAt(pool.blocks, idToOrder[id]).side == Buy
      ensures forall id :: id in Ids(Orders(Sell))
                <==> id in idToOrder && OrderAt(pool.blocks, idToOrder[id]).side == Sell
    {
      hide MemoryPool.Valid, PriceLadder.LevelsValid, BestIs, ViewsOf, PriceLadder.Lists, Indexed, SideLinked;
      hide Separate, DistinctIds, Ids, Flatten;
      bids.ListsAreSeparate(pool.blocks);
      asks.ListsAreSeparate(pool.blocks);
      IdsOfSide(Buy, pool.blocks, idToOrder, minPrice, bids.Lists());
      IdsOfSide(Sell, pool.blocks, idToOrder, minPrice, asks.Lists());
    }

    lemma HeldIds()
      requires Valid()
      ensures forall id :: Abs().Holds(id) <==> id in idToOrder
      ensures forall id :: id in idToOrder ==> Abs().SideOf(id) == OrderAt(pool.blocks, idToOrder[id]).side
      ensures forall id :: id in idToOrder ==>
                IsLive(pool.blocks, idToOrder[id]) && OrderAt(pool.blocks, idToOrder[id]).id == id
    {
      hide Sound, Registered, DistinctIds, Ids, PriceLadder.Orders;
      IdFacts();
      forall id | id in idToOrder ensures IsLive(pool.blocks, idToOrder[id])
          && OrderAt(pool.blocks, idToOrder[id]).id == id {
        IndexedOrder(id);
      }
    }

    lemma IndexedOrder(id: OrderId)
      requires Valid() && id in idToOrder
      ensures IsLive(pool.blocks, idToOrder[id]) && OrderAt(pool.blocks, idToOrder[id]).id == id
    {
      hide Sound, SideLinked;
    }

    /** Looking an order up in the abstract book finds what its block says, at the price of its level. */
    lemma LinkedOrder(k: nat, i: nat, m: nat)
      requires Valid() && IsLive(pool.blocks, k)
      requires var side := pool.blocks[k].order.side;
               i < |Lists(side)| && m < |Lists(side)[i]| && Lists(side)[i][m] == k
      ensures var o := pool.blocks[k].order;
              && Abs().Lookup(o.id) == Some(AsResting(o, minPrice + i))
              && Abs().SideOf(o.id) == o.side && Abs().Holds(o.id)
              && m < |Levels(o.side)[i]| && Levels(o.side)[i][m] == AsResting(o, minPrice + i)
              && DistinctIds(Orders(o.side))
    {
      hide MemoryPool.Valid, PriceLadder.LevelsValid, Registered, DistinctIds, Flatten, BestIs, View, Ids;
      var o := pool.blocks[k].order;
      IdFacts();
      KnownId(k);
      var r := Levels(o.side)[i][m];
      ViewAt(pool.blocks, minPrice + i, Lists(o.side)[i], m);
      SplitAt(o.side, Levels(o.side), i, m);
      FindDistinct(Orders(o.side), r);
    }

    lemma KnownId(k: nat)
      requires Valid() && IsLive(pool.blocks, k)
      ensures pool.blocks[k].order.id in idToOrder && idToOrder[pool.blocks[k].order.id] == k
    {
      hide Sound, SideLinked;
    }

    /** Takes a live order off its ladder. */
    method Detach(order: nat) returns (ghost i: nat, ghost m: nat)
      requires Valid() && IsLive(pool.blocks, order)
      modifies pool`blocks, bids, asks, bids.levels, asks.levels
      ensures Sound()
      ensures var side := OrderAt(old(pool.blocks), order).side;
              && LeftLevel(old(pool.blocks), pool.blocks, order, old(Lists(side)), Lists(side), old(Levels(side)),
                           Levels(side), i, m)
              && Lists(Opposite(side)) == old(Lists(Opposite(side)))
              && Levels(Opposite(side)) == old(Levels(Opposite(side)))
    {
      hide LevelsSound, Registered, BestIs, Released, MemoryPool.Valid, PriceLadder.LevelsValid, ViewsOf;
      hide PriceLadder.Lists;
      var level, nowEmpty;
      level, nowEmpty, i, m := Unlink(order);
      var side := OrderAt(old(pool.blocks), order).side;
      LeftIsKept(old(pool.blocks), pool.blocks, order, old(Lists(side)), Lists(side), old(Levels(side)), Levels(side),
                 i, m);
      RefreshAfterRemoval(level, nowEmpty, pool.blocks[order].order.side, i, old(Levels(side)));
    }

    lemma Registration(side: Side)
      ensures Registered(pool.blocks, idToOrder, bids.Lists(), asks.Lists())
          <==> RegisteredOn(side, pool.blocks, idToOrder, Lists(side), Lists(Opposite(side)))
    {
      RegisteredFrom(side, pool.blocks, idToOrder, bids.Lists(), asks.Lists());
    }

    /** Removes a live order from the book altogether. */
    method Withdraw(order: nat) returns (quantity: int)
      requires Valid() && IsLive(pool.blocks, order)
      modifies this, pool, bids, asks, bids.levels, asks.levels
      ensures Valid()
      ensures pool.slabs == old(pool.slabs)
      ensures var o := OrderAt(old(pool.blocks), order);
              && quantity == o.quantity
              && Abs() == old(Abs()).With(o.side, Remove(old(Abs()).On(o.side), o.id))
    {
      hide MemoryPool.Valid, PriceLadder.Valid, Registered, RegisteredOn, LeftLevel, Chain, Erased, Confined, Flatten;
      hide View, ViewsOf, PriceLadder.Lists, DistinctIds;
      ghost var before, side := pool.blocks, pool.blocks[order].order.side;
      ghost var ids, own, other, views := idToOrder, Lists(side), Lists(Opposite(side)), Levels(side);
      Registration(side);
      IdFacts();
      var i, m := Detach(order);
      assert idToOrder == ids;
      ghost var mid := pool.blocks;
      LeftIsKept(before, mid, order, own, Lists(side), views, Levels(side), i, m);
      quantity := pool.blocks[order].order.quantity;
      idToOrder := RetireOrder(pool, idToOrder, order);
      Departed(side, before, mid, ids, own, other, views, i, m, order);
      LeftQueue(side, before, mid, order, own, Lists(side), views, Levels(side), i, m);
    }

    /** An order left its level, its id was forgotten and its memory freed: the rest of the book is as it was. */
    lemma Departed(side: Side, before: Blocks, mid: Blocks, ids: IdMap, own: Lists, other: Lists, views: Views, i: nat,
                   m: nat, k: nat)
      requires Shape() && pool.Valid() && bids.Valid(mid) && asks.Valid(mid)
      requires RegisteredOn(side, before, ids, own, other)
      requires IsLive(before, k) && before[k].order.side == side
      requires LeftLevel(before, mid, k, own, Lists(side), views, Ladder(side).Contents(mid), i, m)
      requires Lists(Opposite(side)) == other
      requires exists link :: pool.blocks == mid[k := Free(link)]
      requires idToOrder == ids - {before[k].order.id}
      ensures Valid()
      ensures Levels(side) == Ladder(side).Contents(mid)
      ensures Levels(Opposite(side)) == Ladder(Opposite(side)).Contents(mid)
    {
      hide MemoryPool.Valid, PriceLadder.Valid, Registered, RegisteredOn, LeftLevel, Chain, Erased, Confined;
      hide PriceLadder.Lists;
      RegisteredAfterDeparture(side, before, mid, pool.blocks, ids, own, Lists(side), other,
                               views, Ladder(side).Contents(mid), i, m, k);
      Registration(side);
      SoundAfterFree(mid);
    }

    lemma HeldOrder(id: OrderId)
      requires Valid() && id in idToOrder
      ensures IsLive(pool.blocks, idToOrder[id])
      ensures var o := OrderAt(pool.blocks, idToOrder[id]);
              && o.id == id && Abs().SideOf(id) == o.side && IsInt32(o.quantity)
              && exists price :: Abs().Lookup(id) == Some(AsResting(o, price))
    {
      hide Sound, Registered;
      IndexedOrder(id);
      var i, m := WhereLinked(idToOrder[id]);
      LinkedOrder(idToOrder[id], i, m);
      LinkedQuantity(OrderAt(pool.blocks, idToOrder[id]).side, i, m);
    }

    lemma LinkedQuantity(side: Side, i: nat, m: nat)
      requires Valid() && i < |Lists(side)| && m < |Lists(side)[i]|
      ensures IsInt32(OrderAt(pool.blocks, Lists(side)[i][m]).quantity)
    {
      hide MemoryPool.Valid, Registered, BestIs, View, Shares;
      var level := Ladder(side).levels[i];
      level.Facts(pool.blocks);
      assert NodeAt(pool.blocks, level, level.orders, m);
    }

    method CancelOrder(request: CancelOrderRequest) returns (result: CancelResult)
      requires Valid()
      modifies this, pool, bids, asks, bids.levels, asks.levels
      ensures Valid()
      ensures pool.slabs == old(pool.slabs)
      ensures (Abs(), result) == Cancel(old(Abs()), request.id)
    {
      hide Valid, Abs;
      HeldIds();
      LookupHeld(Abs(), request.id);
      if request.id !in idToOrder {
        return CancelResult(0, CancelStatus.NotFound);
      }
      HeldOrder(request.id);
      var quantityCancelled := Withdraw(idToOrder[request.id]);
      result := CancelResult(quantityCancelled, CancelStatus.Canceled);
    }

    // ---------- matching ----------

    /** The cached best price leads straight to the order with the highest price-time priority. */
    lemma FrontOfBook(side: Side)
      requires Valid()
      ensures Ladder(side).bestPrice == Top(Orders(side))
      ensures Ladder(side).bestPrice.Some? ==>
                var p := Ladder(side).bestPrice.value;
                && minPrice <= p <= maxPrice
                && var level := Ladder(side).levels[p - minPrice];
                && level.Valid(pool.blocks) && level.orders != [] && level.head == Some(level.orders[0])
                && IsLive(pool.blocks, level.orders[0])
                && pool.blocks[level.orders[0]].order.side == side
                && IsInt32(pool.blocks[level.orders[0]].order.quantity)
                && Orders(side)[0] == AsResting(pool.blocks[level.orders[0]].order, p)
    {
      hide MemoryPool.Valid, Registered, Flatten, View, BestIs, ViewsOf, Chain;
      var ladder := Ladder(side);
      ladder.BestInRange(pool.blocks);
      ladder.BestIsTopOfOrders(pool.blocks);
      if ladder.bestPrice.Some? {
        var i := ladder.bestPrice.value - minPrice;
        FrontOfBest(side, Levels(side), minPrice, ladder.bestPrice.value, []);
        ladder.levels[i].Facts(pool.blocks);
        FrontIsLive(side, i);
      }
    }

    lemma FrontIsLive(side: Side, i: nat)
      requires Valid() && i < |Ladder(side).levels| && Levels(side)[i] != []
      ensures var chain := Ladder(side).levels[i].orders;
              && chain != [] && IsLive(pool.blocks, chain[0])
              && pool.blocks[chain[0]].order.side == side && IsInt32(pool.blocks[chain[0]].order.quantity)
              && Levels(side)[i][0] == AsResting(pool.blocks[chain[0]].order, minPrice + i)
    {
      hide MemoryPool.Valid, PriceLadder.Valid, Indexed;
      var chain := Lists(side)[i];
      ViewAt(pool.blocks, minPrice + i, chain, 0);
      assert chain[0] in Lists(side)[i];
      LinkedQuantity(side, i, 0);
    }

    /** Takes part of the order at the front of the book. */
    method TakeFromFront(side: Side, shares: int)
      requires Orders(side) != [] && 0 < shares < Orders(side)[0].quantity
      requires Valid()
      modifies pool`blocks, bids.levels, asks.levels
      ensures Valid()
      ensures var q := old(Orders(side));
              Abs() == old(Abs()).With(side, [q[0].(quantity := q[0].quantity - shares)] + q[1..])
    {
      hide MemoryPool.Valid, PriceLevel.Valid, Registered, Chain, Threaded, Confined, BestIs, Flatten, View, ViewsOf;
      hide Shares, WithQuantity, Element;
      FrontOfBook(side);
      var ladder := Ladder(side);
      var matchingLevel := ladder.GetLevelAtPrice(ladder.bestPrice.value);
      ghost var i, before, lists, views := ladder.bestPrice.value - minPrice, pool.blocks, Lists(side), Levels(side);
      ghost var k := matchingLevel.orders[0];
      matchingLevel.Facts(before);
      matchingLevel.TakeSharesFromFirst(pool, shares);
      LevelsAfterChange(side, i, before, lists);
      assert Lists(side) == lists;
      ViewsOfAt(before, minPrice, lists, i);
      FirstRequantified(before, matchingLevel, minPrice + i, lists[i], before[k].order.quantity - shares);
      RegisteredRequantified(before, idToOrder, bids.Lists(), asks.Lists(), k, before[k].order.quantity - shares);
      FrontReplaced(side, views, minPrice, ladder.bestPrice, i, Levels(side)[i], before[k].order.quantity - shares);
    }

    /** The chain of the best level. */
    lemma BestChain(side: Side) returns (i: nat, chain: seq<nat>)
      requires Valid() && Orders(side) != []
      ensures LevelsSound()
      ensures i < |Ladder(side).levels| && Ladder(side).bestPrice == Some(minPrice + i)
      ensures Ladder(side).levels[i].Valid(pool.blocks) && Ladder(side).levels[i].orders == chain
      ensures Chain(pool.blocks, Ladder(side).levels[i], chain)
      ensures chain != [] && |chain| <= UINT32_MAX && IsLive(pool.blocks, chain[0])
      ensures pool.blocks[chain[0]].order.side == side
      ensures forall j :: 0 <= j < |Lists(side)| && j != i ==> chain[0] !in Lists(side)[j]
    {
      hide MemoryPool.Valid, PriceLevel.Valid, Registered, Chain, BestIs, Flatten, View, ViewsOf, Separate;
      FrontOfBook(side);
      var ladder := Ladder(side);
      i := ladder.bestPrice.value - minPrice;
      chain := ladder.levels[i].orders;
      ladder.ListsAreSeparate(pool.blocks);
      ladder.levels[i].Facts(pool.blocks);
      SeparateElement(Lists(side), i, 0);
    }

    /** Unlinks the order at the front of the best level. */
    method PopBest(side: Side, ghost before: Blocks, ghost lists: Lists, ghost views: Views, ghost other: Lists,
                   ghost otherViews: Views)
      returns (level: PriceLevel, cleared: nat, ghost i: nat)
      requires Orders(side) != []
      requires Valid() && before == pool.blocks && lists == Lists(side) && views == Levels(side)
      requires other == Lists(Opposite(side)) && otherViews == Levels(Opposite(side))
      modifies pool`blocks, bids.levels, asks.levels
      ensures LevelsSound() && pool.Valid()
      ensures i < |Ladder(side).levels| && level == Ladder(side).levels[i]
      ensures Ladder(side).bestPrice == Some(minPrice + i)
      ensures IsLive(before, cleared) && before[cleared].order.side == side
      ensures LeftLevel(before, pool.blocks, cleared, lists, Lists(side), views, Levels(side), i, 0)
      ensures Lists(Opposite(side)) == other && Levels(Opposite(side)) == otherViews
    {
      hide MemoryPool.Valid, PriceLevel.Valid, Registered, Chain, Threaded, Confined, Released, BestIs, Flatten;
      hide View, ViewsOf, LeftLevel, Separate;
      hide PriceLadder.Orders, Orders, Valid, Sound, Without;
      ghost var chain;
      i, chain := BestChain(side);
      level := Ladder(side).GetLevelAtPrice(Ladder(side).bestPrice.value);
      var front := level.PopFront(pool);
      cleared := front.value;
      level.Facts(pool.blocks);
      LeavesLevel(before, pool.blocks, level, minPrice, lists, i, 0);
      LevelsAfterChange(side, i, before, lists);
    }

    /** Freeing a block that is on no level disturbs no level. */
    lemma LevelsAfterFree(side: Side, before: Blocks)
      requires Shape() && pool.Valid() && Confined(before, pool.blocks, null)
      requires bids.LevelsValid(before) && asks.LevelsValid(before)
      ensures LevelsSound()
      ensures Levels(side) == Ladder(side).Contents(before)
      ensures Levels(Opposite(side)) == Ladder(Opposite(side)).Contents(before)
    {
      hide MemoryPool.Valid, PriceLadder.LevelsValid, BestIs, ViewsOf, PriceLadder.Lists, Confined;
      bids.LadderUntouched(before, pool.blocks, null);
      asks.LadderUntouched(before, pool.blocks, null);
    }

    lemma BestIsCached(side: Side)
      requires Valid()
      ensures BestIs(side, minPrice, Levels(side), Ladder(side).bestPrice)
    {
      hide MemoryPool.Valid, Registered, BestIs;
    }

    /** Takes the whole order at the front of the book. */
    method ClearFront(side: Side)
      requires Orders(side) != []
      requires Valid()
      modifies this, pool, bids, asks, bids.levels, asks.levels
      ensures Valid()
      ensures pool.slabs == old(pool.slabs)
      ensures Abs() == old(Abs()).With(side, old(Orders(side))[1..])
      ensures idToOrder.Keys <= old(idToOrder.Keys)
    {
      hide MemoryPool.Valid, PriceLadder.Valid, PriceLadder.LevelsValid, Registered, RegisteredOn, LeftLevel, Chain;
      hide Erased, Confined;
      hide View, ViewsOf, PriceLadder.Lists, DistinctIds, Flatten, BestIs, PriceLadder.Contents, PriceLadder.Orders;
      hide Abs, Sound;
      ghost var before, book := pool.blocks, Abs();
      BookShape();
      ghost var ids, own, views := idToOrder, Lists(side), Levels(side);
      ghost var other, otherViews := Lists(Opposite(side)), Levels(Opposite(side));
      Registration(side);
      IdFacts();
      BestIsCached(side);
      BestIsCached(Opposite(side));
      QueueOf(side);
      QueueOf(Opposite(side));
      var matchingLevel, cleared, i := PopBest(side, before, own, views, other, otherViews);
      ghost var mid := pool.blocks;
      LeftIsKept(before, mid, cleared, own, Lists(side), views, Levels(side), i, 0);
      idToOrder := RetireOrder(pool, idToOrder, cleared);
      RegisteredAfterDeparture(side, before, mid, pool.blocks, ids, own, Lists(side), other, views,
                               Ladder(side).Contents(mid), i, 0, cleared);
      LevelsAfterFree(side, mid);
      LeftFront(side, before, mid, cleared, own, Lists(side), views, Levels(side), minPrice, Ladder(side).bestPrice, i);
      RefreshAfterFill(side, matchingLevel, i, views);
      Settled(side, book, book.On(side)[1..]);
    }

    /** The book as it was, but for one side. */
    lemma Settled(side: Side, book: Book, q: Queue)
      requires Sound() && RegisteredOn(side, pool.blocks, idToOrder, Lists(side), Lists(Opposite(side)))
      requires book.minPrice == minPrice && book.maxPrice == maxPrice
      requires Flatten(side, Levels(side)) == q
      requires Flatten(Opposite(side), Levels(Opposite(side))) == book.On(Opposite(side))
      ensures Valid() && Abs() == book.With(side, q)
    {
      hide MemoryPool.Valid, PriceLadder.Valid, Registered, RegisteredOn, Flatten, ViewsOf, PriceLadder.Lists;
      Registration(side);
    }

    lemma BookShape()
      requires Valid()
      ensures Shape()
    {
      hide MemoryPool.Valid, PriceLadder.Valid, Registered;
    }

    lemma QueueOf(side: Side)
      requires Shape()
      ensures Abs().On(side) == Orders(side) == Flatten(side, Levels(side))
      ensures Abs().minPrice == minPrice && Abs().maxPrice == maxPrice
    {
    }

    /** A fill cleared an order of the best level: rescan from there if the level is now empty. */
    method RefreshAfterFill(side: Side, matchingLevel: PriceLevel, ghost i: nat, ghost before: Views)
      requires LevelsSound()
      requires BestIs(Opposite(side), minPrice, Levels(Opposite(side)), Ladder(Opposite(side)).bestPrice)
      requires i < |Ladder(side).levels| == |before| && matchingLevel == Ladder(side).levels[i] && before[i] != []
      requires Ladder(side).bestPrice == Some(minPrice + i) && BestIs(side, minPrice, before, Ladder(side).bestPrice)
      requires Levels(side) == before[i := Levels(side)[i]]
      modifies Ladder(side)
      ensures Sound()
    {
      hide MemoryPool.Valid, PriceLadder.LevelsValid, BestIs, ViewsOf, NoneBetter, PriceLadder.Lists;
      BestAfterRemoval(side, minPrice, before, Ladder(side).bestPrice, i, Levels(side)[i]);
      Ladder(side).EmptyLevel(pool.blocks, i);
      if matchingLevel.Empty() {
        Ladder(side).RefreshBestPrice(Ladder(side).bestPrice.value, pool.blocks);
      }
    }

    /** Every valid book is, seen from outside, in price-time order, with unique ids and prices in the band. */
    lemma AbsIsOrdered()
      requires Valid()
      ensures Abs().Ordered()
    {
      hide MemoryPool.Valid, PriceLadder.LevelsValid, BestIs, Flatten, ViewsOf, Indexed, SideLinked, DistinctIds;
      hide Priced, Ids, Sorted;
      hide Positive, InRange;
      IdFacts();
      bids.ContentsPriced(pool.blocks);
      asks.ContentsPriced(pool.blocks);
      FlattenSorted(Buy, Levels(Buy), minPrice);
      FlattenSorted(Sell, Levels(Sell), minPrice);
    }

    /** The queues of a valid book are those of a real one: 32-bit quantities, fewer than 2^32 orders at a price. */
    lemma AbsIsBounded()
      requires Valid()
      ensures Bounded(Abs().bids) && Bounded(Abs().asks)
    {
      hide MemoryPool.Valid, Registered, PriceLadder.LevelsValid, PriceLadder.Orders, BestIs, Bounded;
      bids.OrdersBounded(pool.blocks);
      asks.OrdersBounded(pool.blocks);
    }

    /** The best price of a side and the order that is first in line there. */
    method PeekFront(side: Side) returns (bestPrice: Option<int>, id: OrderId, quantity: int)
      requires Valid()
      ensures bestPrice == Top(Orders(side))
      ensures bestPrice.Some? ==>
                id == Orders(side)[0].id && quantity == Orders(side)[0].quantity
                    && bestPrice.value == Orders(side)[0].price
    {
      hide MemoryPool.Valid, PriceLadder.Valid, Registered, PriceLadder.Orders;
      FrontOfBook(side);
      bestPrice, id, quantity := Ladder(side).bestPrice, 0, 0;
      if bestPrice.Some? {
        var takingOrder := Ladder(side).GetLevelAtPrice(bestPrice.value).head.value;
        id, quantity := pool.blocks[takingOrder].order.id, pool.blocks[takingOrder].order.quantity;
      }
    }

    ghost predicate OnlySide(side: Side, book: Book)
      reads pool, bids.levels, asks.levels
    {
      Abs() == book.With(side, Orders(side))
    }

    // ---------- resting ----------

    /** Memory for a new order: it is on no level yet, and no level notices. */
    method AllocateOrder(id: OrderId, quantity: int, lifetime: RestingLifetime, side: Side, ghost before: Blocks)
      returns (order: nat)
      requires Valid() && before == pool.blocks
      modifies pool
      ensures LevelsSound() && bids.LevelsValid(before) && asks.LevelsValid(before)
      ensures GrewOnDemand(pool.initial, old(|pool.slabs|), |pool.slabs|, pool.currentlyAllocated)
      ensures Placed(before, pool.blocks, order, RestingOrder(None, None, null, id, quantity, lifetime, side))
      ensures bids.Contents(pool.blocks) == bids.Contents(before) && asks.Contents(pool.blocks) == asks.Contents(before)
    {
      hide MemoryPool.Valid, PriceLadder.LevelsValid, Registered, Confined, BestIs, ViewsOf, Placed;
      hide PriceLadder.Lists, PriceLadder.Shape;
      order := pool.Allocate(id, quantity, lifetime, side);
      PlacedIsConfined(before, pool.blocks, order, RestingOrder(None, None, null, id, quantity, lifetime, side));
      bids.LadderUntouched(before, pool.blocks, null);
      asks.LadderUntouched(before, pool.blocks, null);
    }

    /** Links an allocated order behind the orders of its price. */
    method LinkOrder(order: nat, side: Side, price: int, ghost before: Blocks, ghost placed: RestingOrder,
                     ghost lists: Lists, ghost views: Views, ghost other: Lists, ghost otherViews: Views)
      requires LevelsSound() && Placed(before, pool.blocks, order, placed) && Ladder(side).LevelsValid(before)
      requires lists == Lists(side) && other == Lists(Opposite(side)) && |views| == |lists|
      requires views == Ladder(side).Contents(before) == Levels(side) && otherViews == Levels(Opposite(side))
      requires minPrice <= price <= maxPrice && price - minPrice < |lists| && |lists[price - minPrice]| < UINT32_MAX
      requires placed.next.None? && placed.prev.None? && placed.level == null && placed.side == side
      requires IsInt32(placed.quantity)
      modifies pool`blocks, bids.levels, asks.levels
      ensures LevelsSound()
      ensures var i := price - minPrice;
              && Arrived(before, pool.blocks, lists[i], order, placed.id, placed.quantity, side)
              && Lists(side) == lists[i := lists[i] + [order]]
              && Levels(side) == views[i := views[i] + [AsResting(placed, price)]]
      ensures Lists(Opposite(side)) == other && Levels(Opposite(side)) == otherViews
    {
      hide MemoryPool.Valid, PriceLevel.Valid, Chain, Threaded, Confined, View, ViewsOf, Placed, Arrived, Relinked;
      hide Shares;
      ghost var i, mid := price - minPrice, pool.blocks;
      var restingLevel := Ladder(side).GetLevelAtPrice(price);
      restingLevel.Facts(before);
      PlacedIsConfined(before, mid, order, placed);
      restingLevel.Facts(mid);
      restingLevel.PushBack(pool, order);
      restingLevel.Facts(pool.blocks);
      ArrivesInLevel(before, mid, pool.blocks, restingLevel, price, lists[i], order, placed);
      ViewsOfAt(before, minPrice, lists, i);
      LevelsAfterChange(side, i, mid, lists);
    }

    /** A level gained an order: raise the cached best price if the level is better than it. */
    method RaiseBest(side: Side, price: int, ghost before: Views, ghost r: RestingView)
      requires LevelsSound() && minPrice <= price <= maxPrice
      requires BestIs(Opposite(side), minPrice, Levels(Opposite(side)), Ladder(Opposite(side)).bestPrice)
      requires BestIs(side, minPrice, before, Ladder(side).bestPrice) && price - minPrice < |before|
      requires Levels(side) == before[price - minPrice := before[price - minPrice] + [r]]
      modifies Ladder(side)
      ensures Sound()
    {
      hide MemoryPool.Valid, PriceLadder.LevelsValid, BestIs, ViewsOf, PriceLadder.Lists;
      BestAfterInsert(side, minPrice, before, Ladder(side).bestPrice, price - minPrice, r);
      var restingLevels := Ladder(side);
      var currentBestPrice := restingLevels.bestPrice;
      if currentBestPrice.None? || (side.Buy? && price > currentBestPrice.value)
          || (side.Sell? && price < currentBestPrice.value) {
        restingLevels.SetBestPrice(price);
      }
    }

    /** Allocates an order, links it behind the orders of its price and enters it in the id map. */
    method Place(id: OrderId, quantity: int, lifetime: RestingLifetime, side: Side, price: int, ghost views: Views,
                 ghost otherViews: Views)
      requires Valid() && id !in idToOrder && minPrice <= price <= maxPrice && IsInt32(quantity)
      requires price - minPrice < |Lists(side)| == |views| && |Lists(side)[price - minPrice]| < UINT32_MAX
      requires views == Levels(side) && otherViews == Levels(Opposite(side))
      modifies this, pool, bids.levels, asks.levels
      ensures LevelsSound() && RegisteredOn(side, pool.blocks, idToOrder, Lists(side), Lists(Opposite(side)))
      ensures var i := price - minPrice;
              Levels(side) == views[i := views[i] + [RestingView(price, id, quantity, lifetime)]]
      ensures Levels(Opposite(side)) == otherViews
      ensures GrewOnDemand(pool.initial, old(|pool.slabs|), |pool.slabs|, pool.currentlyAllocated)
    {
      hide MemoryPool.Valid, PriceLadder.Valid, PriceLadder.LevelsValid;
      hide Registered, RegisteredOn, Arrived, Sound, Placed;
      hide View, ViewsOf, PriceLadder.Lists;
      ghost var before, ids, own, other := pool.blocks, idToOrder, Lists(side), Lists(Opposite(side));
      Registration(side);
      var order := AllocateOrder(id, quantity, lifetime, side, before);
      LinkOrder(order, side, price, before, RestingOrder(None, None, null, id, quantity, lifetime, side), own, views,
                other, otherViews);
      idToOrder := idToOrder[id := order];
      RegisteredAfterArrival(side, before, pool.blocks, ids, own, other, price - minPrice, order, id, quantity);
    }

    /** Adds an order to the book, behind every order of its price. */
    method RestOrder(id: OrderId, quantity: int, lifetime: RestingLifetime, side: Side, price: int)
      requires Valid() && id !in idToOrder && minPrice <= price <= maxPrice && IsInt32(quantity)
      requires |AtPrice(Orders(side), price)| < UINT32_MAX
      modifies this, pool, bids, asks, bids.levels, asks.levels
      ensures Valid()
      ensures GrewOnDemand(pool.initial, old(|pool.slabs|), |pool.slabs|, pool.currentlyAllocated)
      ensures Abs() == Rest(old(Abs()), side, RestingView(price, id, quantity, lifetime))
    {
      hide MemoryPool.Valid, PriceLadder.Valid, PriceLadder.LevelsValid, Registered, RegisteredOn, Sound, LevelsSound;
      hide PriceLadder.Lists, PriceLadder.Contents, Flatten, BestIs, PriceLadder.Orders, Abs;
      ghost var book, views, otherViews := Abs(), Levels(side), Levels(Opposite(side));
      ghost var r := RestingView(price, id, quantity, lifetime);
      BookShape();
      BestIsCached(side);
      BestIsCached(Opposite(side));
      QueueOf(side);
      QueueOf(Opposite(side));
      RoomAtLevel(side, price);
      Place(id, quantity, lifetime, side, price, views, otherViews);
      AppendIsInsert(side, views, minPrice, price - minPrice, r);
      RaiseBest(side, price, views, r);
      Settled(side, book, Insert(side, book.On(side), r));
    }

    lemma RoomAtLevel(side: Side, price: int)
      requires Valid() && minPrice <= price <= maxPrice
      ensures price - minPrice < |Lists(side)| == |Levels(side)|
      ensures |Lists(side)[price - minPrice]| == |AtPrice(Orders(side), price)|
      ensures Priced(Levels(side), minPrice)
    {
      hide MemoryPool.Valid, PriceLadder.LevelsValid, Registered, AtPrice, Flatten, BestIs, View;
      Ladder(side).ContentsPriced(pool.blocks);
      LevelOfQueue(side, Levels(side), minPrice, price - minPrice);
    }

    // ---------- submissions ----------

    method SubmitLimitOrderIoc(request: LimitOrderRequest) returns (result: SubmissionResult)
      requires Valid()
      requires MatchFits(request.side, Some(request.price), request.quantity, Abs().On(Opposite(request.side)))
      modifies this, pool, bids, asks, bids.levels, asks.levels
      ensures Valid()
      ensures pool.slabs == old(pool.slabs)
      ensures (Abs(), result) == SubmitAndDrop(old(Abs()), request.side, Some(request.price), request.quantity)
    {
      hide Valid, Orders, SweepSoFar, SweepQueue, Executed, MatchFits, GrewOnDemand;
      ghost var book := Abs();
      ghost var q0 := book.On(Opposite(request.side));
      var side, makers := request.side, Opposite(request.side);
      var limit := Some(request.price);
      var remainingShares, filled, executions := request.quantity, 0, [];
      SweepBegins(side, limit, request.quantity, q0);
      while remainingShares > 0
        invariant Valid() && OnlySide(makers, book) && pool.slabs == old(pool.slabs)
        invariant IsInt32(remainingShares) && (0 < request.quantity ==> 0 <= remainingShares)
        invariant MatchFits(side, limit, remainingShares, Orders(makers))
        invariant SweepSoFar(side, limit, request.quantity, q0, executions, filled, remainingShares, Orders(makers))
        decreases |Orders(makers)|
      {
        ghost var q := Orders(makers);
        var bestPrice, takingId, takingQuantity := PeekFront(makers);
        if bestPrice.Some? && Crosses(side, limit, bestPrice.value) {
          if takingQuantity > remainingShares {
            SweepEndsInside(side, limit, request.quantity, q0, executions, filled, remainingShares, q);
            executions := executions + [Execution(takingId, bestPrice.value, remainingShares)];
            TakeFromFront(makers, remainingShares);
            filled := filled + remainingShares;
            return SubmissionResult(request.quantity, filled, SubmitStatus.Filled, executions);
          } else {
            SweepTakes(side, limit, request.quantity, q0, executions, filled, remainingShares, q);
            MatchFitsOn(side, limit, remainingShares, q);
            executions := executions + [Execution(takingId, bestPrice.value, takingQuantity)];
            filled := filled + takingQuantity;
            remainingShares := remainingShares - takingQuantity;
            ClearFront(makers);
          }
        } else {
          assert q == [] || !Crosses(side, limit, q[0].price);
          break;
        }
      }
      SweepStops(side, limit, request.quantity, q0, executions, filled, remainingShares, Orders(makers));
      var status;
      if remainingShares == 0 {
        status := SubmitStatus.Filled;
      } else if remainingShares < request.quantity {
        status := SubmitStatus.PartiallyFilledCanceled;
      } else {
        status := SubmitStatus.Canceled;
      }
      result := SubmissionResult(request.quantity, filled, status, executions);
    }

    method SubmitMarketOrder(request: MarketOrderRequest) returns (result: SubmissionResult)
      requires Valid() && MarketFits(Abs(), request)
      modifies this, pool, bids, asks, bids.levels, asks.levels
      ensures Valid()
      ensures pool.slabs == old(pool.slabs)
      ensures (Abs(), result) == SubmitMarket(old(Abs()), request)
    {
      hide Valid, Orders, SweepSoFar, SweepQueue, Executed, MatchFits, GrewOnDemand;
      HeldIds();
      if request.id in idToOrder {
        return SubmissionResult(request.quantity, 0, SubmitStatus.Rejected, []);
      }
      ghost var book := Abs();
      ghost var q0 := book.On(Opposite(request.side));
      var side, makers := request.side, Opposite(request.side);
      ghost var limit := None;
      var remainingShares, filled, executions := request.quantity, 0, [];
      SweepBegins(side, limit, request.quantity, q0);
      while remainingShares > 0
        invariant Valid() && OnlySide(makers, book) && pool.slabs == old(pool.slabs)
        invariant IsInt32(remainingShares) && (0 < request.quantity ==> 0 <= remainingShares)
        invariant MatchFits(side, limit, remainingShares, Orders(makers))
        invariant SweepSoFar(side, limit, request.quantity, q0, executions, filled, remainingShares, Orders(makers))
        decreases |Orders(makers)|
      {
        ghost var q := Orders(makers);
        var bestPrice, takingId, takingQuantity := PeekFront(makers);
        if bestPrice.Some? {
          if takingQuantity > remainingShares {
            SweepEndsInside(side, limit, request.quantity, q0, executions, filled, remainingShares, q);
            executions := executions + [Execution(takingId, bestPrice.value, remainingShares)];
            TakeFromFront(makers, remainingShares);
            filled := filled + remainingShares;
            return SubmissionResult(request.quantity, filled, SubmitStatus.Filled, executions);
          } else {
            SweepTakes(side, limit, request.quantity, q0, executions, filled, remainingShares, q);
            MatchFitsOn(side, limit, remainingShares, q);
            executions := executions + [Execution(takingId, bestPrice.value, takingQuantity)];
            filled := filled + takingQuantity;
            remainingShares := remainingShares - takingQuantity;
            ClearFront(makers);
          }
        } else {
          assert q == [];
          break;
        }
      }
      SweepStops(side, limit, request.quantity, q0, executions, filled, remainingShares, Orders(makers));
      var status;
      if remainingShares == 0 {
        status := SubmitStatus.Filled;
      } else if remainingShares < request.quantity {
        status := SubmitStatus.PartiallyFilledCanceled;
      } else {
        status := SubmitStatus.Canceled;
      }
      result := SubmissionResult(request.quantity, filled, status, executions);
    }

    /** Once the scan has found enough, all is filled exactly when the first crossing makers, however many it takes,
        have the shares; this is when the assertion behind the loop holds. */
    method SubmitLimitOrderFok(request: LimitOrderRequest) returns (result: SubmissionResult)
      requires Valid() && minPrice <= request.price <= maxPrice
      requires LooksLiquid(request.side, Some(request.price), Abs().On(Opposite(request.side)), request.quantity)
               ==> MatchFits(request.side, Some(request.price), request.quantity, Abs().On(Opposite(request.side)))
      modifies this, pool, bids, asks, bids.levels, asks.levels
      ensures Valid()
      ensures pool.slabs == old(pool.slabs)
      ensures (Abs(), result) == SubmitFillOrKill(old(Abs()), request)
      ensures var crossing := Crossing(request.side, Some(request.price), old(Abs()).On(Opposite(request.side)));
              result.status.Filled? ==>
                (result.filled == request.quantity
                 <==> request.quantity >= 0 && Reaches(crossing, request.quantity))
    {
      hide Valid, Orders, SweepSoFar, SweepQueue, Executed, MatchFits, GrewOnDemand, LooksLiquid, Reaches;
      hide Crossing, Book.Ordered;
      FokFills(request);
      var enough := HasLiquidity(Opposite(request.side), request.price, request.quantity);
      if !enough {
        return SubmissionResult(request.quantity, 0, SubmitStatus.Killed, []);
      }
      ghost var book := Abs();
      ghost var q0 := book.On(Opposite(request.side));
      var side, makers := request.side, Opposite(request.side);
      var limit := Some(request.price);
      var remainingShares, filled, executions := request.quantity, 0, [];
      SweepBegins(side, limit, request.quantity, q0);
      while remainingShares > 0
        invariant Valid() && OnlySide(makers, book) && pool.slabs == old(pool.slabs)
        invariant IsInt32(remainingShares) && (0 < request.quantity ==> 0 <= remainingShares)
        invariant MatchFits(side, limit, remainingShares, Orders(makers))
        invariant SweepSoFar(side, limit, request.quantity, q0, executions, filled, remainingShares, Orders(makers))
        decreases |Orders(makers)|
      {
        ghost var q := Orders(makers);
        var bestPrice, takingId, takingQuantity := PeekFront(makers);
        if bestPrice.Some? && Crosses(side, limit, bestPrice.value) {
          if takingQuantity > remainingShares {
            SweepEndsInside(side, limit, request.quantity, q0, executions, filled, remainingShares, q);
            executions := executions + [Execution(takingId, bestPrice.value, remainingShares)];
            TakeFromFront(makers, remainingShares);
            filled := filled + remainingShares;
            return SubmissionResult(request.quantity, filled, SubmitStatus.Filled, executions);
          } else {
            SweepTakes(side, limit, request.quantity, q0, executions, filled, remainingShares, q);
            MatchFitsOn(side, limit, remainingShares, q);
            executions := executions + [Execution(takingId, bestPrice.value, takingQuantity)];
            filled := filled + takingQuantity;
            remainingShares := remainingShares - takingQuantity;
            ClearFront(makers);
          }
        } else {
          assert q == [] || !Crosses(side, limit, q[0].price);
          break;
        }
      }
      SweepStops(side, limit, request.quantity, q0, executions, filled, remainingShares, Orders(makers));
      result := SubmissionResult(request.quantity, filled, SubmitStatus.Filled, executions);
    }

    lemma FokFills(r: LimitOrderRequest)
      requires Valid()
      ensures var result := SubmitFillOrKill(Abs(), r).1;
              var crossing := Crossing(r.side, Some(r.price), Abs().On(Opposite(r.side)));
              result.status.Filled? ==>
                (result.filled == r.quantity <==> r.quantity >= 0 && Reaches(crossing, r.quantity))
    {
      hide Valid, Orders, Abs, Reaches, Crossing, SubmitFillOrKill;
      AbsIsOrdered();
      if SubmitFillOrKill(Abs(), r).1.status.Filled? { FillOrKillFillsExactlyWhen(Abs(), r); }
    }

    method HasLiquidity(makers: Side, price: int, quantity: int) returns (enough: bool)
      requires Valid() && IsInt32(quantity) && minPrice <= price <= maxPrice
      ensures enough <==> LooksLiquid(Opposite(makers), Some(price), Orders(makers), quantity)
    {
      hide MemoryPool.Valid, Registered, PriceLadder.Valid, PriceLadder.Orders, LooksLiquid;
      BookShape();
      QueueOf(makers);
      enough := Ladder(makers).HasSufficientMarketableLiquidity(price, quantity, pool.blocks);
    }

    method SubmitLimitOrderResting(request: LimitOrderRequest) returns (result: SubmissionResult)
      requires Valid() && request.id !in idToOrder && minPrice <= request.price <= maxPrice
      requires MatchFits(request.side, Some(request.price), request.quantity, Abs().On(Opposite(request.side)))
      requires Match(Abs(), request.side, Some(request.price), request.quantity).remaining == 0
               || Room(Abs(), request.side, request.price)
      modifies this, pool, bids, asks, bids.levels, asks.levels
      ensures Valid()
      ensures GrewOnDemand(pool.initial, old(|pool.slabs|), |pool.slabs|, pool.currentlyAllocated)
      ensures (Abs(), result) == SubmitResting(old(Abs()), request)
    {
      hide Valid, Orders, SweepSoFar, SweepQueue, Executed, MatchFits, AtPrice, Insert;
      ghost var book := Abs();
      ghost var q0 := book.On(Opposite(request.side));
      var side, makers := request.side, Opposite(request.side);
      var limit := Some(request.price);
      var remainingShares, filled, executions := request.quantity, 0, [];
      SweepBegins(side, limit, request.quantity, q0);
      while remainingShares > 0
        invariant Valid() && OnlySide(makers, book) && pool.slabs == old(pool.slabs)
        invariant request.id !in idToOrder
        invariant IsInt32(remainingShares) && (0 < request.quantity ==> 0 <= remainingShares)
        invariant MatchFits(side, limit, remainingShares, Orders(makers))
        invariant SweepSoFar(side, limit, request.quantity, q0, executions, filled, remainingShares, Orders(makers))
        decreases |Orders(makers)|
      {
        ghost var q := Orders(makers);
        var bestPrice, takingId, takingQuantity := PeekFront(makers);
        if bestPrice.Some? && Crosses(side, limit, bestPrice.value) {
          if takingQuantity > remainingShares {
            SweepEndsInside(side, limit, request.quantity, q0, executions, filled, remainingShares, q);
            executions := executions + [Execution(takingId, bestPrice.value, remainingShares)];
            TakeFromFront(makers, remainingShares);
            filled := filled + remainingShares;
            return SubmissionResult(request.quantity, filled, SubmitStatus.Filled, executions);
          } else {
            SweepTakes(side, limit, request.quantity, q0, executions, filled, remainingShares, q);
            MatchFitsOn(side, limit, remainingShares, q);
            executions := executions + [Execution(takingId, bestPrice.value, takingQuantity)];
            filled := filled + takingQuantity;
            remainingShares := remainingShares - takingQuantity;
            ClearFront(makers);
          }
        } else {
          assert q == [] || !Crosses(side, limit, q[0].price);
          break;
        }
      }
      SweepStops(side, limit, request.quantity, q0, executions, filled, remainingShares, Orders(makers));
      if remainingShares == 0 {
        return SubmissionResult(request.quantity, filled, SubmitStatus.Filled, executions);
      }
      RestOrder(request.id, remainingShares, if request.tif.Gtc? then GoodTillCancel else DayOnly, side, request.price);
      result := SubmissionResult(request.quantity, filled,
                                 if remainingShares < request.quantity then SubmitStatus.PartiallyFilledResting
                                 else SubmitStatus.Resting,
                                 executions);
    }

    method SubmitLimitOrder(request: LimitOrderRequest) returns (result: SubmissionResult)
      requires Valid() && Admissible(Abs(), request)
      modifies this, pool, bids, asks, bids.levels, asks.levels
      ensures Valid()
      ensures GrewOnDemand(pool.initial, old(|pool.slabs|), |pool.slabs|, pool.currentlyAllocated)
      ensures (Abs(), result) == SubmitLimit(old(Abs()), request)
    {
      hide Valid, Orders, SubmitResting, SubmitAndDrop, SubmitFillOrKill, Room;
      HeldIds();
      if request.id in idToOrder || request.price > maxPrice || request.price < minPrice {
        return SubmissionResult(request.quantity, 0, SubmitStatus.Rejected, []);
      }
      match request.tif
      case Gtc => result := SubmitLimitOrderResting(request);
      case Day => result := SubmitLimitOrderResting(request);
      case Ioc => result := SubmitLimitOrderIoc(request);
      case Fok => result := SubmitLimitOrderFok(request);
    }

    // ---------- modification ----------

    /** Cancels the order and submits it anew with the same id, side and lifetime. */
    method ModifyOrder(request: ModifyOrderRequest) returns (result: ModificationResult)
      requires Valid() && ModifyFits(Abs(), request)
      modifies this, pool, bids, asks, bids.levels, asks.levels
      ensures Valid()
      ensures GrewOnDemand(pool.initial, old(|pool.slabs|), |pool.slabs|, pool.currentlyAllocated)
      ensures (Abs(), result) == Modify(old(Abs()), request)
    {
      hide Valid, Orders, SubmitLimit, Cancel, Room;
      if request.newPrice > maxPrice || request.newPrice < minPrice {
        return ModificationResult(0, ModificationStatus.Rejected, None);
      }
      HeldIds();
      LookupHeld(Abs(), request.id);
      if request.id !in idToOrder {
        return ModificationResult(0, ModificationStatus.NotFound, None);
      }
      HeldOrder(request.id);
      AbsIsOrdered();
      CancelFreesId(Abs(), request.id);
      CancelReports(Abs(), request.id);
      var resubmitOrder := pool.blocks[idToOrder[request.id]].order;
      var originalLifetime := if resubmitOrder.lifetime == GoodTillCancel then Gtc else Day;
      var cancelResult := CancelOrder(CancelOrderRequest(request.id));
      if request.newQuantity > 0 {
        var limitRequest := LimitOrderRequest(request.id, request.newPrice, request.newQuantity, resubmitOrder.side,
                                              originalLifetime);
        var resubmitResult := SubmitLimitOrder(limitRequest);
        result := ModificationResult(resubmitOrder.quantity, ModificationStatus.Resubmitted, Some(resubmitResult));
      } else {
        result := ModificationResult(cancelResult.quantityCancelled, ModificationStatus.Canceled, None);
      }
    }

    // ---------- replayed changes ----------

    method ReplayAddVisibleOrder(id: OrderId, price: int, quantity: Quantity, side: Side) returns (applied: bool)
      requires Valid() && AddFits(Abs(), id, price, quantity, side)
      modifies this, pool, bids, asks, bids.levels, asks.levels
      ensures Valid()
      ensures GrewOnDemand(pool.initial, old(|pool.slabs|), |pool.slabs|, pool.currentlyAllocated)
      ensures (Abs(), applied) == ReplayAdd(old(Abs()), id, price, quantity, side)
    {
      hide Valid, Orders, Rest, AtPrice;
      HeldIds();
      if quantity == 0 || id in idToOrder || price < minPrice || price > maxPrice {
        return false;
      }
      RestOrder(id, quantity, GoodTillCancel, side, price);
      return true;
    }

    method ReplayDeleteVisibleOrder(id: OrderId) returns (applied: bool)
      requires Valid()
      modifies this, pool, bids, asks, bids.levels, asks.levels
      ensures Valid()
      ensures pool.slabs == old(pool.slabs)
      ensures (Abs(), applied) == ReplayDelete(old(Abs()), id)
    {
      hide Valid, Orders, Abs;
      var cancelResult := CancelOrder(CancelOrderRequest(id));
      return cancelResult.status == CancelStatus.Canceled;
    }

    /** Takes shares off a resting order, which keeps its place in the queue. */
    method ReduceInPlace(order: nat, quantityReduced: int)
      requires Valid() && IsLive(pool.blocks, order) && quantityReduced < pool.blocks[order].order.quantity
      requires IsInt32(pool.blocks[order].order.quantity - quantityReduced)
      modifies pool`blocks, bids.levels, asks.levels
      ensures Valid()
      ensures var o := OrderAt(old(pool.blocks), order);
              Abs() == old(Abs()).With(o.side, Reduce(old(Abs()).On(o.side), o.id, quantityReduced))
    {
      hide MemoryPool.Valid, PriceLevel.Valid, Registered, Chain, Threaded, Confined, BestIs, Flatten, View;
      hide ViewsOf, DistinctIds, Shares;
      ghost var i, m := WhereLinked(order);
      ghost var o := pool.blocks[order].order;
      LinkedOrder(order, i, m);
      var level := pool.blocks[order].order.level as PriceLevel;
      ghost var before, lists, views := pool.blocks, Lists(o.side), Levels(o.side);
      level.Facts(before);
      level.ReduceOrderQuantity(pool, order, quantityReduced);
      LevelsAfterChange(o.side, i, before, lists);
      assert Lists(o.side) == lists;
      ViewsOfAt(before, minPrice, lists, i);
      ElementRequantified(before, level, minPrice + i, lists[i], m, o.quantity - quantityReduced);
      RegisteredRequantified(before, idToOrder, bids.Lists(), asks.Lists(), order, o.quantity - quantityReduced);
      LevelReduced(o.side, views, minPrice, Ladder(o.side).bestPrice, i, m, quantityReduced);
    }

    method ReplayReduceVisibleOrder(id: OrderId, quantityReduced: Quantity) returns (applied: bool)
      requires Valid() && TakeFits(Abs(), id, quantityReduced)
      modifies this, pool, bids, asks, bids.levels, asks.levels
      ensures Valid()
      ensures pool.slabs == old(pool.slabs)
      ensures (Abs(), applied) == ReplayReduce(old(Abs()), id, quantityReduced)
    {
      hide Valid, Orders, Abs, Cancel;
      if quantityReduced == 0 {
        return false;
      }
      HeldIds();
      LookupHeld(Abs(), id);
      if id !in idToOrder {
        return false;
      }
      HeldOrder(id);
      var order := idToOrder[id];
      if quantityReduced > pool.blocks[order].order.quantity {
        return false;
      }
      if quantityReduced == pool.blocks[order].order.quantity {
        applied := ReplayDeleteVisibleOrder(id);
        return;
      }
      ReduceInPlace(order, quantityReduced);
      return true;
    }

    method ReplayReplaceVisibleOrder(originalId: OrderId, newId: OrderId, newPrice: int, newQuantity: Quantity)
      returns (applied: bool)
      requires Valid() && ReplaceFits(Abs(), originalId, newId, newPrice, newQuantity)
      modifies this, pool, bids, asks, bids.levels, asks.levels
      ensures Valid()
      ensures GrewOnDemand(pool.initial, old(|pool.slabs|), |pool.slabs|, pool.currentlyAllocated)
      ensures (Abs(), applied) == ReplayReplace(old(Abs()), originalId, newId, newPrice, newQuantity)
    {
      hide Valid, Orders, Cancel, ReplayAdd, AddFits;
      HeldIds();
      LookupHeld(Abs(), originalId);
      if newQuantity == 0 || newPrice < minPrice || newPrice > maxPrice || newId in idToOrder {
        return false;
      }
      if originalId !in idToOrder {
        return false;
      }
      HeldOrder(originalId);
      var originalSide := pool.blocks[idToOrder[originalId]].order.side;
      var deleted := ReplayDeleteVisibleOrder(originalId);
      if !deleted {
        return false;
      }
      applied := ReplayAddVisibleOrder(newId, newPrice, newQuantity, originalSide);
    }

    // ---------- session end ----------

    /** A side was pruned: the registry, the other ladder and the queues are as they should be. */
    lemma SidePruned(side: Side, before: Blocks, ids: IdMap, own: Lists, other: Lists, t: PruneResult,
                     result: PruneResult)
      requires Shape() && pool.Valid() && Ladder(side).Valid(pool.blocks)
      requires RegisteredOn(side, before, ids, own, other) && Separate(own)
      requires LadderProgress(before, pool.blocks, minPrice, own, Lists(side), |own|, ids, idToOrder, t, result)
      requires Lists(Opposite(side)) == other
      requires Ladder(Opposite(side)).Valid(before)
      ensures Sound() && RegisteredOn(side, pool.blocks, idToOrder, Lists(side), Lists(Opposite(side)))
      ensures Flatten(side, Levels(side)) == WithLifetime(Flatten(side, ViewsOf(before, minPrice, own)), GoodTillCancel)
      ensures Levels(Opposite(side)) == ViewsOf(before, minPrice, other)
      ensures result == AddLevels(t, ViewsOf(before, minPrice, own))
    {
      hide MemoryPool.Valid, PriceLadder.Valid, Swept, KeptLists, DayIds, SideLinked, Separate, ViewsOf, Flatten;
      hide AddLevels, WithLifetime, Indexed;
      ProgressParts(before, pool.blocks, minPrice, own, Lists(side), |own|, ids, idToOrder, t, result);
      RegisteredSwept(side, before, pool.blocks, minPrice, ids, own, Lists(side), other);
      KeptViews(side, before, pool.blocks, minPrice, own, Lists(side));
      FlattenLifetime(side, ViewsOf(before, minPrice, own), Levels(side), GoodTillCancel);
      OtherSideSwept(side, before, pool.blocks, own, other);
      OtherLadderKept(side, before, own);
      assert ViewsOf(before, minPrice, own)[..|own|] == ViewsOf(before, minPrice, own);
    }

    lemma OtherLadderKept(side: Side, before: Blocks, own: Lists)
      requires Shape() && Swept(before, pool.blocks, own, |own|) && Ladder(Opposite(side)).Valid(before)
      requires forall i, k :: 0 <= i < |Lists(Opposite(side))| && k in Lists(Opposite(side))[i] ==> !InSome(own, k)
      ensures Ladder(Opposite(side)).Valid(pool.blocks)
      ensures Levels(Opposite(side)) == Ladder(Opposite(side)).Contents(before)
    {
      hide Swept, Chain, View, Shares, InSome, BestIs;
      var ladder := Ladder(Opposite(side));
      forall j | 0 <= j < |ladder.levels|
        ensures ladder.levels[j].Valid(pool.blocks)
        ensures View(pool.blocks, minPrice + j, ladder.levels[j].orders)
             == View(before, minPrice + j, ladder.levels[j].orders)
      {
        var chain := Lists(Opposite(side))[j];
        ladder.levels[j].Facts(before);
        forall k | k in chain ensures !InSome(own, k) {
          assert k in Lists(Opposite(side))[j];
        }
        ChainSwept(before, pool.blocks, own, ladder.levels[j], minPrice + j, chain);
      }
      assert ladder.Contents(pool.blocks) == ladder.Contents(before);
    }

    /** Prunes one side of the book, unless it is empty. */
    method PruneSide(side: Side, dayResult: PruneResult) returns (result: PruneResult)
      requires Valid()
      modifies this, pool, bids, asks, bids.levels, asks.levels
      ensures Valid()
      ensures pool.slabs == old(pool.slabs)
      ensures Abs() == old(Abs()).With(side, WithLifetime(old(Abs()).On(side), GoodTillCancel))
      ensures result == AddLevels(dayResult, LevelsOf(old(Abs()).On(side), minPrice, maxPrice))
    {
      hide MemoryPool.Valid, PriceLadder.Valid, Registered, RegisteredOn, LadderProgress, SideLinked, Separate, Sound;
      hide Flatten, ViewsOf, PriceLadder.Lists, PriceLadder.Contents, PriceLadder.Orders, Abs, AddLevels, LevelsOf;
      hide WithLifetime;
      ghost var before, ids, own, other, book := pool.blocks, idToOrder, Lists(side), Lists(Opposite(side)), Abs();
      PruneFacts(side);
      result := dayResult;
      if Ladder(side).bestPrice.Some? {
        result, idToOrder := Ladder(side).PruneDayOrders(pool, idToOrder, dayResult);
        SidePruned(side, before, ids, own, other, dayResult, result);
        Settled(side, book, WithLifetime(book.On(side), GoodTillCancel));
      }
    }

    /** What pruning a side starts from. */
    lemma PruneFacts(side: Side)
      requires Valid()
      ensures Shape() && pool.Valid() && Ladder(side).Valid(pool.blocks) && Ladder(Opposite(side)).Valid(pool.blocks)
      ensures SideLinked(pool.blocks, side, Ladder(side).Lists()) && Ladder(side).side == side
      ensures RegisteredOn(side, pool.blocks, idToOrder, Lists(side), Lists(Opposite(side))) && Separate(Lists(side))
      ensures Abs().On(side) == Flatten(side, ViewsOf(pool.blocks, minPrice, Lists(side)))
      ensures Abs().On(Opposite(side)) == Flatten(Opposite(side), ViewsOf(pool.blocks, minPrice, Lists(Opposite(side))))
      ensures Abs().minPrice == minPrice && Abs().maxPrice == maxPrice
      ensures LevelsOf(Abs().On(side), minPrice, maxPrice) == ViewsOf(pool.blocks, minPrice, Lists(side))
      ensures Ladder(side).bestPrice.None? ==>
                && Abs() == Abs().With(side, WithLifetime(Abs().On(side), GoodTillCancel))
                && forall t :: AddLevels(t, LevelsOf(Abs().On(side), minPrice, maxPrice)) == t
    {
      hide MemoryPool.Valid, PriceLadder.LevelsValid, Registered, RegisteredOn, SideLinked, Separate, Flatten;
      hide ViewsOf, AddLevels, Priced;
      Registration(side);
      LinkedSides(side);
      Ladder(side).ListsAreSeparate(pool.blocks);
      Ladder(side).ContentsPriced(pool.blocks);
      LevelsOfFlatten(side, Levels(side), minPrice, maxPrice);
      if Ladder(side).bestPrice.None? {
        FlattenEmpty(side, Levels(side));
        forall t ensures AddLevels(t, Levels(side)) == t { NothingToReport(t, Levels(side)); }
      }
    }

    lemma LinkedSides(side: Side)
      requires Valid()
      ensures SideLinked(pool.blocks, side, Lists(side))
    {
      hide Sound, SideLinked;
    }

    method OnSessionEnd() returns (result: PruneResult)
      requires Valid()
      modifies this, pool, bids, asks, bids.levels, asks.levels
      ensures Valid()
      ensures pool.slabs == old(pool.slabs)
      ensures (Abs(), result) == SessionEnd(old(Abs()))
    {
      hide Valid, Orders, AddLevels, LevelsOf, WithLifetime;
      result := PruneSide(Buy, PruneResult(0, 0, 0));
      result := PruneSide(Sell, result);
    }

    // ---------- what the book shows ----------

    method GetBestPrice(side: Side) returns (best: Option<int>)
      requires Valid()
      ensures best == Top(Abs().On(side))
    {
      hide Valid, Orders;
      FrontOfBook(side);
      best := Ladder(side).bestPrice;
    }

    lemma SummaryOfSide(side: Side)
      requires Valid()
      ensures Shape() && Ladder(side).Valid(pool.blocks)
      ensures Ladder(side).side == side && Ladder(side).minPrice == minPrice
      ensures Summary(side, minPrice, Levels(side)) == Occupied(Orders(side))
    {
      hide MemoryPool.Valid, PriceLadder.LevelsValid, Registered, BestIs, Flatten, ViewsOf, Summary, Occupied, Priced;
      Ladder(side).ContentsPriced(pool.blocks);
      SummaryIsOccupied(side, minPrice, Levels(side));
    }

    /** Prices that have orders, counted level by level. */
    method GetNumLevels(side: Side) returns (count: nat)
      requires Valid()
      ensures count == |Occupied(Abs().On(side))|
    {
      hide Valid, PriceLadder.Orders, PriceLadder.Contents, Summary, Occupied;
      SummaryOfSide(side);
      count := Ladder(side).GetNumNonEmptyLevels(pool.blocks);
    }

    /** The best `depth` prices with their volumes, best first. */
    method GetTopLevels(side: Side, depth: nat) returns (result: seq<PriceVolume>)
      requires Valid()
      ensures result == Prefix(Occupied(Abs().On(side)), depth)
    {
      hide Valid, PriceLadder.Orders, PriceLadder.Contents, Summary, Occupied;
      SummaryOfSide(side);
      result := Ladder(side).GetTopLevels(depth, pool.blocks);
    }

    /** Order count, share count and existence of one level. */
    method LevelAt(price: int, side: Side) returns (orders: nat, shares: int, exist: bool)
      requires Valid() && minPrice <= price <= maxPrice
      ensures var level := AtPrice(Abs().On(side), price);
              orders == |level| && shares == ShownVolume(level) && exist == (level != [])
    {
      hide MemoryPool.Valid, PriceLadder.Orders, PriceLadder.Contents, PriceLadder.LevelsValid, Registered, AtPrice;
      hide BestIs, View;
      ghost var ladder := Ladder(side);
      LevelContents(side, price - minPrice);
      ladder.EmptyLevel(pool.blocks, price - minPrice);
      var level := Ladder(side).GetLevelAtPrice(price);
      orders, shares, exist := level.orderCount, level.totalVolume, !level.Empty();
    }

    lemma LevelContents(side: Side, i: nat)
      requires Valid() && i <= maxPrice - minPrice
      ensures i < |Levels(side)| && i < |Ladder(side).levels|
      ensures AtPrice(Orders(side), minPrice + i) == Levels(side)[i]
      ensures |Levels(side)[i]| == Ladder(side).levels[i].orderCount
    {
      hide MemoryPool.Valid, Registered, BestIs, Flatten, View, AtPrice, Priced, Chain;
      Ladder(side).ContentsPriced(pool.blocks);
      LevelOfQueue(side, Levels(side), minPrice, i);
      Ladder(side).levels[i].Facts(pool.blocks);
    }
  }
}
