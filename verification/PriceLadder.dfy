/** One side of the book: a dense array of price levels and the cached price of the best non-empty one. */
module PriceLadder {
  import opened Types
  import opened MemoryPool
  import opened PriceTime
  import opened TopLevels
  import opened LiquidityScan
  import opened Chains
  import opened PriceLevel
  import opened LadderView
  import opened LadderScans
  import opened BookSpec
  import opened Registry
  import opened Retirement
  import opened Pruning
  import opened SessionPruning

  class PriceLadder {
    const minPrice: Price
    const maxPrice: Price
    const side: Side
    const levels: seq<PriceLevel>
    var bestPrice: Option<int>

    ghost predicate Shape() {
      && minPrice <= maxPrice && |levels| == maxPrice - minPrice + 1
      && forall i :: 0 <= i < |levels| ==> levels[i].price == minPrice + i && levels[i].side == side
    }

    ghost predicate LevelsValid(blocks: Blocks)
      reads levels
    {
      forall i :: 0 <= i < |levels| ==> levels[i].Valid(blocks)
    }

    /** The block addresses linked into each level, oldest first. */
    ghost function Lists(): (lists: Lists)
      reads levels
      ensures |lists| == |levels|
    {
      seq(|levels|, i requires 0 <= i < |levels| reads levels => levels[i].orders)
    }

    ghost function Contents(blocks: Blocks): (v: Views)
      reads levels
      ensures |v| == |levels|
    {
      ViewsOf(blocks, minPrice, Lists())
    }

    ghost predicate Valid(blocks: Blocks)
      reads this, levels
    {
      && Shape()
      && LevelsValid(blocks)
      && BestIs(side, minPrice, Contents(blocks), bestPrice)
    }

    /** The side of the book as one price-time queue. */
    ghost function Orders(blocks: Blocks): Queue
      reads levels
    {
      Flatten(side, Contents(blocks))
    }

    ghost predicate IsNew()
      reads this, levels
    {
      bestPrice.None? && forall i :: 0 <= i < |levels| ==> levels[i].IsNew()
    }

    constructor (minPrice: Price, maxPrice: Price, side: Side)
      requires minPrice <= maxPrice
      ensures Shape() && fresh(this) && fresh(levels) && IsNew()
      ensures this.minPrice == minPrice && this.maxPrice == maxPrice && this.side == side
    {
      this.minPrice, this.maxPrice, this.side := minPrice, maxPrice, side;
      bestPrice := None;
      var levelCount := maxPrice - minPrice + 1;
      var built: seq<PriceLevel> := [];
      for i := 0 to levelCount
        invariant |built| == i && fresh(built)
        invariant forall j :: 0 <= j < i ==> built[j].price == minPrice + j && built[j].side == side && built[j].IsNew()
      {
        var level := new PriceLevel(minPrice + i, side);
        built := built + [level];
      }
      levels := built;
    }

    lemma NewLadderIsEmpty(blocks: Blocks)
      requires Shape() && IsNew()
      ensures Valid(blocks) && Orders(blocks) == []
    {
      FlattenEmpty(side, Contents(blocks));
    }

    lemma ListsAreSeparate(blocks: Blocks)
      requires Shape() && LevelsValid(blocks)
      ensures Separate(Lists())
    {
      hide View, Shares;
      forall i | 0 <= i < |levels| ensures Distinct(Lists()[i]) {
        levels[i].Facts(blocks);
      }
      forall i, j, k | 0 <= i < |levels| && 0 <= j < |levels| && i != j
          && k in levels[i].orders ensures k !in levels[j].orders {
        assert levels[i].price != levels[j].price;
        NodeOf(blocks, levels[i], levels[i].orders, k);
        if k in levels[j].orders {
          NodeOf(blocks, levels[j], levels[j].orders, k);
          assert false;
        }
      }
    }

    lemma ChainsOf(blocks: Blocks)
      requires LevelsValid(blocks)
      ensures forall i :: 0 <= i < |levels| ==> Chain(blocks, levels[i], Lists()[i])
    {
      forall i | 0 <= i < |levels| ensures Chain(blocks, levels[i], Lists()[i]) {
        levels[i].Facts(blocks);
      }
    }

    lemma ContentsPriced(blocks: Blocks)
      requires Shape()
      ensures Priced(Contents(blocks), minPrice)
    {
    }

    lemma BestIsTopOfOrders(blocks: Blocks)
      requires Valid(blocks)
      ensures bestPrice == Top(Orders(blocks))
    {
      ContentsPriced(blocks);
      BestIsTop(side, minPrice, Contents(blocks), bestPrice);
    }

    /** One level changed; the others, and their orders, did not. */
    lemma LevelChanged(i: nat, before: Blocks, after: Blocks, lists: Lists)
      requires Shape() && i < |levels| == |lists|
      requires forall j :: 0 <= j < |levels| && j != i ==> levels[j].Valid(before) && levels[j].orders == lists[j]
      requires levels[i].Valid(after) && Confined(before, after, levels[i])
      ensures LevelsValid(after)
      ensures Lists() == lists[i := levels[i].orders]
      ensures Contents(after) == ViewsOf(before, minPrice, lists)[i := View(after, minPrice + i, levels[i].orders)]
    {
      hide PriceLevel.Valid, View, Confined;
      forall j | 0 <= j < |levels| && j != i
        ensures levels[j].Valid(after) && View(after, minPrice + j, lists[j]) == View(before, minPrice + j, lists[j])
      {
        levels[j].Untouched(before, after, levels[i]);
      }
    }

    /** A change confined to a level of another ladder. */
    lemma LadderUntouched(before: Blocks, after: Blocks, touched: object?)
      requires Shape() && LevelsValid(before) && Confined(before, after, touched)
      requires forall i :: 0 <= i < |levels| ==> levels[i] != touched
      ensures LevelsValid(after) && Contents(after) == Contents(before)
    {
      hide PriceLevel.Valid, View, Confined;
      forall j | 0 <= j < |levels|
        ensures levels[j].Valid(after)
        ensures View(after, minPrice + j, levels[j].orders) == View(before, minPrice + j, levels[j].orders)
      {
        levels[j].Untouched(before, after, touched);
      }
    }

    lemma EmptyLevel(blocks: Blocks, i: nat)
      requires Shape() && LevelsValid(blocks) && i < |levels|
      ensures levels[i].Empty() <==> Contents(blocks)[i] == []
      ensures levels[i].totalVolume == ShownVolume(Contents(blocks)[i])
    {
      hide View, Shares, WrapU64;
    }

    function GetLevelAtPrice(price: int): PriceLevel
      requires Shape() && minPrice <= price <= maxPrice
    {
      levels[price - minPrice]
    }

    method SetBestPrice(price: int)
      requires minPrice <= price <= maxPrice
      modifies this
      ensures bestPrice == Some(price)
    {
      bestPrice := Some(price);
    }

    /** Rescans from the given price towards worse prices only. */
    method UpdateBestPriceFromGiven(startingPrice: int, ghost blocks: Blocks)
      requires Shape() && LevelsValid(blocks) && minPrice <= startingPrice <= maxPrice
      modifies this
      ensures ScanFrom(side, minPrice, Contents(blocks), startingPrice, bestPrice)
    {
      hide PriceLevel.Valid, View, LevelsValid, Contents;
      ghost var views := Contents(blocks);
      var i := startingPrice - minPrice;
      if side.Buy? {
        while true
          invariant 0 <= i <= startingPrice - minPrice
          invariant forall j :: i < j <= startingPrice - minPrice ==> views[j] == []
          decreases i
        {
          EmptyLevel(blocks, i);
          if !levels[i].Empty() {
            bestPrice := Some(i + minPrice);
            return;
          }
          if i == 0 {
            break;
          }
          i := i - 1;
        }
      } else {
        while i < |levels|
          invariant startingPrice - minPrice <= i <= |levels|
          invariant forall j :: startingPrice - minPrice <= j < i ==> views[j] == []
        {
          EmptyLevel(blocks, i);
          if !levels[i].Empty() {
            bestPrice := Some(i + minPrice);
            return;
          }
          i := i + 1;
        }
      }
      bestPrice := None;
    }

    /** After work that left no better level non-empty, the one-directional rescan restores the cache. */
    method RefreshBestPrice(startingPrice: int, ghost blocks: Blocks)
      requires Shape() && LevelsValid(blocks) && minPrice <= startingPrice <= maxPrice
      requires NoneBetter(side, minPrice, Contents(blocks), startingPrice)
      modifies this
      ensures Valid(blocks)
    {
      UpdateBestPriceFromGiven(startingPrice, blocks);
      ScanFindsBest(side, minPrice, Contents(blocks), startingPrice, bestPrice);
    }

    /** Can an order of the other side trade `requiredLiquidity` shares at `thresholdPrice` or better? The running total
        wraps at 64 bits; where all quantities are positive it never does, because the scan stops once it suffices. */
    method HasSufficientMarketableLiquidity(thresholdPrice: int, requiredLiquidity: int, ghost blocks: Blocks)
      returns (enough: bool)
      requires Valid(blocks) && minPrice <= thresholdPrice <= maxPrice && IsInt32(requiredLiquidity)
      ensures enough <==> LooksLiquid(Opposite(side), Some(thresholdPrice), Orders(blocks), requiredLiquidity)
      ensures Positive(Orders(blocks)) && requiredLiquidity > 0 ==>
                (enough <==> Marketable(Opposite(side), Some(thresholdPrice), Orders(blocks)) >= requiredLiquidity)
    {
      hide PriceLevel.Valid, View, LevelsValid, Contents, BestIs, Flatten, Marketable, Priced, Crossing, ScanEnough;
      hide Occupied, Positive, Bounded, SummaryOf;
      ghost var views := Contents(blocks);
      ContentsPriced(blocks);
      OrdersBounded(blocks);
      if Positive(Orders(blocks)) && requiredLiquidity > 0 {
        LiquidIsMarketable(Opposite(side), Some(thresholdPrice), Orders(blocks), requiredLiquidity);
      }
      if bestPrice.None? || Better(side, thresholdPrice, bestPrice.value) {
        NothingCrosses(side, views, minPrice, bestPrice, thresholdPrice);
        NothingToScan(WrapU64(requiredLiquidity));
        return false;
      }
      BestInRange(blocks);
      ghost var b, k := bestPrice.value - minPrice, thresholdPrice - minPrice;
      var required := WrapU64(requiredLiquidity);
      if side.Buy? {
        enough := ScanBids(bestPrice.value - minPrice, thresholdPrice - minPrice, required, blocks);
        CrossingBidsFromBest(views, minPrice, b, k);
        RangeIsOccupied(Buy, minPrice, views, k, b + 1);
      } else {
        enough := ScanAsks(bestPrice.value - minPrice, thresholdPrice - minPrice, required, blocks);
        CrossingAsksFromBest(views, minPrice, b, k);
        RangeIsOccupied(Sell, minPrice, views, b, k + 1);
      }
    }

    lemma NothingToScan(required: int)
      ensures !ScanEnough(Occupied([]), 0, required)
    {
    }

    /** In a real ladder quantities have 32 bits, and a price has fewer than 2^32 orders. */
    lemma OrdersBounded(blocks: Blocks)
      requires Shape() && LevelsValid(blocks)
      ensures Bounded(Orders(blocks))
    {
      hide PriceLevel.Valid, View, LevelsValid, Flatten, AtPrice;
      ghost var views := Contents(blocks);
      ContentsPriced(blocks);
      forall i | 0 <= i < |Orders(blocks)| ensures IsInt32(Orders(blocks)[i].quantity) {
        OrderBounded(blocks, Orders(blocks)[i]);
      }
      forall price ensures |AtPrice(Orders(blocks), price)| <= UINT32_MAX {
        PriceBounded(blocks, price);
      }
    }

    lemma OrderBounded(blocks: Blocks, r: RestingView)
      requires LevelsValid(blocks) && r in Orders(blocks)
      ensures IsInt32(r.quantity)
    {
      hide PriceLevel.Valid, View, LevelsValid, Flatten;
      var views := Contents(blocks);
      FlattenMember(side, views, r);
      var i :| 0 <= i < |views| && r in views[i];
      var m :| 0 <= m < |views[i]| && views[i][m] == r;
      QuantityBounded(blocks, i, m);
    }

    lemma QuantityBounded(blocks: Blocks, i: nat, m: nat)
      requires LevelsValid(blocks) && i < |levels| && m < |Contents(blocks)[i]|
      ensures IsInt32(Contents(blocks)[i][m].quantity)
    {
      levels[i].Facts(blocks);
      assert NodeAt(blocks, levels[i], levels[i].orders, m);
    }

    lemma PriceBounded(blocks: Blocks, price: int)
      requires Shape() && LevelsValid(blocks)
      ensures |AtPrice(Orders(blocks), price)| <= UINT32_MAX
    {
      hide View, Flatten, AtPrice, Priced, Chain;
      var views, i := Contents(blocks), price - minPrice;
      ContentsPriced(blocks);
      if 0 <= i < |views| {
        LevelOfQueue(side, views, minPrice, i);
        levels[i].Facts(blocks);
      } else {
        assert views[0..|views|] == views;
        PartPrices(side, views, minPrice, 0, |views|);
        AtPriceNone(Orders(blocks), price);
      }
    }

    lemma BestInRange(blocks: Blocks)
      requires Valid(blocks)
      ensures bestPrice.Some? ==> minPrice <= bestPrice.value <= maxPrice
    {
    }

    method ScanBids(bestIndex: nat, thresholdIndex: nat, requiredLiquidity: int, ghost blocks: Blocks)
      returns (enough: bool)
      requires Shape() && LevelsValid(blocks)
      requires thresholdIndex <= bestIndex < |levels|
      ensures var levels := SummaryOf(Buy, minPrice, Contents(blocks), thresholdIndex, bestIndex + 1);
              enough <==> ScanEnough(levels, 0, requiredLiquidity)
    {
      hide PriceLevel.Valid, View, LevelsValid, Contents, ScanEnough, Summary, SummaryOf, WrapU64, ShownVolume;
      hide LevelSummary;
      ghost var views := Contents(blocks);
      ghost var whole := SummaryOf(Buy, minPrice, views, thresholdIndex, bestIndex + 1);
      var availableLiquidity := 0;
      var i := bestIndex;
      while true
        invariant thresholdIndex <= i <= bestIndex
        invariant ScanEnough(whole, 0, requiredLiquidity)
             <==> ScanEnough(SummaryOf(Buy, minPrice, views, thresholdIndex, i + 1), availableLiquidity,
                             requiredLiquidity)
        decreases i
      {
        EmptyLevel(blocks, i);
        ghost var rest := SummaryOf(Buy, minPrice, views, thresholdIndex, i);
        SummaryTop(minPrice, views, thresholdIndex, i);
        ScanSkips(rest, minPrice + i, availableLiquidity, requiredLiquidity);
        if !levels[i].Empty() {
          ScanStep(rest, minPrice + i, views[i], availableLiquidity, requiredLiquidity);
          availableLiquidity := WrapU64(availableLiquidity + levels[i].totalVolume);
          if availableLiquidity >= requiredLiquidity {
            return true;
          }
        }
        if i == thresholdIndex {
          NothingLeft(Buy, views, i, availableLiquidity, requiredLiquidity);
          break;
        }
        i := i - 1;
      }
      return false;
    }

    method ScanAsks(bestIndex: nat, thresholdIndex: nat, requiredLiquidity: int, ghost blocks: Blocks)
      returns (enough: bool)
      requires Shape() && LevelsValid(blocks)
      requires bestIndex <= thresholdIndex < |levels|
      ensures var levels := SummaryOf(Sell, minPrice, Contents(blocks), bestIndex, thresholdIndex + 1);
              enough <==> ScanEnough(levels, 0, requiredLiquidity)
    {
      hide PriceLevel.Valid, View, LevelsValid, Contents, ScanEnough, Summary, SummaryOf, WrapU64, ShownVolume;
      hide LevelSummary;
      ghost var views := Contents(blocks);
      ghost var whole := SummaryOf(Sell, minPrice, views, bestIndex, thresholdIndex + 1);
      var availableLiquidity := 0;
      for i := bestIndex to thresholdIndex + 1
        invariant ScanEnough(whole, 0, requiredLiquidity)
             <==> ScanEnough(SummaryOf(Sell, minPrice, views, i, thresholdIndex + 1), availableLiquidity,
                             requiredLiquidity)
      {
        EmptyLevel(blocks, i);
        ghost var rest := SummaryOf(Sell, minPrice, views, i + 1, thresholdIndex + 1);
        SummaryBottom(minPrice, views, i, thresholdIndex + 1);
        ScanSkips(rest, minPrice + i, availableLiquidity, requiredLiquidity);
        if !levels[i].Empty() {
          ScanStep(rest, minPrice + i, views[i], availableLiquidity, requiredLiquidity);
          availableLiquidity := WrapU64(availableLiquidity + levels[i].totalVolume);
          if availableLiquidity >= requiredLiquidity {
            return true;
          }
        }
      }
      NothingLeft(Sell, views, thresholdIndex + 1, availableLiquidity, requiredLiquidity);
      return false;
    }

    lemma NothingLeft(side: Side, views: Views, i: nat, total: int, required: int)
      requires i <= |views|
      ensures !ScanEnough(SummaryOf(side, minPrice, views, i, i), total, required)
    {
      assert views[i..i] == [];
    }

    method GetNumNonEmptyLevels(ghost blocks: Blocks) returns (count: nat)
      requires Shape() && LevelsValid(blocks)
      ensures count == |Summary(side, minPrice, Contents(blocks))|
    {
      hide PriceLevel.Valid, View, LevelsValid, Contents, Summary;
      ghost var views := Contents(blocks);
      count := 0;
      SummaryOfEmpty(side, minPrice, views, 0, 0);
      for i := 0 to |levels|
        invariant count == |SummaryOf(side, minPrice, views, 0, i)|
      {
        EmptyLevel(blocks, i);
        SummaryGrows(side, minPrice, views, i);
        if !levels[i].Empty() {
          count := count + 1;
        }
      }
      assert views[0..|levels|] == views;
    }

    /** The first `depth` occupied levels, best first, starting from the cached best price. */
    method GetTopLevels(depth: nat, ghost blocks: Blocks) returns (result: seq<PriceVolume>)
      requires Valid(blocks)
      ensures result == Prefix(Summary(side, minPrice, Contents(blocks)), depth)
    {
      hide PriceLevel.Valid, View, LevelsValid, Contents, Summary, BestIs;
      ghost var views := Contents(blocks);
      result := [];
      if depth == 0 || bestPrice.None? {
        NoLevels(blocks);
        return;
      }
      BestInRange(blocks);
      SummaryFromBest(side, minPrice, views, bestPrice.value - minPrice);
      if side.Buy? {
        result := ListBids(bestPrice.value - minPrice, depth, blocks);
      } else {
        result := ListAsks(bestPrice.value - minPrice, depth, blocks);
      }
    }

    lemma NoLevels(blocks: Blocks)
      requires Valid(blocks)
      ensures bestPrice.None? ==> Summary(side, minPrice, Contents(blocks)) == []
    {
      if bestPrice.None? {
        SummaryOfEmpty(side, minPrice, Contents(blocks), 0, |levels|);
        assert Contents(blocks)[0..|levels|] == Contents(blocks);
      }
    }

    method ListBids(bestIndex: nat, depth: nat, ghost blocks: Blocks) returns (result: seq<PriceVolume>)
      requires Shape() && LevelsValid(blocks) && bestIndex < |levels| && depth > 0 && side.Buy?
      ensures result == Prefix(SummaryOf(side, minPrice, Contents(blocks), 0, bestIndex + 1), depth)
    {
      hide PriceLevel.Valid, View, LevelsValid, Contents, Summary, SummaryOf;
      ghost var views := Contents(blocks);
      ghost var whole := SummaryOf(Buy, minPrice, views, 0, bestIndex + 1);
      result := [];
      var i := bestIndex;
      SummaryOfEmpty(Buy, minPrice, views, bestIndex + 1, bestIndex + 1);
      while true
        invariant 0 <= i <= bestIndex
        invariant result == SummaryOf(Buy, minPrice, views, i + 1, bestIndex + 1) && |result| < depth
        decreases i
      {
        EmptyLevel(blocks, i);
        SummaryDown(minPrice, views, i, bestIndex + 1);
        if !levels[i].Empty() {
          result := result + [(i + minPrice, levels[i].totalVolume)];
          if |result| == depth {
            SummaryPart(minPrice, views, i, bestIndex + 1);
            break;
          }
        }
        if i == 0 {
          break;
        }
        i := i - 1;
      }
    }

    method ListAsks(bestIndex: nat, depth: nat, ghost blocks: Blocks) returns (result: seq<PriceVolume>)
      requires Shape() && LevelsValid(blocks) && bestIndex < |levels| && depth > 0 && side.Sell?
      ensures result == Prefix(SummaryOf(side, minPrice, Contents(blocks), bestIndex, |levels|), depth)
    {
      hide PriceLevel.Valid, View, LevelsValid, Contents, Summary, SummaryOf;
      ghost var views := Contents(blocks);
      result := [];
      var i := bestIndex;
      SummaryOfEmpty(Sell, minPrice, views, bestIndex, bestIndex);
      while i < |levels| && |result| < depth
        invariant bestIndex <= i <= |levels|
        invariant result == SummaryOf(Sell, minPrice, views, bestIndex, i) && |result| <= depth
      {
        EmptyLevel(blocks, i);
        SummaryUp(minPrice, views, bestIndex, i);
        if !levels[i].Empty() {
          result := result + [(i + minPrice, levels[i].totalVolume)];
        }
        i := i + 1;
      }
      SummaryRest(minPrice, views, bestIndex, i);
    }

    /** Prunes one occupied level and adds its report to the totals. */
    method PruneLevel(i: nat, pool: MemoryPool, ids: IdMap, total: PruneResult,
                      ghost before: Blocks, ghost lists: Lists, ghost ids0: IdMap, ghost t: PruneResult)
      returns (result: PruneResult, remaining: IdMap)
      requires Shape() && pool.Valid() && LevelsValid(pool.blocks) && i < |levels| == |lists| && lists[i] != []
      requires LadderProgress(before, pool.blocks, minPrice, lists, Lists(), i, ids0, ids, t, total)
      requires Separate(lists) && Chain(before, levels[i], lists[i])
      modifies pool, levels[i]
      ensures pool.Valid() && LevelsValid(pool.blocks)
      ensures LadderProgress(before, pool.blocks, minPrice, lists, Lists(), i + 1, ids0, remaining, t, result)
      ensures pool.currentlyAllocated - old(pool.currentlyAllocated) == total.ordersPruned - result.ordersPruned
      ensures pool.slabs == old(pool.slabs)
    {
      hide MemoryPool.Valid, PriceLevel.Valid, View, Kept, Swept, Chain, Pruned, Separate, Confined, Tally, DayIds;
      hide AddLevels, WithLifetime, LadderProgress, WrapU64, NextU32;
      ghost var mid, was := pool.blocks, Lists();
      LevelNotReached(before, mid, minPrice, lists, was, i, ids0, ids, t, total);
      levels[i].Facts(mid);
      var stats;
      stats, remaining := levels[i].PruneDayOrders(pool, ids);
      LevelChanged(i, mid, pool.blocks, was);
      levels[i].Facts(pool.blocks);
      result := PruneResult(WrapU64(total.sharesErased + stats.quantityPruned),
                            total.ordersPruned + stats.ordersPruned, total.levelsErased);
      if levels[i].Empty() {
        result := result.(levelsErased := NextU32(result.levelsErased));
      }
      LadderStep(before, mid, pool.blocks, levels[i], minPrice, lists, was, Lists(), i, ids0, ids, t, total, stats,
                 remaining);
    }

    lemma LevelCount(blocks: Blocks, i: nat)
      requires LevelsValid(blocks) && i < |levels|
      ensures levels[i].Empty() <==> Lists()[i] == []
    {
      levels[i].Facts(blocks);
    }

    /** The DAY orders of every level go. */
    method PruneLevels(pool: MemoryPool, ids: IdMap, dayResult: PruneResult)
      returns (result: PruneResult, remaining: IdMap)
      requires pool.Valid() && Shape() && LevelsValid(pool.blocks)
      modifies pool, levels
      ensures pool.Valid() && LevelsValid(pool.blocks)
      ensures LadderProgress(old(pool.blocks), pool.blocks, minPrice, old(Lists()), Lists(), |levels|, ids, remaining,
                             dayResult, result)
      ensures pool.currentlyAllocated - old(pool.currentlyAllocated) == dayResult.ordersPruned - result.ordersPruned
      ensures pool.slabs == old(pool.slabs)
    {
      hide MemoryPool.Valid, LevelsValid, LadderProgress, Separate, Chain;
      ghost var before, lists := pool.blocks, Lists();
      ListsAreSeparate(before);
      ChainsOf(before);
      LadderStarts(before, minPrice, lists, ids, dayResult);
      result, remaining := dayResult, ids;
      for i := 0 to |levels|
        invariant pool.Valid() && LevelsValid(pool.blocks)
        invariant LadderProgress(before, pool.blocks, minPrice, lists, Lists(), i, ids, remaining, dayResult, result)
        invariant pool.currentlyAllocated - old(pool.currentlyAllocated) == dayResult.ordersPruned - result.ordersPruned
        invariant pool.slabs == old(pool.slabs)
      {
        LevelNotReached(before, pool.blocks, minPrice, lists, Lists(), i, ids, remaining, dayResult, result);
        LevelCount(pool.blocks, i);
        if !levels[i].Empty() {
          result, remaining := PruneLevel(i, pool, remaining, result, before, lists, ids, dayResult);
        } else {
          LadderSkips(before, pool.blocks, minPrice, lists, Lists(), i, ids, remaining, dayResult, result);
        }
      }
    }

    /** Prunes the DAY orders of every level, then refreshes the best price if the best level was emptied. */
    method PruneDayOrders(pool: MemoryPool, ids: IdMap, dayResult: PruneResult)
      returns (result: PruneResult, remaining: IdMap)
      requires pool.Valid() && Valid(pool.blocks) && SideLinked(pool.blocks, side, Lists())
      modifies this, pool, levels
      ensures pool.Valid() && Valid(pool.blocks)
      ensures LadderProgress(old(pool.blocks), pool.blocks, minPrice, old(Lists()), Lists(), |levels|, ids, remaining,
                             dayResult, result)
      ensures pool.currentlyAllocated - old(pool.currentlyAllocated) == dayResult.ordersPruned - result.ordersPruned
      ensures pool.slabs == old(pool.slabs)
    {
      hide MemoryPool.Valid, LevelsValid, LadderProgress, BestIs, SideLinked;
      ghost var before, lists := pool.blocks, Lists();
      ghost var views := Contents(before);
      BestInRange(before);
      result, remaining := PruneLevels(pool, ids, dayResult);
      ProgressParts(before, pool.blocks, minPrice, lists, Lists(), |levels|, ids, remaining, dayResult, result);
      KeptViews(side, before, pool.blocks, minPrice, lists, Lists());
      BestAfterPruning(side, minPrice, views, Contents(pool.blocks), bestPrice);
      RefreshAfterPruning(pool.blocks);
    }

    method RefreshAfterPruning(ghost blocks: Blocks)
      requires Shape() && LevelsValid(blocks)
      requires bestPrice.None? ==> BestIs(side, minPrice, Contents(blocks), bestPrice)
      requires bestPrice.Some? ==>
                 && minPrice <= bestPrice.value <= maxPrice
                 && (Contents(blocks)[bestPrice.value - minPrice] != [] ==>
                     BestIs(side, minPrice, Contents(blocks), bestPrice))
                 && NoneBetter(side, minPrice, Contents(blocks), bestPrice.value)
      modifies this
      ensures Valid(blocks)
    {
      hide PriceLevel.Valid, BestIs, NoneBetter, ViewsOf, Lists;
      if bestPrice.Some? {
        EmptyLevel(blocks, bestPrice.value - minPrice);
        var currentBestPriceLevel := GetLevelAtPrice(bestPrice.value);
        if currentBestPriceLevel.Empty() {
          RefreshBestPrice(bestPrice.value, blocks);
        }
      }
    }
  }
}
