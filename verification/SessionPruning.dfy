/** Session end over a whole ladder: level after level, and what the registry keeps. */
module SessionPruning {
  import opened Types
  import opened MemoryPool
  import opened PriceTime
  import opened QueueLemmas
  import opened Chains
  import opened Retirement
  import opened Pruning
  import opened LadderView
  import opened LadderScans
  import opened Registry
  import opened BookSpec

  /** The first i lists were pruned: their DAY orders are freed, their other orders survive, and nothing
      else changed. */
  ghost predicate Swept(before: Blocks, after: Blocks, lists: Lists, i: nat)
    requires i <= |lists|
  {
    && |after| == |before|
    && forall k :: 0 <= k < |before| ==> SweptBlock(before, after, lists[..i], k)
  }

  ghost predicate SweptBlock(before: Blocks, after: Blocks, lists: Lists, k: nat)
    requires k < |before| == |after|
  {
    if InSome(lists, k) then
      if IsDay(before, k) then after[k].Free? else SameOrder(before[k], after[k])
    else after[k] == before[k]
  }

  /** The ids of the DAY orders of the first i levels. */
  function DayIds(views: Views, i: nat): set<OrderId>
    requires i <= |views|
  {
    if i == 0 then {} else DayIds(views, i - 1) + Ids(WithLifetime(views[i - 1], DayOnly))
  }

  ghost predicate KeptLists(before: Blocks, lists: Lists, now: Lists, i: nat) {
    && |now| == |lists|
    && forall j :: 0 <= j < |lists| ==> now[j] == if j < i then Kept(before, lists[j]) else lists[j]
  }

  /** The walk over the ladder has passed the first i levels. */
  ghost predicate LadderProgress(before: Blocks, after: Blocks, minPrice: int, lists: Lists, now: Lists, i: nat,
                                 ids: IdMap, remaining: IdMap, t: PruneResult, total: PruneResult)
  {
    && i <= |lists| && KeptLists(before, lists, now, i)
    && Swept(before, after, lists, i)
    && remaining == ids - DayIds(ViewsOf(before, minPrice, lists), i)
    && total == AddLevels(t, ViewsOf(before, minPrice, lists)[..i])
  }

  lemma LadderStarts(before: Blocks, minPrice: int, lists: Lists, ids: IdMap, t: PruneResult)
    ensures LadderProgress(before, before, minPrice, lists, lists, 0, ids, ids, t, t)
  {
    assert ViewsOf(before, minPrice, lists)[..0] == [];
  }

  lemma InSomeStep(lists: Lists, i: nat, k: nat)
    requires i < |lists|
    ensures InSome(lists[..i + 1], k) <==> InSome(lists[..i], k) || k in lists[i]
  {
    if InSome(lists[..i + 1], k) {
      var j :| 0 <= j < i + 1 && k in lists[..i + 1][j];
      if j < i { FoundIn(lists[..i], j, k); }
    }
    if InSome(lists[..i], k) {
      var j :| 0 <= j < i && k in lists[..i][j];
      FoundIn(lists[..i + 1], j, k);
    }
    if k in lists[i] { FoundIn(lists[..i + 1], i, k); }
  }

  lemma NotYetSwept(lists: Lists, i: nat, k: nat)
    requires Separate(lists) && i < |lists| && k in lists[i]
    ensures !InSome(lists[..i], k)
  {
  }

  lemma SweptStep(before: Blocks, mid: Blocks, after: Blocks, lists: Lists, i: nat)
    requires i < |lists| && Separate(lists) && Swept(before, mid, lists, i) && Pruned(mid, after, lists[i])
    ensures Swept(before, after, lists, i + 1)
  {
    var passed := lists[..i + 1];
    forall k | 0 <= k < |before| ensures SweptBlock(before, after, passed, k) {
      InSomeStep(lists, i, k);
      assert SweptBlock(before, mid, lists[..i], k);
      if k in lists[i] { NotYetSwept(lists, i, k); }
    }
  }

  /** A level not reached yet looks as it did before. */
  lemma LevelUntouched(before: Blocks, after: Blocks, level: object, price: int, lists: Lists, i: nat)
    requires i < |lists| && Separate(lists) && Swept(before, after, lists, i) && Chain(before, level, lists[i])
    ensures View(after, price, lists[i]) == View(before, price, lists[i])
    ensures Kept(after, lists[i]) == Kept(before, lists[i])
  {
    forall k | k in lists[i] ensures k < |before| && after[k] == before[k] {
      NodeOf(before, level, lists[i], k);
      NotYetSwept(lists, i, k);
      assert SweptBlock(before, after, lists[..i], k);
    }
    forall j | 0 <= j < |lists[i]| ensures lists[i][j] < |before| && after[lists[i][j]] == before[lists[i][j]] {
      assert lists[i][j] in lists[i];
    }
    KeptSame(before, after, lists[i]);
  }

  lemma {:induction false} KeptSame(before: Blocks, after: Blocks, chain: seq<nat>)
    requires |before| == |after|
    requires forall j :: 0 <= j < |chain| ==> chain[j] < |before| && after[chain[j]] == before[chain[j]]
    ensures Kept(after, chain) == Kept(before, chain)
  {
    if chain != [] {
      KeptSame(before, after, chain[1..]);
    }
  }

  /** The report of one more level, added to the totals. */
  lemma TotalsStep(views: Views, i: nat, ids: IdMap, remaining: IdMap, t: PruneResult, total: PruneResult,
                   stats: LevelPruneStats, left: IdMap)
    requires i < |views| && views[i] != []
    requires total == AddLevels(t, views[..i]) && remaining == ids - DayIds(views, i)
    requires Tally(views[i], remaining, stats, left)
    ensures left == ids - DayIds(views, i + 1)
    ensures AddLevels(t, views[..i + 1])
         == PruneResult(WrapU64(total.sharesErased + stats.quantityPruned), total.ordersPruned + stats.ordersPruned,
                        if WithLifetime(views[i], GoodTillCancel) == [] then NextU32(total.levelsErased)
                        else total.levelsErased)
  {
    hide WrapI32, WrapU64, Shares, WithLifetime, Ids;
    assert views[..i + 1][..i] == views[..i];
  }

  /** One more level was pruned. */
  lemma LadderStep(before: Blocks, mid: Blocks, after: Blocks, level: object, minPrice: int, lists: Lists, was: Lists,
                   now: Lists, i: nat, ids: IdMap, remaining: IdMap, t: PruneResult, total: PruneResult,
                   stats: LevelPruneStats, left: IdMap)
    requires LadderProgress(before, mid, minPrice, lists, was, i, ids, remaining, t, total)
    requires i < |lists| && lists[i] != [] && Separate(lists) && Chain(before, level, lists[i])
    requires Pruned(mid, after, lists[i]) && now == was[i := Kept(mid, lists[i])]
    requires Tally(View(mid, minPrice + i, lists[i]), remaining, stats, left)
    ensures LadderProgress(before, after, minPrice, lists, now, i + 1, ids, left, t,
                           PruneResult(WrapU64(total.sharesErased + stats.quantityPruned),
                                       total.ordersPruned + stats.ordersPruned,
                                       if now[i] == [] then NextU32(total.levelsErased) else total.levelsErased))
  {
    hide WrapU64, View, Kept, Swept, Pruned, Separate, Chain, Tally, WithLifetime, AddLevels, DayIds;
    LevelUntouched(before, mid, level, minPrice + i, lists, i);
    SweptStep(before, mid, after, lists, i);
    ViewsOfAt(before, minPrice, lists, i);
    TotalsStep(ViewsOf(before, minPrice, lists), i, ids, remaining, t, total, stats, left);
    KeptView(before, minPrice + i, lists[i]);
  }

  lemma LevelNotReached(before: Blocks, after: Blocks, minPrice: int, lists: Lists, now: Lists, i: nat,
                        ids: IdMap, remaining: IdMap, t: PruneResult, total: PruneResult)
    requires LadderProgress(before, after, minPrice, lists, now, i, ids, remaining, t, total) && i < |lists|
    ensures |now| == |lists| && now[i] == lists[i]
  {
  }

  lemma ProgressParts(before: Blocks, after: Blocks, minPrice: int, lists: Lists, now: Lists, i: nat,
                      ids: IdMap, remaining: IdMap, t: PruneResult, total: PruneResult)
    requires LadderProgress(before, after, minPrice, lists, now, i, ids, remaining, t, total)
    ensures i <= |lists| == |now| && Swept(before, after, lists, i) && KeptLists(before, lists, now, i)
  {
  }

  lemma LadderSkips(before: Blocks, after: Blocks, minPrice: int, lists: Lists, now: Lists, i: nat,
                    ids: IdMap, remaining: IdMap, t: PruneResult, total: PruneResult)
    requires LadderProgress(before, after, minPrice, lists, now, i, ids, remaining, t, total)
    requires i < |lists| && lists[i] == [] && Separate(lists)
    ensures LadderProgress(before, after, minPrice, lists, now, i + 1, ids, remaining, t, total)
  {
    hide Swept, Pruned, Separate, AddLevels, DayIds, View, Kept;
    var views := ViewsOf(before, minPrice, lists);
    NothingPruned(before, after, lists, i);
    ViewsOfAt(before, minPrice, lists, i);
    assert views[..i + 1][..i] == views[..i];
    EmptyLevelTotals(views, i, t);
  }

  lemma NothingPruned(before: Blocks, after: Blocks, lists: Lists, i: nat)
    requires i < |lists| && lists[i] == [] && Separate(lists) && Swept(before, after, lists, i)
    ensures Swept(before, after, lists, i + 1) && Kept(before, lists[i]) == []
  {
    SweptStep(before, after, after, lists, i);
  }

  lemma EmptyLevelTotals(views: Views, i: nat, t: PruneResult)
    requires i < |views| && |views[i]| == 0
    ensures AddLevels(t, views[..i + 1]) == AddLevels(t, views[..i])
    ensures DayIds(views, i + 1) == DayIds(views, i)
  {
    assert views[..i + 1][..i] == views[..i];
  }

  // ---------- what the book keeps ----------

  lemma SweptAll(before: Blocks, after: Blocks, lists: Lists, k: nat)
    requires Swept(before, after, lists, |lists|) && k < |before|
    ensures |after| == |before| && SweptBlock(before, after, lists, k)
  {
    assert lists[..|lists|] == lists;
    assert SweptBlock(before, after, lists[..|lists|], k);
  }

  /** A ladder none of whose orders were in the pruned lists keeps its levels. */
  lemma ChainSwept(before: Blocks, after: Blocks, swept: Lists, level: object, price: int, chain: seq<nat>)
    requires Swept(before, after, swept, |swept|) && Chain(before, level, chain)
    requires forall k :: k in chain ==> !InSome(swept, k)
    ensures Chain(after, level, chain) && View(after, price, chain) == View(before, price, chain)
  {
    forall k | k in chain && k < |before| ensures after[k] == before[k] {
      SweptAll(before, after, swept, k);
    }
    ChainFrame(before, after, level, price, chain);
  }

  /** The kept view of each level is the level without its DAY orders. */
  lemma KeptViews(side: Side, before: Blocks, after: Blocks, minPrice: int, lists: Lists, now: Lists)
    requires Swept(before, after, lists, |lists|) && KeptLists(before, lists, now, |lists|)
    requires SideLinked(before, side, lists)
    ensures forall i :: 0 <= i < |lists| ==>
              ViewsOf(after, minPrice, now)[i] == WithLifetime(ViewsOf(before, minPrice, lists)[i], GoodTillCancel)
  {
    hide Swept, SideLinked, Kept, View, ViewsOf, WithLifetime;
    forall i | 0 <= i < |lists|
      ensures ViewsOf(after, minPrice, now)[i] == WithLifetime(ViewsOf(before, minPrice, lists)[i], GoodTillCancel)
    {
      ViewsOfAt(before, minPrice, lists, i);
      ViewsOfAt(after, minPrice, now, i);
      KeptOrders(side, before, after, lists, i);
      ViewRelinked(before, after, minPrice + i, now[i]);
      KeptView(before, minPrice + i, lists[i]);
    }
  }

  lemma KeptOrders(side: Side, before: Blocks, after: Blocks, lists: Lists, i: nat)
    requires Swept(before, after, lists, |lists|) && SideLinked(before, side, lists) && i < |lists|
    ensures |after| == |before|
    ensures forall k :: k in Kept(before, lists[i]) ==> k < |before| && SameOrder(before[k], after[k])
  {
    KeptIsPart(before, lists[i]);
    forall k | k in Kept(before, lists[i]) ensures k < |before| && SameOrder(before[k], after[k]) {
      assert k in lists[i] && IsLive(before, k);
      FoundIn(lists, i, k);
      SweptAll(before, after, lists, k);
    }
  }

  /** An id is among the pruned ones exactly when a DAY order of a pruned list carries it. */
  lemma {:induction false} PrunedIds(before: Blocks, minPrice: int, lists: Lists, i: nat, id: OrderId)
    requires i <= |lists|
    ensures id in DayIds(ViewsOf(before, minPrice, lists), i)
        <==> exists k :: InSome(lists[..i], k) && IsDay(before, k) && OrderAt(before, k).id == id
  {
    if i > 0 {
      PrunedIds(before, minPrice, lists, i - 1, id);
      LevelDayIds(before, minPrice + i - 1, lists[i - 1], id);
      forall k: nat ensures InSome(lists[..i], k) <==> InSome(lists[..i - 1], k) || k in lists[i - 1] {
        InSomeStep(lists, i - 1, k);
      }
    }
  }

  lemma LevelDayIds(before: Blocks, price: int, chain: seq<nat>, id: OrderId)
    ensures id in Ids(WithLifetime(View(before, price, chain), DayOnly))
        <==> exists k :: k in chain && IsDay(before, k) && OrderAt(before, k).id == id
  {
    var v := View(before, price, chain);
    LifetimeMembers(v, DayOnly);
    if id in Ids(WithLifetime(v, DayOnly)) {
      var r :| r in WithLifetime(v, DayOnly) && r.id == id;
      var j :| 0 <= j < |v| && v[j] == r;
      assert chain[j] in chain;
    }
    if k :| k in chain && IsDay(before, k) && OrderAt(before, k).id == id {
      var j :| 0 <= j < |chain| && chain[j] == k;
      assert v[j] in v;
    }
  }

  lemma IndexedSwept(side: Side, before: Blocks, after: Blocks, minPrice: int, ids: IdMap, lists: Lists)
    requires Indexed(before, ids) && SideLinked(before, side, lists) && Swept(before, after, lists, |lists|)
    ensures Indexed(after, ids - DayIds(ViewsOf(before, minPrice, lists), |lists|))
  {
    var gone := DayIds(ViewsOf(before, minPrice, lists), |lists|);
    assert lists[..|lists|] == lists;
    forall id | id in ids && id !in gone ensures IsLive(after, ids[id]) && after[ids[id]].order.id == id {
      PrunedIds(before, minPrice, lists, |lists|, id);
      assert IsLive(before, ids[id]);
      SweptAll(before, after, lists, ids[id]);
    }
    forall k | 0 <= k < |after| && after[k].Live?
      ensures after[k].order.id in ids && after[k].order.id !in gone && ids[after[k].order.id] == k
    {
      SweptAll(before, after, lists, k);
      var id := after[k].order.id;
      assert before[k].Live? && before[k].order.id == id;
      PrunedIds(before, minPrice, lists, |lists|, id);
    }
  }

  lemma OwnSideSwept(side: Side, before: Blocks, after: Blocks, lists: Lists, now: Lists)
    requires SideLinked(before, side, lists) && Swept(before, after, lists, |lists|)
    requires KeptLists(before, lists, now, |lists|)
    ensures SideLinked(after, side, now)
  {
    hide Swept, Kept;
    forall i, k | 0 <= i < |now| && k in now[i] ensures IsLive(after, k) && after[k].order.side == side {
      KeptIsPart(before, lists[i]);
      KeptOrders(side, before, after, lists, i);
      assert IsLive(before, k);
    }
    forall k | 0 <= k < |after| && after[k].Live? && after[k].order.side == side ensures InSome(now, k) {
      SurvivorIsKept(side, before, after, lists, now, k);
    }
  }

  lemma SurvivorIsKept(side: Side, before: Blocks, after: Blocks, lists: Lists, now: Lists, k: nat)
    requires SideLinked(before, side, lists) && Swept(before, after, lists, |lists|)
    requires KeptLists(before, lists, now, |lists|)
    requires k < |after| && after[k].Live? && after[k].order.side == side
    ensures InSome(now, k)
  {
    hide Swept, Kept;
    assert |after| == |before| by { SweptSize(before, after, lists); }
    SweptAll(before, after, lists, k);
    assert before[k].Live? && before[k].order.side == side;
    assert InSome(lists, k);
    var i :| 0 <= i < |lists| && k in lists[i];
    KeptIsPart(before, lists[i]);
    FoundIn(now, i, k);
  }

  lemma SweptSize(before: Blocks, after: Blocks, lists: Lists)
    requires Swept(before, after, lists, |lists|)
    ensures |after| == |before|
  {
  }

  lemma OtherSideSwept(side: Side, before: Blocks, after: Blocks, lists: Lists, other: Lists)
    requires SideLinked(before, side, lists) && SideLinked(before, Opposite(side), other)
    requires Swept(before, after, lists, |lists|)
    ensures SideLinked(after, Opposite(side), other)
    ensures forall i, k :: 0 <= i < |other| && k in other[i] ==> !InSome(lists, k)
  {
    forall i, k | 0 <= i < |other| && k in other[i]
      ensures !InSome(lists, k) && IsLive(after, k) && after[k].order.side == Opposite(side)
    {
      assert IsLive(before, k);
      SweptAll(before, after, lists, k);
    }
    forall k | 0 <= k < |after| && after[k].Live? && after[k].order.side == Opposite(side) ensures InSome(other, k) {
      SweptAll(before, after, lists, k);
      assert before[k].Live? && before[k].order.side == Opposite(side);
    }
  }

  lemma RegisteredSwept(side: Side, before: Blocks, after: Blocks, minPrice: int, ids: IdMap, own: Lists, now: Lists,
                        other: Lists)
    requires RegisteredOn(side, before, ids, own, other)
    requires Swept(before, after, own, |own|) && KeptLists(before, own, now, |own|)
    ensures RegisteredOn(side, after, ids - DayIds(ViewsOf(before, minPrice, own), |own|), now, other)
  {
    hide Indexed, SideLinked, Swept, KeptLists, DayIds;
    IndexedSwept(side, before, after, minPrice, ids, own);
    OwnSideSwept(side, before, after, own, now);
    OtherSideSwept(side, before, after, own, other);
  }

  /** Pruning empties levels but fills none, so the best level stays ahead of all others. */
  lemma BestAfterPruning(side: Side, minPrice: int, views: Views, kept: Views, best: Option<int>)
    requires BestIs(side, minPrice, views, best) && |kept| == |views|
    requires forall i :: 0 <= i < |views| ==> kept[i] == WithLifetime(views[i], GoodTillCancel)
    ensures best.None? ==> BestIs(side, minPrice, kept, best)
    ensures best.Some? && kept[best.value - minPrice] != [] ==> BestIs(side, minPrice, kept, best)
    ensures best.Some? ==> NoneBetter(side, minPrice, kept, best.value)
  {
  }

  // ---------- a side that has nothing to prune ----------

  lemma {:induction false} NothingToReport(t: PruneResult, levels: seq<Queue>)
    requires forall i :: 0 <= i < |levels| ==> levels[i] == []
    ensures AddLevels(t, levels) == t
    decreases |levels|
  {
    if levels != [] {
      NothingToReport(t, levels[..|levels| - 1]);
    }
  }

  /** Cutting a side's queue at each price gives back its levels. */
  lemma LevelsOfFlatten(side: Side, views: Views, minPrice: int, maxPrice: int)
    requires Priced(views, minPrice) && |views| == maxPrice - minPrice + 1
    ensures LevelsOf(Flatten(side, views), minPrice, maxPrice) == views
  {
    var levels := LevelsOf(Flatten(side, views), minPrice, maxPrice);
    forall i | 0 <= i < |views| ensures levels[i] == views[i] {
      LevelOfQueue(side, views, minPrice, i);
    }
  }
}
