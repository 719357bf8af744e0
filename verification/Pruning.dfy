/** The session-end walk over one chain: which orders go, which stay, and that the walk never
    follows a link through freed memory. */
module Pruning {
  import opened Types
  import opened MemoryPool
  import opened PriceTime
  import opened QueueLemmas
  import opened Chains
  import opened Retirement

  predicate IsDay(blocks: Blocks, k: nat) {
    OrderAt(blocks, k).lifetime == DayOnly
  }

  /** The chain without its DAY orders. */
  function Kept(blocks: Blocks, chain: seq<nat>): seq<nat> {
    if chain == [] then []
    else (if IsDay(blocks, chain[0]) then [] else [chain[0]]) + Kept(blocks, chain[1..])
  }

  /** Every DAY order of the chain was freed, every other order of it survives, and nothing else changed. */
  ghost predicate Pruned(before: Blocks, after: Blocks, chain: seq<nat>) {
    && |after| == |before|
    && (forall k :: 0 <= k < |before| && k !in chain ==> after[k] == before[k])
    && (forall k :: 0 <= k < |before| && k in chain ==>
          if IsDay(before, k) then after[k].Free? else SameOrder(before[k], after[k]))
  }

  /** The walk has passed the first j orders of the original chain. */
  ghost predicate Walked(before: Blocks, after: Blocks, chain: seq<nat>, orders: seq<nat>, j: nat) {
    && |after| == |before| && j <= |chain|
    && orders == Kept(before, chain[..j]) + chain[j..]
    && (forall k :: 0 <= k < |before| && k !in chain ==> after[k] == before[k])
    && (forall i :: 0 <= i < |chain| ==>
          chain[i] < |before|
          && if i < j && IsDay(before, chain[i]) then after[chain[i]].Free?
             else SameOrder(before[chain[i]], after[chain[i]]))
  }

  lemma {:induction false} KeptAppend(blocks: Blocks, chain: seq<nat>, k: nat)
    ensures Kept(blocks, chain + [k]) == Kept(blocks, chain) + (if IsDay(blocks, k) then [] else [k])
  {
    if chain == [] {
      assert chain + [k] == [k];
    } else {
      KeptAppend(blocks, chain[1..], k);
      assert (chain + [k])[1..] == chain[1..] + [k];
    }
  }

  lemma KeptIsPart(blocks: Blocks, chain: seq<nat>)
    ensures forall k :: k in Kept(blocks, chain) <==> k in chain && !IsDay(blocks, k)
  {
  }

  lemma WalkStarts(before: Blocks, level: object, chain: seq<nat>)
    requires Chain(before, level, chain)
    ensures Walked(before, before, chain, chain, 0)
  {
    forall i | 0 <= i < |chain| ensures IsLive(before, chain[i]) { assert NodeAt(before, level, chain, i); }
    assert chain[..0] == [];
  }

  /** Before an order is pruned its successor has been read from live memory: it is the next of the original chain. */
  lemma NextIsRead(before: Blocks, after: Blocks, level: object, price: int, chain: seq<nat>, orders: seq<nat>, j: nat)
    requires Walked(before, after, chain, orders, j) && Chain(after, level, orders) && j < |chain|
    ensures chain[j] in orders && IsLive(after, chain[j])
    ensures after[chain[j]].order.next == Element(chain, j + 1)
    ensures SameOrder(before[chain[j]], after[chain[j]])
    ensures View(before, price, chain)[j] == AsResting(after[chain[j]].order, price)
    ensures IsDay(before, chain[j]) <==> after[chain[j]].order.lifetime == DayOnly
  {
    var m := |Kept(before, chain[..j])|;
    assert orders[m] == chain[j];
    assert NodeAt(after, level, orders, m);
    assert j + 1 < |chain| ==> orders[m + 1] == chain[j + 1];
  }

  lemma WalkKeeps(before: Blocks, after: Blocks, chain: seq<nat>, orders: seq<nat>, j: nat)
    requires Walked(before, after, chain, orders, j) && j < |chain| && !IsDay(before, chain[j])
    ensures Walked(before, after, chain, orders, j + 1)
  {
    assert chain[..j + 1] == chain[..j] + [chain[j]];
    KeptAppend(before, chain[..j], chain[j]);
    assert chain[j..] == [chain[j]] + chain[j + 1..];
  }

  lemma WalkPrunesOrders(before: Blocks, after: Blocks, level: object, chain: seq<nat>, orders: seq<nat>, j: nat)
    requires Walked(before, after, chain, orders, j) && j < |chain| && IsDay(before, chain[j])
    requires Chain(after, level, orders) && chain[j] in orders
    ensures Without(orders, IndexOf(orders, chain[j])) == Kept(before, chain[..j + 1]) + chain[j + 1..]
  {
    var m := |Kept(before, chain[..j])|;
    assert orders[m] == chain[j];
    assert IndexOf(orders, chain[j]) == m;
    assert chain[..j + 1] == chain[..j] + [chain[j]];
    KeptAppend(before, chain[..j], chain[j]);
  }

  lemma WalkPrunes(before: Blocks, mid: Blocks, after: Blocks, level: object, chain: seq<nat>, orders: seq<nat>, j: nat)
    requires Walked(before, mid, chain, orders, j) && j < |chain| && IsDay(before, chain[j])
    requires Chain(before, level, chain) && Chain(mid, level, orders) && chain[j] in orders
    requires Erased(mid, after, orders, chain[j])
    ensures Walked(before, after, chain, Without(orders, IndexOf(orders, chain[j])), j + 1)
  {
    WalkPrunesOrders(before, mid, level, chain, orders, j);
    KeptIsPart(before, chain[..j]);
    forall i | 0 <= i < |chain| && i != j
      ensures if i < j + 1 && IsDay(before, chain[i]) then after[chain[i]].Free?
              else SameOrder(before[chain[i]], after[chain[i]])
    {
      if i < j && IsDay(before, chain[i]) {
        assert chain[i] !in orders;
      }
    }
  }

  lemma WalkEnds(before: Blocks, after: Blocks, price: int, chain: seq<nat>, orders: seq<nat>)
    requires Walked(before, after, chain, orders, |chain|)
    ensures orders == Kept(before, chain)
    ensures Pruned(before, after, chain)
    ensures View(after, price, orders) == WithLifetime(View(before, price, chain), GoodTillCancel)
  {
    assert chain[..|chain|] == chain;
    KeptIsPart(before, chain);
    forall k | k in orders ensures k < |before| && SameOrder(before[k], after[k]) {
      var i :| 0 <= i < |chain| && chain[i] == k;
    }
    ViewRelinked(before, after, price, orders);
    KeptView(before, price, chain);
  }

  lemma {:induction false} KeptView(blocks: Blocks, price: int, chain: seq<nat>)
    ensures View(blocks, price, Kept(blocks, chain)) == WithLifetime(View(blocks, price, chain), GoodTillCancel)
  {
    if chain != [] {
      KeptView(blocks, price, chain[1..]);
      assert View(blocks, price, chain)[1..] == View(blocks, price, chain[1..]);
      var first := if IsDay(blocks, chain[0]) then [] else [chain[0]];
      assert View(blocks, price, first + Kept(blocks, chain[1..]))
          == View(blocks, price, first) + View(blocks, price, Kept(blocks, chain[1..]));
    }
  }

  // ---------- what the level reports ----------

  datatype LevelPruneStats = LevelPruneStats(ordersPruned: nat, quantityPruned: int)

  /** What pruning the DAY orders of q reports, and the id map it leaves. */
  ghost predicate Tally(q: Queue, ids: IdMap, stats: LevelPruneStats, remaining: IdMap) {
    var day := WithLifetime(q, DayOnly);
    && stats == LevelPruneStats(|day|, WrapI32(Shares(day)))
    && remaining == ids - Ids(day)
  }

  lemma TallyStarts(q: Queue, ids: IdMap)
    ensures Tally(q[..0], ids, LevelPruneStats(0, 0), ids)
  {
    assert q[..0] == [];
  }

  lemma TallySkips(q: Queue, j: nat, ids: IdMap, stats: LevelPruneStats, remaining: IdMap)
    requires j < |q| && q[j].lifetime != DayOnly && Tally(q[..j], ids, stats, remaining)
    ensures Tally(q[..j + 1], ids, stats, remaining)
  {
    assert q[..j + 1] == q[..j] + [q[j]];
    WithLifetimeConcat(q[..j], [q[j]], DayOnly);
    assert WithLifetime(q[..j + 1], DayOnly) == WithLifetime(q[..j], DayOnly);
  }

  lemma TallyPrunes(q: Queue, j: nat, ids: IdMap, stats: LevelPruneStats, remaining: IdMap)
    requires j < |q| && q[j].lifetime == DayOnly && Tally(q[..j], ids, stats, remaining)
    ensures Tally(q[..j + 1], ids,
                  LevelPruneStats(stats.ordersPruned + 1, WrapI32(stats.quantityPruned + q[j].quantity)),
                  remaining - {q[j].id})
  {
    assert q[..j + 1] == q[..j] + [q[j]];
    WithLifetimeConcat(q[..j], [q[j]], DayOnly);
    var day := WithLifetime(q[..j], DayOnly);
    assert WithLifetime(q[..j + 1], DayOnly) == day + [q[j]];
    SharesAppend(day, q[j]);
    IdsAppend(day, q[j]);
    WrapI32Adds(Shares(day), q[j].quantity);
  }

  lemma IdsAppend(q: Queue, r: RestingView)
    ensures Ids(q + [r]) == Ids(q) + {r.id}
  {
    assert r in q + [r];
    assert forall x :: x in q + [r] <==> x in q || x == r;
  }

  lemma WrapI32Adds(x: int, q: int)
    ensures WrapI32(WrapI32(x) + q) == WrapI32(x + q)
  {
  }

  // ---------- the walk and its report together ----------

  ghost predicate Progress(before: Blocks, after: Blocks, price: int, chain: seq<nat>, orders: seq<nat>, j: nat,
                           ids: IdMap, stats: LevelPruneStats, remaining: IdMap)
  {
    && Walked(before, after, chain, orders, j)
    && Tally(View(before, price, chain)[..j], ids, stats, remaining)
  }

  lemma ProgressStarts(before: Blocks, level: object, price: int, chain: seq<nat>, ids: IdMap)
    requires Chain(before, level, chain)
    ensures Progress(before, before, price, chain, chain, 0, ids, LevelPruneStats(0, 0), ids)
  {
    WalkStarts(before, level, chain);
    TallyStarts(View(before, price, chain), ids);
  }

  lemma NextRead(before: Blocks, after: Blocks, level: object, price: int, chain: seq<nat>, orders: seq<nat>, j: nat,
                 ids: IdMap, stats: LevelPruneStats, remaining: IdMap)
    requires Progress(before, after, price, chain, orders, j, ids, stats, remaining)
    requires Chain(after, level, orders) && j < |chain|
    ensures chain[j] in orders && IsLive(after, chain[j])
    ensures after[chain[j]].order.next == Element(chain, j + 1)
  {
    NextIsRead(before, after, level, price, chain, orders, j);
  }

  lemma ProgressSkips(before: Blocks, after: Blocks, level: object, price: int, chain: seq<nat>, orders: seq<nat>,
                      j: nat, ids: IdMap, stats: LevelPruneStats, remaining: IdMap)
    requires Progress(before, after, price, chain, orders, j, ids, stats, remaining)
    requires Chain(after, level, orders) && j < |chain|
    requires OrderAt(after, chain[j]).lifetime != DayOnly
    ensures Progress(before, after, price, chain, orders, j + 1, ids, stats, remaining)
  {
    NextIsRead(before, after, level, price, chain, orders, j);
    WalkKeeps(before, after, chain, orders, j);
    TallySkips(View(before, price, chain), j, ids, stats, remaining);
  }

  lemma ProgressPrunes(before: Blocks, mid: Blocks, after: Blocks, level: object, price: int, chain: seq<nat>,
                       orders: seq<nat>, j: nat, ids: IdMap, stats: LevelPruneStats, remaining: IdMap)
    requires Progress(before, mid, price, chain, orders, j, ids, stats, remaining)
    requires Chain(before, level, chain) && Chain(mid, level, orders) && j < |chain| && chain[j] in orders
    requires OrderAt(mid, chain[j]).lifetime == DayOnly
    requires Erased(mid, after, orders, chain[j])
    ensures var o := OrderAt(mid, chain[j]);
            Progress(before, after, price, chain, Without(orders, IndexOf(orders, chain[j])), j + 1, ids,
                     LevelPruneStats(stats.ordersPruned + 1, WrapI32(stats.quantityPruned + o.quantity)),
                     remaining - {o.id})
  {
    NextIsRead(before, mid, level, price, chain, orders, j);
    WalkPrunes(before, mid, after, level, chain, orders, j);
    TallyPrunes(View(before, price, chain), j, ids, stats, remaining);
  }

  lemma ProgressEnds(before: Blocks, after: Blocks, level: object, price: int, chain: seq<nat>, orders: seq<nat>,
                     ids: IdMap, stats: LevelPruneStats, remaining: IdMap)
    requires Progress(before, after, price, chain, orders, |chain|, ids, stats, remaining)
    requires Chain(before, level, chain)
    ensures Confined(before, after, level)
    ensures orders == Kept(before, chain) && Pruned(before, after, chain)
    ensures Tally(View(before, price, chain), ids, stats, remaining)
    ensures View(after, price, orders) == WithLifetime(View(before, price, chain), GoodTillCancel)
  {
    WalkEnds(before, after, price, chain, orders);
    ConfinedToChain(before, after, level, chain);
    assert View(before, price, chain)[..|chain|] == View(before, price, chain);
  }
}
