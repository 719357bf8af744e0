/** How the id map, the live blocks and the lists of both ladders agree. */
module Registry {
  import opened Types
  import opened MemoryPool
  import opened Chains
  import opened Retirement
  import opened PriceTime
  import opened LadderView

  ghost predicate InSome(lists: Lists, k: nat) {
    exists i :: 0 <= i < |lists| && k in lists[i]
  }

  lemma FoundIn(lists: Lists, i: nat, k: nat)
    requires i < |lists| && k in lists[i]
    ensures InSome(lists, k)
  {
  }

  /** The id map is a bijection between the ids of live orders and their blocks. */
  ghost predicate Indexed(blocks: Blocks, ids: IdMap) {
    && (forall id :: id in ids ==> IsLive(blocks, ids[id]) && blocks[ids[id]].order.id == id)
    && (forall k :: 0 <= k < |blocks| && blocks[k].Live? ==>
          blocks[k].order.id in ids && ids[blocks[k].order.id] == k)
  }

  /** The lists of a ladder hold exactly the live orders of its side. */
  ghost predicate SideLinked(blocks: Blocks, side: Side, lists: Lists) {
    && (forall i, k :: 0 <= i < |lists| && k in lists[i] ==> IsLive(blocks, k) && blocks[k].order.side == side)
    && (forall k :: 0 <= k < |blocks| && blocks[k].Live? && blocks[k].order.side == side ==> InSome(lists, k))
  }

  ghost predicate Registered(blocks: Blocks, ids: IdMap, bidLists: Lists, askLists: Lists) {
    && Indexed(blocks, ids)
    && SideLinked(blocks, Buy, bidLists) && SideLinked(blocks, Sell, askLists)
  }

  // ---------- an order leaves ----------

  lemma IndexedErased(before: Blocks, after: Blocks, ids: IdMap, chain: seq<nat>, k: nat)
    requires Indexed(before, ids) && Erased(before, after, chain, k) && IsLive(before, k)
    ensures Indexed(after, ids - {before[k].order.id})
  {
  }

  lemma OtherSideErased(before: Blocks, after: Blocks, side: Side, lists: Lists, chain: seq<nat>, k: nat)
    requires SideLinked(before, side, lists) && Erased(before, after, chain, k)
    requires IsLive(before, k) && before[k].order.side != side
    ensures SideLinked(after, side, lists)
  {
    forall j, x | 0 <= j < |lists| && x in lists[j] ensures IsLive(after, x) && after[x].order.side == side {
      assert IsLive(before, x);
    }
    forall x | 0 <= x < |after| && after[x].Live? && after[x].order.side == side ensures InSome(lists, x) {
      assert before[x].Live? && before[x].order.side == side;
    }
  }

  lemma SideErased(before: Blocks, after: Blocks, side: Side, lists: Lists, i: nat, m: nat)
    requires SideLinked(before, side, lists) && i < |lists| && m < |lists[i]|
    requires Distinct(lists[i]) && Erased(before, after, lists[i], lists[i][m])
    requires forall j :: 0 <= j < |lists| && j != i ==> lists[i][m] !in lists[j]
    ensures SideLinked(after, side, lists[i := Without(lists[i], m)])
  {
    var k := lists[i][m];
    var rest := lists[i := Without(lists[i], m)];
    forall j, x | 0 <= j < |rest| && x in rest[j] ensures IsLive(after, x) && after[x].order.side == side {
      if j == i { NotThere(lists[i], m, x); }
      assert x in lists[j] && x != k;
      assert IsLive(before, x);
    }
    forall x | 0 <= x < |after| && after[x].Live? && after[x].order.side == side ensures InSome(rest, x) {
      assert before[x].Live? && before[x].order.side == side;
      var j :| 0 <= j < |lists| && x in lists[j];
      if j == i { StillThere(lists[i], m, x); }
      FoundIn(rest, j, x);
    }
  }

  lemma NotThere(chain: seq<nat>, m: nat, x: nat)
    requires m < |chain| && Distinct(chain) && x in Without(chain, m)
    ensures x in chain && x != chain[m]
  {
    var p :| 0 <= p < |chain| - 1 && Without(chain, m)[p] == x;
    assert x == chain[if p < m then p else p + 1];
  }

  lemma StillThere(chain: seq<nat>, m: nat, x: nat)
    requires m < |chain| && x in chain && x != chain[m]
    ensures x in Without(chain, m)
  {
    var p :| 0 <= p < |chain| && chain[p] == x;
    assert Without(chain, m)[if p < m then p else p - 1] == x;
  }

  // ---------- an order changes its quantity ----------

  lemma RegisteredRequantified(before: Blocks, ids: IdMap, bidLists: Lists, askLists: Lists, k: nat, quantity: int)
    requires Registered(before, ids, bidLists, askLists) && IsLive(before, k)
    ensures Registered(WithQuantity(before, k, quantity), ids, bidLists, askLists)
  {
    hide SideLinked, Indexed;
    SideRequantified(before, Buy, bidLists, k, quantity);
    SideRequantified(before, Sell, askLists, k, quantity);
    OrdersRequantified(before, ids, k, quantity);
  }

  lemma OrdersRequantified(before: Blocks, ids: IdMap, k: nat, quantity: int)
    requires Indexed(before, ids)
    ensures Indexed(WithQuantity(before, k, quantity), ids)
  {
    var after := WithQuantity(before, k, quantity);
    forall id | id in ids ensures IsLive(after, ids[id]) && after[ids[id]].order.id == id {
      assert IsLive(before, ids[id]);
    }
    forall x | 0 <= x < |after| && after[x].Live?
      ensures after[x].order.id in ids && ids[after[x].order.id] == x
    {
      assert before[x].Live? && before[x].order.id == after[x].order.id;
    }
  }

  lemma SideRequantified(before: Blocks, side: Side, lists: Lists, k: nat, quantity: int)
    requires SideLinked(before, side, lists)
    ensures SideLinked(WithQuantity(before, k, quantity), side, lists)
  {
    var after := WithQuantity(before, k, quantity);
    forall j, x | 0 <= j < |lists| && x in lists[j] ensures IsLive(after, x) && after[x].order.side == side {
      assert IsLive(before, x);
    }
    forall x | 0 <= x < |after| && after[x].Live? && after[x].order.side == side ensures InSome(lists, x) {
      assert before[x].Live? && before[x].order.side == side;
    }
  }

  // ---------- an order arrives ----------

  /** Placed in free memory, then linked behind the orders of `chain`. */
  ghost predicate Arrived(before: Blocks, after: Blocks, chain: seq<nat>, k: nat, id: OrderId, quantity: int,
                          side: Side) {
    && |before| <= |after| && !IsLive(before, k)
    && IsLive(after, k) && after[k].order.id == id && after[k].order.quantity == quantity && after[k].order.side == side
    && (forall j :: 0 <= j < |before| && j != k && j !in chain ==> after[j] == before[j])
    && (forall j :: 0 <= j < |before| && j != k && j in chain ==> SameOrder(before[j], after[j]))
    && (forall j :: |before| <= j < |after| && j != k ==> after[j].Free?)
  }

  lemma ArrivedByLinking(before: Blocks, mid: Blocks, after: Blocks, chain: seq<nat>, k: nat, order: RestingOrder)
    requires Placed(before, mid, k, order) && Relinked(mid, after, chain + [k])
    requires forall j :: j in chain ==> IsLive(before, j)
    ensures Arrived(before, after, chain, k, order.id, order.quantity, order.side)
    ensures after[k].order.lifetime == order.lifetime
  {
    assert k in chain + [k];
    forall j | 0 <= j < |before| && j != k && j !in chain ensures after[j] == before[j] {
      assert j !in chain + [k];
    }
    forall j | 0 <= j < |before| && j != k && j in chain ensures SameOrder(before[j], after[j]) {
      assert j in chain + [k] && mid[j] == before[j];
    }
    forall j | |before| <= j < |after| && j != k ensures after[j].Free? {
      assert j !in chain + [k];
    }
  }

  lemma IndexedArrived(before: Blocks, after: Blocks, ids: IdMap, chain: seq<nat>, k: nat, id: OrderId, quantity: int,
                       side: Side)
    requires Indexed(before, ids) && id !in ids && Arrived(before, after, chain, k, id, quantity, side)
    ensures Indexed(after, ids[id := k])
  {
  }

  lemma OtherSideArrived(before: Blocks, after: Blocks, other: Side, lists: Lists, chain: seq<nat>, k: nat, id: OrderId,
                         quantity: int, side: Side)
    requires SideLinked(before, other, lists) && side != other && Arrived(before, after, chain, k, id, quantity, side)
    ensures SideLinked(after, other, lists)
  {
    forall j, x | 0 <= j < |lists| && x in lists[j] ensures IsLive(after, x) && after[x].order.side == other {
      assert IsLive(before, x);
    }
    forall x | 0 <= x < |after| && after[x].Live? && after[x].order.side == other ensures InSome(lists, x) {
      assert x != k && before[x].Live? && before[x].order.side == other;
    }
  }

  lemma SideArrived(before: Blocks, after: Blocks, side: Side, lists: Lists, i: nat, k: nat, id: OrderId, quantity: int)
    requires SideLinked(before, side, lists) && i < |lists|
    requires Arrived(before, after, lists[i], k, id, quantity, side)
    ensures SideLinked(after, side, lists[i := lists[i] + [k]])
  {
    var longer := lists[i := lists[i] + [k]];
    forall j, x | 0 <= j < |longer| && x in longer[j] ensures IsLive(after, x) && after[x].order.side == side {
      assert x == k || (x in lists[j] && IsLive(before, x));
    }
    forall x | 0 <= x < |after| && after[x].Live? && after[x].order.side == side ensures InSome(longer, x) {
      if x == k {
        FoundIn(longer, i, k);
      } else {
        assert before[x].Live? && before[x].order.side == side;
        var j :| 0 <= j < |lists| && x in lists[j];
        FoundIn(longer, j, x);
      }
    }
  }

  // ---------- what one departure or arrival does to the ladder that has it ----------

  /** Order k was element m of level i, and is now live but on no level. */
  ghost predicate LeftLevel(before: Blocks, after: Blocks, k: nat, lists: Lists, lists': Lists,
                            views: Views, views': Views, i: nat, m: nat)
  {
    && i < |lists| == |views| && m < |lists[i]| == |views[i]| && lists[i][m] == k
    && Distinct(lists[i]) && Released(before, after, lists[i], k)
    && views[i][m].id == OrderAt(before, k).id
    && lists' == lists[i := Without(lists[i], m)]
    && views' == views[i := Without(views[i], m)]
    && (forall j :: 0 <= j < |lists| && j != i ==> k !in lists[j])
  }

  lemma LeftIsKept(before: Blocks, after: Blocks, k: nat, lists: Lists, lists': Lists, views: Views, views': Views,
                   i: nat, m: nat)
    requires LeftLevel(before, after, k, lists, lists', views, views', i, m) && IsLive(before, k)
    ensures IsLive(after, k) && SameOrder(before[k], after[k])
  {
  }

  lemma RegisteredFrom(side: Side, blocks: Blocks, ids: IdMap, bidLists: Lists, askLists: Lists)
    ensures Registered(blocks, ids, bidLists, askLists)
        <==> RegisteredOn(side, blocks, ids,
                          if side.Buy? then bidLists else askLists, if side.Buy? then askLists else bidLists)
  {
  }

  lemma LeftQueue(side: Side, before: Blocks, after: Blocks, k: nat, lists: Lists, lists': Lists, views: Views,
                  views': Views, i: nat, m: nat)
    requires LeftLevel(before, after, k, lists, lists', views, views', i, m) && DistinctIds(Flatten(side, views))
    ensures Flatten(side, views') == Remove(Flatten(side, views), OrderAt(before, k).id)
  {
    hide Flatten, Released, Distinct, DistinctIds;
    RemoveFromLevel(side, views, i, m);
  }

  /** The order that left was the front of the best level, hence of the whole queue. */
  lemma LeftFront(side: Side, before: Blocks, after: Blocks, k: nat, lists: Lists, lists': Lists, views: Views,
                  views': Views, minPrice: int, best: Option<int>, i: nat)
    requires LeftLevel(before, after, k, lists, lists', views, views', i, 0)
    requires BestIs(side, minPrice, views, best) && best == Some(minPrice + i)
    ensures i < |views| == |views'| && views[i] != [] && views' == views[i := views'[i]]
    ensures Flatten(side, views) != [] && Flatten(side, views') == Flatten(side, views)[1..]
  {
    hide Flatten, BestIs, Released;
    FrontOfBest(side, views, minPrice, minPrice + i, []);
    assert Without(views[i], 0) == [] + views[i][1..];
  }

  lemma LeavesLevel(before: Blocks, after: Blocks, level: object, minPrice: int, lists: Lists, i: nat, m: nat)
    requires i < |lists| && m < |lists[i]| <= UINT32_MAX
    requires Chain(before, level, lists[i]) && Released(before, after, lists[i], lists[i][m])
    requires Chain(after, level, Without(lists[i], m))
    requires forall j :: 0 <= j < |lists| && j != i ==> lists[i][m] !in lists[j]
    ensures var views := ViewsOf(before, minPrice, lists);
            var left := Without(lists[i], m);
            LeftLevel(before, after, lists[i][m], lists, lists[i := left], views,
                      views[i := View(after, minPrice + i, left)], i, m)
  {
    hide NodeAt, Relinked, View, Shares;
    ViewAt(before, minPrice + i, lists[i], m);
    UnlinkedView(before, after, level, minPrice + i, lists[i], m);
  }

  lemma BestAfterRemoval(side: Side, minPrice: int, views: Views, best: Option<int>, i: nat, v: Queue)
    requires BestIs(side, minPrice, views, best) && i < |views| && views[i] != []
    ensures v != [] || best != Some(minPrice + i) ==> BestIs(side, minPrice, views[i := v], best)
    ensures v == [] && best == Some(minPrice + i) ==> NoneBetter(side, minPrice, views[i := v], minPrice + i)
  {
  }

  /** Registration seen from one side of the book. */
  ghost predicate RegisteredOn(side: Side, blocks: Blocks, ids: IdMap, own: Lists, other: Lists) {
    && Indexed(blocks, ids)
    && SideLinked(blocks, side, own) && SideLinked(blocks, Opposite(side), other)
  }

  /** An order that left its level, was forgotten by id and freed, leaves the rest registered. */
  lemma RegisteredAfterDeparture(side: Side, before: Blocks, unlinked: Blocks, after: Blocks, ids: IdMap,
                                 own: Lists, own': Lists, other: Lists, views: Views, views': Views,
                                 i: nat, m: nat, k: nat)
    requires RegisteredOn(side, before, ids, own, other)
    requires IsLive(before, k) && before[k].order.side == side
    requires LeftLevel(before, unlinked, k, own, own', views, views', i, m)
    requires exists link :: after == unlinked[k := Free(link)]
    ensures RegisteredOn(side, after, ids - {before[k].order.id}, own', other)
    ensures Erased(before, after, own[i], k)
    ensures Confined(unlinked, after, null)
  {
    hide Indexed, SideLinked, Erased, NodeAt, Relinked, SameOrder;
    ErasedAfterRelease(before, unlinked, own[i], k, after);
    IndexedErased(before, after, ids, own[i], k);
    OtherSideErased(before, after, Opposite(side), other, own[i], k);
    SideErased(before, after, side, own, i, m);
  }

  // ---------- the registry and the ids of a queue ----------

  ghost predicate Separate(lists: Lists) {
    && (forall i :: 0 <= i < |lists| ==> Distinct(lists[i]))
    && (forall i, j, k :: 0 <= i < |lists| && 0 <= j < |lists| && i != j && k in lists[i] ==> k !in lists[j])
  }

  lemma SeparateElement(lists: Lists, i: nat, m: nat)
    requires Separate(lists) && i < |lists| && m < |lists[i]|
    ensures forall j :: 0 <= j < |lists| && j != i ==> lists[i][m] !in lists[j]
  {
    assert lists[i][m] in lists[i];
  }

  lemma ViewIds(blocks: Blocks, price: int, chain: seq<nat>, id: OrderId)
    ensures id in Ids(View(blocks, price, chain)) <==> exists k :: k in chain && OrderAt(blocks, k).id == id
  {
    var v := View(blocks, price, chain);
    if id in Ids(v) {
      var j :| 0 <= j < |v| && v[j].id == id;
      assert chain[j] in chain;
    }
    if k :| k in chain && OrderAt(blocks, k).id == id {
      var j :| 0 <= j < |chain| && chain[j] == k;
      assert v[j] in v;
    }
  }

  lemma IdsOfSide(side: Side, blocks: Blocks, ids: IdMap, minPrice: int, lists: Lists)
    requires Indexed(blocks, ids) && SideLinked(blocks, side, lists) && Separate(lists)
    ensures DistinctIds(Flatten(side, ViewsOf(blocks, minPrice, lists)))
    ensures forall id :: id in Ids(Flatten(side, ViewsOf(blocks, minPrice, lists)))
                     <==> id in ids && OrderAt(blocks, ids[id]).side == side
  {
    var views := ViewsOf(blocks, minPrice, lists);
    forall i | 0 <= i < |views| ensures DistinctIds(views[i]) {
      LevelIdsDistinct(side, blocks, ids, minPrice + i, lists, i);
    }
    forall i, j | 0 <= i < j < |views| ensures Ids(views[i]) !! Ids(views[j]) {
      LevelIdsDisjoint(side, blocks, ids, minPrice, lists, i, j);
    }
    FlattenDistinct(side, views);
    forall id: OrderId ensures id in Ids(Flatten(side, views)) <==> id in ids && OrderAt(blocks, ids[id]).side == side {
      IdOfSide(side, blocks, ids, minPrice, lists, id);
    }
  }

  lemma LevelIdsDistinct(side: Side, blocks: Blocks, ids: IdMap, price: int, lists: Lists, i: nat)
    requires Indexed(blocks, ids) && SideLinked(blocks, side, lists) && Separate(lists) && i < |lists|
    ensures DistinctIds(View(blocks, price, lists[i]))
  {
    var chain := lists[i];
    forall a, b | 0 <= a < b < |chain| ensures OrderAt(blocks, chain[a]).id != OrderAt(blocks, chain[b]).id {
      assert IsLive(blocks, chain[a]) && IsLive(blocks, chain[b]);
    }
  }

  lemma LevelIdsDisjoint(side: Side, blocks: Blocks, ids: IdMap, minPrice: int, lists: Lists, i: nat, j: nat)
    requires Indexed(blocks, ids) && SideLinked(blocks, side, lists) && Separate(lists) && i < j < |lists|
    ensures Ids(View(blocks, minPrice + i, lists[i])) !! Ids(View(blocks, minPrice + j, lists[j]))
  {
    var near, far := Ids(View(blocks, minPrice + i, lists[i])), Ids(View(blocks, minPrice + j, lists[j]));
    forall id | id in near ensures id !in far {
      ViewIds(blocks, minPrice + i, lists[i], id);
      ViewIds(blocks, minPrice + j, lists[j], id);
      var k :| k in lists[i] && OrderAt(blocks, k).id == id;
      assert IsLive(blocks, k);
    }
  }

  lemma IdOfSide(side: Side, blocks: Blocks, ids: IdMap, minPrice: int, lists: Lists, id: OrderId)
    requires Indexed(blocks, ids) && SideLinked(blocks, side, lists)
    ensures id in Ids(Flatten(side, ViewsOf(blocks, minPrice, lists)))
        <==> id in ids && OrderAt(blocks, ids[id]).side == side
  {
    var views := ViewsOf(blocks, minPrice, lists);
    FlattenIds(side, views, id);
    if i :| 0 <= i < |views| && id in Ids(views[i]) {
      ViewIds(blocks, minPrice + i, lists[i], id);
      var k :| k in lists[i] && OrderAt(blocks, k).id == id;
      assert IsLive(blocks, k);
    }
    if id in ids && OrderAt(blocks, ids[id]).side == side {
      var k := ids[id];
      assert IsLive(blocks, k);
      assert InSome(lists, k);
      var i :| 0 <= i < |lists| && k in lists[i];
      ViewIds(blocks, minPrice + i, lists[i], id);
      assert id in Ids(views[i]);
    }
  }

  lemma FrontReplaced(side: Side, views: Views, minPrice: int, best: Option<int>, i: nat, v: Queue, quantity: int)
    requires BestIs(side, minPrice, views, best) && best == Some(minPrice + i) && i < |views|
    requires views[i] != [] && v == [views[i][0].(quantity := quantity)] + views[i][1..]
    ensures BestIs(side, minPrice, views[i := v], best)
    ensures var q := Flatten(side, views);
            q != [] && Flatten(side, views[i := v]) == [q[0].(quantity := quantity)] + q[1..]
  {
    hide Flatten;
    FrontOfBest(side, views, minPrice, minPrice + i, [views[i][0].(quantity := quantity)]);
    BestAfterRemoval(side, minPrice, views, best, i, v);
  }

  lemma PlacedIsConfined(before: Blocks, after: Blocks, k: nat, order: RestingOrder)
    requires Placed(before, after, k, order)
    ensures Confined(before, after, null) && k < |after| && after[k] == Live(order)
  {
  }

  lemma RegisteredAfterArrival(side: Side, before: Blocks, after: Blocks, ids: IdMap, own: Lists, other: Lists, i: nat,
                               k: nat, id: OrderId, quantity: int)
    requires RegisteredOn(side, before, ids, own, other) && i < |own|
    requires Arrived(before, after, own[i], k, id, quantity, side) && id !in ids
    ensures RegisteredOn(side, after, ids[id := k], own[i := own[i] + [k]], other)
  {
    hide Indexed, SideLinked, Arrived;
    IndexedArrived(before, after, ids, own[i], k, id, quantity, side);
    OtherSideArrived(before, after, Opposite(side), other, own[i], k, id, quantity, side);
    SideArrived(before, after, side, own, i, k, id, quantity);
  }

  /** A block placed in free memory and linked behind a chain arrives there, and the level's view grows by it. */
  lemma ArrivesInLevel(before: Blocks, mid: Blocks, after: Blocks, level: object, price: int, chain: seq<nat>, k: nat,
                       order: RestingOrder)
    requires Placed(before, mid, k, order) && Relinked(mid, after, chain + [k])
    requires Chain(before, level, chain) && Chain(after, level, chain + [k]) && |chain| < UINT32_MAX
    ensures Arrived(before, after, chain, k, order.id, order.quantity, order.side)
    ensures View(after, price, chain + [k]) == View(before, price, chain) + [AsResting(order, price)]
  {
    hide NodeAt, View, Shares;
    forall j | j in chain ensures IsLive(before, j) { NodeOf(before, level, chain, j); }
    ArrivedByLinking(before, mid, after, chain, k, order);
    AppendedView(mid, after, level, price, chain, k);
    PlacedIsConfined(before, mid, k, order);
    OtherChain(before, mid, null, level, price, chain);
  }

  lemma LevelReduced(side: Side, views: Views, minPrice: int, best: Option<int>, i: nat, m: nat, n: int)
    requires BestIs(side, minPrice, views, best) && i < |views| && m < |views[i]| && DistinctIds(Flatten(side, views))
    ensures var r := views[i][m];
            var v := views[i][m := r.(quantity := r.quantity - n)];
            && BestIs(side, minPrice, views[i := v], best)
            && Flatten(side, views[i := v]) == Reduce(Flatten(side, views), r.id, n)
  {
    hide Flatten, DistinctIds;
    ReduceInLevel(side, views, i, m, n);
    BestAfterRemoval(side, minPrice, views, best, i, views[i][m := views[i][m].(quantity := views[i][m].quantity - n)]);
  }
}
