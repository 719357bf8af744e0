/** Chains of live blocks linked through `next` and `prev`, and what linking and unlinking do to them. */
module Chains {
  import opened Types
  import opened MemoryPool
  import opened PriceTime
  import opened QueueLemmas

  // ---------- chains of blocks ----------

  /** Element i of the chain is an order of this level, linked to its neighbours in the chain. */
  ghost predicate NodeAt(blocks: Blocks, level: object, chain: seq<nat>, i: nat)
    requires i < |chain|
  {
    && IsLive(blocks, chain[i])
    && var o := blocks[chain[i]].order;
    && o.level == level
    && o.next == Element(chain, i + 1)
    && o.prev == Element(chain, i - 1)
    && IsInt32(o.quantity)
  }

  ghost predicate Chain(blocks: Blocks, level: object, chain: seq<nat>) {
    && Distinct(chain)
    && forall i :: 0 <= i < |chain| ==> NodeAt(blocks, level, chain, i)
  }

  function OrderAt(blocks: Blocks, k: nat): RestingOrder {
    if k < |blocks| && blocks[k].Live? then blocks[k].order
    else RestingOrder(None, None, null, 0, 0, GoodTillCancel, Buy)
  }

  function AsResting(o: RestingOrder, price: int): RestingView {
    RestingView(price, o.id, o.quantity, o.lifetime)
  }

  /** The orders of a chain, as the book sees them. */
  function View(blocks: Blocks, price: int, chain: seq<nat>): (q: Queue)
    ensures |q| == |chain|
  {
    seq(|chain|, i requires 0 <= i < |chain| => AsResting(OrderAt(blocks, chain[i]), price))
  }

  function WithNext(blocks: Blocks, k: nat, p: Pointer): Blocks
    requires IsLive(blocks, k)
  {
    blocks[k := Live(blocks[k].order.(next := p))]
  }

  function WithPrev(blocks: Blocks, k: nat, p: Pointer): Blocks
    requires IsLive(blocks, k)
  {
    blocks[k := Live(blocks[k].order.(prev := p))]
  }

  function WithLevel(blocks: Blocks, k: nat, level: object?): Blocks
    requires IsLive(blocks, k)
  {
    blocks[k := Live(blocks[k].order.(level := level))]
  }

  function WithQuantity(blocks: Blocks, k: nat, quantity: int): Blocks {
    if k < |blocks| && blocks[k].Live? then blocks[k := Live(blocks[k].order.(quantity := quantity))]
    else blocks
  }

  function Detached(blocks: Blocks, k: nat): Blocks
    requires IsLive(blocks, k)
  {
    blocks[k := Live(blocks[k].order.(next := None, prev := None, level := null))]
  }

  /** Memory after block k is linked behind `tail` into the level. */
  ghost function LinkBack(blocks: Blocks, level: object, tail: Pointer, k: nat): Blocks
    requires IsLive(blocks, k) && (tail.Some? ==> IsLive(blocks, tail.value))
  {
    var b := if tail.Some? then WithNext(WithPrev(blocks, k, tail), tail.value, Some(k)) else blocks;
    WithLevel(WithNext(b, k, None), k, level)
  }

  ghost predicate Detachable(blocks: Blocks, k: nat) {
    && IsLive(blocks, k)
    && (blocks[k].order.prev.Some? ==> IsLive(blocks, blocks[k].order.prev.value))
    && (blocks[k].order.next.Some? ==> IsLive(blocks, blocks[k].order.next.value))
  }

  /** Memory after block k is taken out from between its neighbours. */
  ghost function Unlink(blocks: Blocks, k: nat): Blocks
    requires Detachable(blocks, k)
  {
    var prev, next := blocks[k].order.prev, blocks[k].order.next;
    var b := if prev.Some? then WithNext(blocks, prev.value, next) else blocks;
    var c := if next.Some? then WithPrev(b, next.value, prev) else b;
    Detached(c, k)
  }

  /** Outside the given addresses nothing changed; at them the links may have, but not the orders. */
  ghost predicate Relinked(before: Blocks, after: Blocks, touched: seq<nat>) {
    && |after| == |before|
    && (forall k :: 0 <= k < |before| && k !in touched ==> after[k] == before[k])
    && (forall k :: 0 <= k < |before| && k in touched ==> SameOrder(before[k], after[k]))
  }

  /** An order was taken off a chain: it is live but on no level, and the rest was at most relinked. */
  ghost predicate Released(before: Blocks, after: Blocks, chain: seq<nat>, k: nat) {
    && Relinked(before, after, chain)
    && IsLive(after, k) && after[k].order.level == null
  }

  /** An order was taken off a chain and its memory freed; the rest was at most relinked. */
  ghost predicate Erased(before: Blocks, after: Blocks, chain: seq<nat>, k: nat) {
    && |after| == |before|
    && (forall j :: 0 <= j < |before| && j !in chain ==> after[j] == before[j])
    && (forall j :: 0 <= j < |before| && j in chain && j != k ==> SameOrder(before[j], after[j]))
    && k < |after| && after[k].Free?
  }

  lemma NodeOf(blocks: Blocks, level: object, chain: seq<nat>, k: nat)
    requires Chain(blocks, level, chain) && k in chain
    ensures IsLive(blocks, k) && blocks[k].order.level == level && IsInt32(blocks[k].order.quantity)
  {
    var i :| 0 <= i < |chain| && chain[i] == k;
    assert NodeAt(blocks, level, chain, i);
  }

  lemma LastIsLive(blocks: Blocks, level: object, chain: seq<nat>)
    requires Chain(blocks, level, chain)
    ensures var last := Element(chain, |chain| - 1); last.Some? ==> IsLive(blocks, last.value)
  {
    if chain != [] { NodeOf(blocks, level, chain, chain[|chain| - 1]); }
  }

  lemma AppendedChain(before: Blocks, level: object, chain: seq<nat>, k: nat)
    requires Chain(before, level, chain) && IsLive(before, k) && k !in chain
    requires IsInt32(before[k].order.quantity) && before[k].order.prev.None?
    ensures var last := Element(chain, |chain| - 1);
            && (last.Some? ==> IsLive(before, last.value))
            && Chain(LinkBack(before, level, last, k), level, chain + [k])
  {
    LastIsLive(before, level, chain);
    var after := LinkBack(before, level, Element(chain, |chain| - 1), k);
    var longer := chain + [k];
    forall i | 0 <= i < |longer| ensures NodeAt(after, level, longer, i) {
      if i < |chain| { assert NodeAt(before, level, chain, i); }
    }
  }

  lemma AppendedOrders(before: Blocks, level: object, chain: seq<nat>, k: nat)
    requires Chain(before, level, chain) && IsLive(before, k) && k !in chain
    ensures var last := Element(chain, |chain| - 1);
            && (last.Some? ==> IsLive(before, last.value))
            && Relinked(before, LinkBack(before, level, last, k), chain + [k])
  {
    LastIsLive(before, level, chain);
    forall j | j in chain ensures IsLive(before, j) { NodeOf(before, level, chain, j); }
  }

  /** The view of a chain depends on the orders it holds, not on their links. */
  lemma ViewRelinked(before: Blocks, after: Blocks, price: int, chain: seq<nat>)
    requires |before| <= |after|
    requires forall k :: k in chain ==> k < |before| && SameOrder(before[k], after[k])
    ensures View(after, price, chain) == View(before, price, chain)
  {
  }

  lemma AppendedView(before: Blocks, after: Blocks, level: object, price: int, chain: seq<nat>, k: nat)
    requires Relinked(before, after, chain + [k]) && IsLive(before, k)
    requires Chain(after, level, chain + [k]) && |chain| < UINT32_MAX
    ensures View(after, price, chain + [k]) == View(before, price, chain) + [AsResting(before[k].order, price)]
    ensures Shares(View(after, price, chain + [k])) == Shares(View(before, price, chain)) + before[k].order.quantity
  {
    forall j | j in chain + [k] ensures j < |before| { NodeOf(after, level, chain + [k], j); }
    ViewRelinked(before, after, price, chain + [k]);
    assert View(before, price, chain + [k]) == View(before, price, chain) + [AsResting(before[k].order, price)];
    SharesAppend(View(before, price, chain), AsResting(before[k].order, price));
  }

  function Without<T>(s: seq<T>, i: nat): seq<T>
    requires i < |s|
  {
    s[..i] + s[i + 1..]
  }

  function IndexOf(chain: seq<nat>, k: nat): (i: nat)
    requires k in chain
    ensures i < |chain| && chain[i] == k
  {
    if chain[0] == k then 0 else 1 + IndexOf(chain[1..], k)
  }

  lemma UnlinkedChain(before: Blocks, level: object, chain: seq<nat>, i: nat)
    requires Chain(before, level, chain) && i < |chain|
    ensures NodeAt(before, level, chain, i)
    ensures Detachable(before, chain[i])
    ensures Chain(Unlink(before, chain[i]), level, Without(chain, i))
  {
    NeighboursAreLive(before, level, chain, i);
    var after := Unlink(before, chain[i]);
    var shorter := Without(chain, i);
    forall j | 0 <= j < |shorter| ensures NodeAt(after, level, shorter, j) {
      var was := if j < i then j else j + 1;
      assert shorter[j] == chain[was];
      assert NodeAt(before, level, chain, was);
    }
  }

  lemma UnlinkedOrders(before: Blocks, level: object, chain: seq<nat>, i: nat)
    requires Chain(before, level, chain) && i < |chain|
    ensures NodeAt(before, level, chain, i)
    ensures Detachable(before, chain[i])
    ensures var after := Unlink(before, chain[i]);
            && Relinked(before, after, chain)
            && after[chain[i]] == Live(before[chain[i]].order.(next := None, prev := None, level := null))
  {
    NeighboursAreLive(before, level, chain, i);
    forall j | j in chain ensures IsLive(before, j) { NodeOf(before, level, chain, j); }
  }

  lemma NeighboursAreLive(blocks: Blocks, level: object, chain: seq<nat>, i: nat)
    requires Chain(blocks, level, chain) && i < |chain|
    ensures NodeAt(blocks, level, chain, i)
    ensures Detachable(blocks, chain[i])
  {
    if i > 0 { assert NodeAt(blocks, level, chain, i - 1); }
    if i + 1 < |chain| { assert NodeAt(blocks, level, chain, i + 1); }
  }

  lemma UnlinkedView(before: Blocks, after: Blocks, level: object, price: int, chain: seq<nat>, i: nat)
    requires Relinked(before, after, chain) && i < |chain| <= UINT32_MAX
    requires Chain(before, level, chain)
    requires Chain(after, level, Without(chain, i))
    ensures View(after, price, Without(chain, i)) == Without(View(before, price, chain), i)
    ensures Shares(Without(View(before, price, chain), i))
         == Shares(View(before, price, chain)) - View(before, price, chain)[i].quantity
  {
    forall j | j in chain ensures j < |before| { NodeOf(before, level, chain, j); }
    ViewRelinked(before, after, price, chain);
    assert View(after, price, Without(chain, i)) == Without(View(after, price, chain), i);
    SharesWithout(View(before, price, chain), i);
  }

  lemma SharesWithout(q: Queue, i: nat)
    requires i < |q|
    ensures Shares(Without(q, i)) == Shares(q) - q[i].quantity
  {
    hide Shares;
    assert q == q[..i] + ([q[i]] + q[i + 1..]);
    SharesConcat(q[..i], [q[i]] + q[i + 1..]);
    SharesConcat([q[i]], q[i + 1..]);
    SharesConcat(q[..i], q[i + 1..]);
    SharesOne(q[i]);
  }

  /** Relinking live orders leaves the free list alone. */
  lemma ThreadedRelinked(before: Blocks, after: Blocks, first: Pointer, freeList: seq<nat>, touched: seq<nat>)
    requires Threaded(before, first, freeList) && Relinked(before, after, touched)
    ensures Threaded(after, first, freeList)
  {
    forall i | 0 <= i < |freeList| ensures FreeAt(after, freeList, i) {
      assert FreeAt(before, freeList, i);
    }
  }

  /** Only free blocks, blocks on no level, and blocks of the given level may have changed. */
  ghost predicate Confined(before: Blocks, after: Blocks, level: object?) {
    && |before| <= |after|
    && forall k :: 0 <= k < |before| && after[k] != before[k] ==>
         before[k].Free? || before[k].order.level == null || before[k].order.level == level
  }

  lemma ConfinedToChain(before: Blocks, after: Blocks, level: object, chain: seq<nat>)
    requires Chain(before, level, chain) && |before| <= |after|
    requires forall k :: 0 <= k < |before| && k !in chain ==> after[k] == before[k]
    ensures Confined(before, after, level)
  {
    forall k | 0 <= k < |before| && after[k] != before[k] ensures before[k].Live? && before[k].order.level == level {
      NodeOf(before, level, chain, k);
    }
  }

  lemma IndexInChain(blocks: Blocks, level: object, chain: seq<nat>, m: nat)
    requires Chain(blocks, level, chain) && m < |chain|
    ensures IndexOf(chain, chain[m]) == m
  {
  }

  lemma ViewAt(blocks: Blocks, price: int, chain: seq<nat>, m: nat)
    requires m < |chain|
    ensures View(blocks, price, chain)[m] == AsResting(OrderAt(blocks, chain[m]), price)
  {
  }

  lemma FirstRequantified(before: Blocks, level: object, price: int, chain: seq<nat>, quantity: int)
    requires chain != [] && Chain(before, level, chain) && IsLive(before, chain[0])
    ensures var v := View(before, price, chain);
            View(WithQuantity(before, chain[0], quantity), price, chain) == [v[0].(quantity := quantity)] + v[1..]
  {
  }

  lemma UnlinkedIsAbsent(blocks: Blocks, level: object, chain: seq<nat>, k: nat)
    requires Chain(blocks, level, chain) && IsLive(blocks, k) && blocks[k].order.level == null
    ensures k !in chain
  {
    if k in chain {
      NodeOf(blocks, level, chain, k);
      assert false;
    }
  }

  lemma ErasedIsConfined(before: Blocks, after: Blocks, level: object, chain: seq<nat>, k: nat)
    requires Chain(before, level, chain) && Erased(before, after, chain, k)
    ensures Confined(before, after, level)
  {
    ConfinedToChain(before, after, level, chain);
  }

  lemma RelinkedIsConfined(before: Blocks, after: Blocks, level: object, chain: seq<nat>, k: nat)
    requires Chain(before, level, chain) && Relinked(before, after, chain + [k])
    requires IsLive(before, k) && before[k].order.level == null
    ensures Confined(before, after, level)
  {
    forall j | 0 <= j < |before| && after[j] != before[j]
      ensures before[j].Free? || before[j].order.level == null || before[j].order.level == level
    {
      assert j in chain + [k];
      if j != k { NodeOf(before, level, chain, j); }
    }
  }

  /** Linking an order behind the tail appends it to the chain. */
  lemma Appended(before: Blocks, level: object, price: int, chain: seq<nat>, k: nat, first: Pointer, freeList: seq<nat>)
    requires Chain(before, level, chain) && IsLive(before, k) && k !in chain && before[k].order.level == null
    requires IsInt32(before[k].order.quantity) && before[k].order.prev.None?
    requires |chain| < UINT32_MAX && Threaded(before, first, freeList)
    ensures var last := Element(chain, |chain| - 1);
            && (last.Some? ==> IsLive(before, last.value))
            && var after := LinkBack(before, level, last, k);
            && |after| == |before| && IsLive(after, k) && after[k].order.quantity == before[k].order.quantity
            && Threaded(after, first, freeList)
            && Chain(after, level, chain + [k])
            && Relinked(before, after, chain + [k])
            && Confined(before, after, level)
            && Shares(View(after, price, chain + [k])) == Shares(View(before, price, chain)) + before[k].order.quantity
  {
    AppendedChain(before, level, chain, k);
    AppendedOrders(before, level, chain, k);
    var after := LinkBack(before, level, Element(chain, |chain| - 1), k);
    ThreadedRelinked(before, after, first, freeList, chain + [k]);
    RelinkedIsConfined(before, after, level, chain, k);
    AppendedView(before, after, level, price, chain, k);
  }

  /** Unlinking removes exactly one element of the chain, at any position. */
  lemma Unlinked(before: Blocks, level: object, price: int, chain: seq<nat>, i: nat, first: Pointer, freeList: seq<nat>)
    requires Chain(before, level, chain) && i < |chain| <= UINT32_MAX
    requires Threaded(before, first, freeList)
    ensures NodeAt(before, level, chain, i) && Detachable(before, chain[i])
    ensures var after := Unlink(before, chain[i]);
            && |after| == |before|
            && after[chain[i]] == Live(before[chain[i]].order.(next := None, prev := None, level := null))
            && Threaded(after, first, freeList)
            && Chain(after, level, Without(chain, i))
            && Released(before, after, chain, chain[i])
            && Confined(before, after, level)
            && Shares(View(after, price, Without(chain, i)))
                 == Shares(View(before, price, chain)) - before[chain[i]].order.quantity
  {
    UnlinkedChain(before, level, chain, i);
    UnlinkedOrders(before, level, chain, i);
    var after := Unlink(before, chain[i]);
    ThreadedRelinked(before, after, first, freeList, chain);
    ConfinedToChain(before, after, level, chain);
    UnlinkedView(before, after, level, price, chain, i);
  }

  /** Changing a quantity keeps the chain and changes the volume by the difference. */
  lemma Requantified(before: Blocks, level: object, price: int, chain: seq<nat>, i: nat, quantity: int, first: Pointer,
                     freeList: seq<nat>)
    requires Chain(before, level, chain) && i < |chain| <= UINT32_MAX
    requires Threaded(before, first, freeList)
    requires IsInt32(quantity)
    ensures NodeAt(before, level, chain, i)
    ensures var after := WithQuantity(before, chain[i], quantity);
            && Threaded(after, first, freeList)
            && Chain(after, level, chain)
            && Confined(before, after, level)
            && var v := View(before, price, chain);
            && View(after, price, chain) == v[i := v[i].(quantity := quantity)]
            && Shares(View(after, price, chain)) == Shares(v) - OrderAt(before, chain[i]).quantity + quantity
  {
    assert NodeAt(before, level, chain, i);
    var after := WithQuantity(before, chain[i], quantity);
    forall j | 0 <= j < |chain| ensures NodeAt(after, level, chain, j) {
      assert NodeAt(before, level, chain, j);
    }
    forall j | 0 <= j < |freeList| ensures FreeAt(after, freeList, j) {
      assert FreeAt(before, freeList, j);
    }
    ConfinedToChain(before, after, level, chain);
    SharesUpdate(View(before, price, chain), i, View(before, price, chain)[i].(quantity := quantity));
  }

  lemma SharesUpdate(q: Queue, i: nat, r: RestingView)
    requires i < |q|
    ensures Shares(q[i := r]) == Shares(q) - q[i].quantity + r.quantity
  {
    SharesWithout(q, i);
    SharesWithout(q[i := r], i);
    assert Without(q, i) == Without(q[i := r], i);
  }

  /** A chain whose blocks did not change is still a chain, with the same orders in it. */
  lemma ChainFrame(before: Blocks, after: Blocks, level: object, price: int, chain: seq<nat>)
    requires Chain(before, level, chain)
    requires |before| <= |after|
    requires forall k :: k in chain && k < |before| ==> after[k] == before[k]
    ensures Chain(after, level, chain)
    ensures View(after, price, chain) == View(before, price, chain)
  {
    forall j | 0 <= j < |chain|
      ensures NodeAt(after, level, chain, j) && View(after, price, chain)[j] == View(before, price, chain)[j]
    {
      assert NodeAt(before, level, chain, j);
    }
  }

  lemma OrderIsKept(before: Blocks, after: Blocks, chain: seq<nat>, k: nat)
    requires Relinked(before, after, chain) && IsLive(before, k)
    ensures IsLive(after, k) && SameOrder(before[k], after[k])
  {
  }

  lemma ErasedAfterRelease(before: Blocks, unlinked: Blocks, chain: seq<nat>, k: nat, after: Blocks)
    requires Relinked(before, unlinked, chain) && k in chain && k < |before|
    requires exists link :: after == unlinked[k := Free(link)]
    ensures Erased(before, after, chain, k)
    ensures forall j :: 0 <= j < |after| && j != k ==> after[j] == unlinked[j]
  {
  }

  lemma RemovedIsAbsent(blocks: Blocks, level: object, chain: seq<nat>, i: nat)
    requires i < |chain| && Chain(blocks, level, chain)
    ensures chain[i] !in Without(chain, i)
    ensures forall k :: k in Without(chain, i) ==> k in chain
  {
  }

  lemma OtherChain(before: Blocks, after: Blocks, touched: object?, level: object, price: int, chain: seq<nat>)
    requires Confined(before, after, touched) && touched != level
    requires Chain(before, level, chain)
    ensures Chain(after, level, chain)
    ensures View(after, price, chain) == View(before, price, chain)
  {
    forall k | k in chain && k < |before| ensures after[k] == before[k] {
      NodeOf(before, level, chain, k);
    }
    ChainFrame(before, after, level, price, chain);
  }

  type Lists = seq<seq<nat>>

  /** The levels of a ladder, as the book sees them. */
  function ViewsOf(blocks: Blocks, minPrice: int, lists: Lists): (views: seq<Queue>)
    ensures |views| == |lists|
  {
    seq(|lists|, i requires 0 <= i < |lists| => View(blocks, minPrice + i, lists[i]))
  }

  lemma ViewsOfAt(blocks: Blocks, minPrice: int, lists: Lists, i: nat)
    requires i < |lists|
    ensures ViewsOf(blocks, minPrice, lists)[i] == View(blocks, minPrice + i, lists[i])
  {
  }

  lemma ElementRequantified(before: Blocks, level: object, price: int, chain: seq<nat>, m: nat, quantity: int)
    requires Chain(before, level, chain) && m < |chain|
    ensures var v := View(before, price, chain);
            View(WithQuantity(before, chain[m], quantity), price, chain) == v[m := v[m].(quantity := quantity)]
  {
    assert NodeAt(before, level, chain, m);
  }
}
