/** What every request keeps of the abstract book, whatever its quantities, and what it keeps besides when they are
    sound. */
module BookInvariants {
  import opened Types
  import opened PriceTime
  import opened QueueLemmas
  import opened LadderView
  import opened LiquidityScan
  import opened Matching
  import opened BookSpec
  import opened BookLemmas

  /** A queue that one side of a book with this price band may hold. */
  ghost predicate Sane(side: Side, q: Queue, lo: int, hi: int) {
    Sorted(side, q) && DistinctIds(q) && InRange(q, lo, hi)
  }

  lemma OrderedSides(b: Book)
    ensures b.Ordered() <==> && Sane(Buy, b.bids, b.minPrice, b.maxPrice)
                             && Sane(Sell, b.asks, b.minPrice, b.maxPrice)
                             && Ids(b.bids) !! Ids(b.asks)
  {
  }

  /** The orders of a queue stand at prices at which there were orders before. */
  ghost predicate NoNewPrices(before: Queue, after: Queue) {
    forall r :: r in after ==> exists x :: x in before && x.price == r.price
  }

  lemma NoNewPricesKeepUncrossed(before: Book, after: Book)
    requires before.NotCrossed() && NoNewPrices(before.bids, after.bids) && NoNewPrices(before.asks, after.asks)
    ensures after.NotCrossed()
  {
  }

  // ---------- queues ----------

  lemma SaneTail(side: Side, q: Queue, lo: int, hi: int)
    requires q != [] && Sane(side, q, lo, hi)
    ensures Sane(side, q[1..], lo, hi) && q[0].id !in Ids(q[1..]) && Ids(q) == {q[0].id} + Ids(q[1..])
    ensures lo <= q[0].price <= hi && forall r :: r in q[1..] ==> !Better(side, r.price, q[0].price)
  {
    assert q == [q[0]] + q[1..];
  }

  lemma SaneCons(side: Side, r: RestingView, q: Queue, lo: int, hi: int)
    requires Sane(side, q, lo, hi) && r.id !in Ids(q) && lo <= r.price <= hi
    requires forall x :: x in q ==> !Better(side, x.price, r.price)
    ensures Sane(side, [r] + q, lo, hi) && Ids([r] + q) == {r.id} + Ids(q)
  {
    var longer := [r] + q;
    forall i | 0 <= i < |q| ensures r.id != q[i].id && !Better(side, q[i].price, r.price) { assert q[i] in q; }
    assert forall x :: x in longer <==> x == r || x in q;
  }

  lemma {:induction false} SweepKeepsSane(taker: Side, limit: Option<int>, want: int, q: Queue, lo: int, hi: int)
    requires Sane(Opposite(taker), q, lo, hi)
    ensures var s := SweepQueue(taker, limit, want, q); Sane(Opposite(taker), s.left, lo, hi) && Ids(s.left) <= Ids(q)
    ensures NoNewPrices(q, SweepQueue(taker, limit, want, q).left)
    decreases |q|
  {
    if want > 0 && q != [] && Crosses(taker, limit, q[0].price) {
      hide Sane, Ids;
      SaneTail(Opposite(taker), q, lo, hi);
      assert q == [q[0]] + q[1..];
      if q[0].quantity > want {
        SaneCons(Opposite(taker), q[0].(quantity := q[0].quantity - want), q[1..], lo, hi);
      } else {
        SweepKeepsSane(taker, limit, want - q[0].quantity, q[1..], lo, hi);
      }
    }
  }

  lemma {:induction false} InsertKeepsSane(side: Side, q: Queue, r: RestingView, lo: int, hi: int)
    requires Sane(side, q, lo, hi) && r.id !in Ids(q) && lo <= r.price <= hi
    ensures Sane(side, Insert(side, q, r), lo, hi) && Ids(Insert(side, q, r)) == Ids(q) + {r.id}
  {
    hide Sane;
    InsertMembers(side, q, r);
    if q == [] || Better(side, r.price, q[0].price) {
      if q != [] { SaneTail(side, q, lo, hi); }
      assert forall x :: x in q ==> x == q[0] || x in q[1..];
      SaneCons(side, r, q, lo, hi);
    } else {
      SaneTail(side, q, lo, hi);
      InsertKeepsSane(side, q[1..], r, lo, hi);
      InsertMembers(side, q[1..], r);
      SaneCons(side, q[0], Insert(side, q[1..], r), lo, hi);
    }
  }

  lemma {:induction false} RemoveKeepsSane(side: Side, q: Queue, id: OrderId, lo: int, hi: int)
    requires Sane(side, q, lo, hi)
    ensures Sane(side, Remove(q, id), lo, hi) && Ids(Remove(q, id)) == Ids(q) - {id}
    ensures forall r :: r in Remove(q, id) <==> r in q && r.id != id
  {
    RemoveIds(q, id);
    if q != [] {
      hide Sane, Ids, DistinctIds;
      SaneTail(side, q, lo, hi);
      if q[0].id != id {
        RemoveKeepsSane(side, q[1..], id, lo, hi);
        SaneCons(side, q[0], Remove(q[1..], id), lo, hi);
      }
    }
  }

  lemma {:induction false} ReduceKeepsSane(side: Side, q: Queue, id: OrderId, n: int, lo: int, hi: int)
    requires Sane(side, q, lo, hi)
    ensures Sane(side, Reduce(q, id, n), lo, hi) && Ids(Reduce(q, id, n)) == Ids(q)
    ensures NoNewPrices(q, Reduce(q, id, n))
  {
    hide Sane, Ids;
    if q == [] {
      assert Reduce(q, id, n) == q;
    } else {
      SaneTail(side, q, lo, hi);
      assert q == [q[0]] + q[1..];
      if q[0].id == id {
        SaneCons(side, q[0].(quantity := q[0].quantity - n), q[1..], lo, hi);
      } else {
        ReduceKeepsSane(side, q[1..], id, n, lo, hi);
        var rest := Reduce(q[1..], id, n);
        forall x | x in rest ensures !Better(side, x.price, q[0].price) {
          var y :| y in q[1..] && y.price == x.price;
        }
        SaneCons(side, q[0], rest, lo, hi);
      }
    }
  }

  lemma {:induction false} LifetimeKeepsSane(side: Side, q: Queue, lifetime: RestingLifetime, lo: int, hi: int)
    requires Sane(side, q, lo, hi)
    ensures Sane(side, WithLifetime(q, lifetime), lo, hi) && Ids(WithLifetime(q, lifetime)) <= Ids(q)
  {
    hide Sane, Ids;
    if q != [] {
      SaneTail(side, q, lo, hi);
      LifetimeKeepsSane(side, q[1..], lifetime, lo, hi);
      LifetimeMembers(q[1..], lifetime);
      if q[0].lifetime == lifetime {
        SaneCons(side, q[0], WithLifetime(q[1..], lifetime), lo, hi);
      } else {
        assert WithLifetime(q, lifetime) == WithLifetime(q[1..], lifetime);
      }
    }
  }

  lemma {:induction false} InsertMembers(side: Side, q: Queue, r: RestingView)
    ensures forall x :: x in Insert(side, q, r) <==> x in q || x == r
  {
    if q != [] && !Better(side, r.price, q[0].price) {
      InsertMembers(side, q[1..], r);
      assert q == [q[0]] + q[1..];
    }
  }

  // ---------- positive quantities ----------

  lemma PositiveMembers(q: Queue)
    ensures Positive(q) <==> forall r :: r in q ==> r.quantity > 0
  {
    if Positive(q) {
      forall r | r in q ensures r.quantity > 0 { var i :| 0 <= i < |q| && q[i] == r; }
    }
  }

  lemma {:induction false} SweepKeepsPositive(taker: Side, limit: Option<int>, want: int, q: Queue)
    requires Positive(q)
    ensures Positive(SweepQueue(taker, limit, want, q).left)
    decreases |q|
  {
    if want > 0 && q != [] && q[0].quantity <= want {
      SweepKeepsPositive(taker, limit, want - q[0].quantity, q[1..]);
    }
  }

  lemma {:induction false} ReduceKeepsPositive(q: Queue, id: OrderId, n: int)
    requires Positive(q) && (Find(q, id).Some? ==> n < Find(q, id).value.quantity)
    ensures Positive(Reduce(q, id, n))
  {
    if q != [] && q[0].id != id { ReduceKeepsPositive(q[1..], id, n); }
  }

  // ---------- orders that cross ----------

  /** In a sorted queue some order crosses exactly when the first one does. */
  lemma TopCrossesFirst(taker: Side, limit: Option<int>, q: Queue)
    requires Sorted(Opposite(taker), q)
    ensures (exists x :: x in q && Crosses(taker, limit, x.price)) <==> q != [] && Crosses(taker, limit, q[0].price)
  {
    if x :| x in q && Crosses(taker, limit, x.price) {
      var i :| 0 <= i < |q| && q[i] == x;
      assert i > 0 ==> !Better(Opposite(taker), q[i].price, q[0].price);
    }
    if q != [] && Crosses(taker, limit, q[0].price) {
      assert q[0] in q;
    }
  }

  /** An order that is not filled up has taken everything it may take, whatever the makers' quantities. */
  lemma {:induction false} SweepExhausts(taker: Side, limit: Option<int>, want: int, q: Queue)
    requires Sorted(Opposite(taker), q) && 0 <= want
    requires SweepQueue(taker, limit, want, q).remaining > 0
    ensures forall r :: r in SweepQueue(taker, limit, want, q).left ==> !Crosses(taker, limit, r.price)
    decreases |q|
  {
    hide Sorted;
    TopCrossesFirst(taker, limit, q);
    if q != [] && Crosses(taker, limit, q[0].price) && want > 0 && q[0].quantity <= want {
      SortedTail(Opposite(taker), q);
      SweepExhausts(taker, limit, want - q[0].quantity, q[1..]);
    }
  }

  /** The best order of the other side, if there is one, crosses this price. */
  predicate Meets(b: Book, side: Side, price: int) {
    var best := Top(b.On(Opposite(side)));
    best.Some? && Crosses(side, Some(price), best.value)
  }

  // ---------- books ----------

  lemma MatchKeeps(b: Book, side: Side, limit: Option<int>, quantity: int)
    requires b.Ordered()
    ensures var m := b.With(Opposite(side), Match(b, side, limit, quantity).left);
            && m.Ordered() && Ids(m.bids) <= Ids(b.bids) && Ids(m.asks) <= Ids(b.asks)
            && (b.WellFormed() ==> m.WellFormed())
            && (b.NotCrossed() ==> m.NotCrossed())
  {
    hide Sane, Ids, Positive, Book.NotCrossed;
    OrderedSides(b);
    var m := b.With(Opposite(side), Match(b, side, limit, quantity).left);
    SweepKeepsSane(side, limit, quantity, b.On(Opposite(side)), b.minPrice, b.maxPrice);
    if b.WellFormed() { SweepKeepsPositive(side, limit, quantity, b.On(Opposite(side))); }
    OrderedSides(m);
    if b.NotCrossed() { NoNewPricesKeepUncrossed(b, m); }
  }

  lemma RestKeeps(b: Book, side: Side, r: RestingView)
    requires b.Ordered() && !b.Holds(r.id) && b.InBand(r.price)
    ensures Rest(b, side, r).Ordered()
    ensures b.WellFormed() ==> (Rest(b, side, r).WellFormed() <==> r.quantity > 0)
  {
    hide Sane, Ids, Positive;
    OrderedSides(b);
    InsertKeepsSane(side, b.On(side), r, b.minPrice, b.maxPrice);
    OrderedSides(Rest(b, side, r));
    PositiveMembers(b.On(side));
    PositiveMembers(Rest(b, side, r).On(side));
    InsertMembers(side, b.On(side), r);
  }

  /** An order rested without matching leaves the book uncrossed exactly when the opposite best price, if there is one,
      does not cross its own. */
  lemma RestCrossesExactlyWhen(b: Book, side: Side, r: RestingView)
    requires b.Ordered() && b.NotCrossed()
    ensures Rest(b, side, r).NotCrossed() <==> !Meets(b, side, r.price)
  {
    hide Insert, Book.UniqueIds, InRange;
    var makers := b.On(Opposite(side));
    InsertMembers(side, b.On(side), r);
    TopCrossesFirst(side, Some(r.price), makers);
    assert r in Rest(b, side, r).On(side);
    if Meets(b, side, r.price) {
      assert makers[0] in Rest(b, side, r).On(Opposite(side));
    }
  }

  lemma CancelKeeps(b: Book, id: OrderId)
    requires b.Ordered()
    ensures Cancel(b, id).0.Ordered() && !Cancel(b, id).0.Holds(id)
    ensures forall x :: Cancel(b, id).0.Holds(x) <==> b.Holds(x) && x != id
    ensures b.WellFormed() ==> Cancel(b, id).0.WellFormed()
    ensures b.NotCrossed() ==> Cancel(b, id).0.NotCrossed()
    ensures Cancel(b, id).0.minPrice == b.minPrice && Cancel(b, id).0.maxPrice == b.maxPrice
  {
    LookupHeld(b, id);
    hide Sane, Ids, Positive;
    OrderedSides(b);
    CancelFreesId(b, id);
    RemoveKeepsSane(Buy, b.bids, id, b.minPrice, b.maxPrice);
    RemoveKeepsSane(Sell, b.asks, id, b.minPrice, b.maxPrice);
    OrderedSides(Cancel(b, id).0);
    PositiveMembers(b.On(b.SideOf(id)));
    PositiveMembers(Cancel(b, id).0.On(b.SideOf(id)));
  }

  lemma SubmitLimitKeeps(b: Book, r: LimitOrderRequest)
    requires b.Ordered()
    ensures SubmitLimit(b, r).0.Ordered()
    ensures b.WellFormed() && (r.tif.Gtc? || r.tif.Day? ==> r.quantity >= 0) ==> SubmitLimit(b, r).0.WellFormed()
    ensures SubmitLimit(b, r).0.minPrice == b.minPrice && SubmitLimit(b, r).0.maxPrice == b.maxPrice
  {
    hide Book.Ordered, Positive, Book.NotCrossed, SweepQueue, LooksLiquid, Ids;
    if !b.Holds(r.id) && b.InBand(r.price) {
      MatchKeeps(b, r.side, Some(r.price), r.quantity);
      if r.tif.Gtc? || r.tif.Day? { SubmitRestingKeeps(b, r); }
    }
  }

  lemma SubmitRestingKeeps(b: Book, r: LimitOrderRequest)
    requires b.Ordered() && !b.Holds(r.id) && b.InBand(r.price)
    ensures SubmitResting(b, r).0.Ordered()
    ensures b.WellFormed() && r.quantity >= 0 ==> SubmitResting(b, r).0.WellFormed()
  {
    hide Book.Ordered, Positive, Book.NotCrossed, SweepQueue, Insert;
    var s := Match(b, r.side, Some(r.price), r.quantity);
    var matched := b.With(Opposite(r.side), s.left);
    MatchKeeps(b, r.side, Some(r.price), r.quantity);
    if r.quantity >= 0 { SweepRemains(r.side, Some(r.price), r.quantity, b.On(Opposite(r.side))); }
    if s.remaining != 0 {
      RestKeeps(matched, r.side, RestingView(r.price, r.id, s.remaining, LifetimeOf(r.tif)));
    }
  }

  /** A limit order crosses the book exactly when it is a GTC or DAY order with a negative quantity, which trades
      nothing and rests all the same, is not rejected, and meets the opposite best price. */
  lemma SubmitLimitCrossesExactlyWhen(b: Book, r: LimitOrderRequest)
    requires b.Ordered() && b.NotCrossed()
    ensures var unmatched := (r.tif.Gtc? || r.tif.Day?) && r.quantity < 0 && !b.Holds(r.id) && b.InBand(r.price);
            SubmitLimit(b, r).0.NotCrossed() <==> !unmatched || !Meets(b, r.side, r.price)
  {
    hide Book.Ordered, Book.NotCrossed, SweepQueue, LooksLiquid, Ids, Meets;
    if !b.Holds(r.id) && b.InBand(r.price) {
      MatchKeeps(b, r.side, Some(r.price), r.quantity);
      if r.tif.Gtc? || r.tif.Day? { SubmitRestingCrossesExactlyWhen(b, r); }
    }
  }

  lemma SubmitRestingCrossesExactlyWhen(b: Book, r: LimitOrderRequest)
    requires b.Ordered() && b.NotCrossed() && !b.Holds(r.id) && b.InBand(r.price)
    ensures SubmitResting(b, r).0.NotCrossed() <==> r.quantity >= 0 || !Meets(b, r.side, r.price)
  {
    hide Book.UniqueIds, InRange, Book.NotCrossed, Insert, Sorted;
    var makers := b.On(Opposite(r.side));
    var s := Match(b, r.side, Some(r.price), r.quantity);
    var matched := b.With(Opposite(r.side), s.left);
    MatchKeeps(b, r.side, Some(r.price), r.quantity);
    if s.remaining != 0 {
      RestCrossesExactlyWhen(matched, r.side, RestingView(r.price, r.id, s.remaining, LifetimeOf(r.tif)));
      if r.quantity >= 0 {
        SweepRemains(r.side, Some(r.price), r.quantity, makers);
        SweepExhausts(r.side, Some(r.price), r.quantity, makers);
        assert s.left != [] ==> s.left[0] in s.left;
      }
    }
  }

  lemma SubmitMarketKeeps(b: Book, r: MarketOrderRequest)
    requires b.Ordered()
    ensures SubmitMarket(b, r).0.Ordered()
    ensures b.WellFormed() ==> SubmitMarket(b, r).0.WellFormed()
    ensures b.NotCrossed() ==> SubmitMarket(b, r).0.NotCrossed()
  {
    hide Book.Ordered, Positive, Book.NotCrossed, SweepQueue;
    MatchKeeps(b, r.side, None, r.quantity);
  }

  lemma ModifyKeeps(b: Book, r: ModifyOrderRequest)
    requires b.Ordered()
    ensures Modify(b, r).0.Ordered()
    ensures b.WellFormed() ==> Modify(b, r).0.WellFormed()
    ensures b.NotCrossed() ==> Modify(b, r).0.NotCrossed()
    ensures Modify(b, r).0.minPrice == b.minPrice && Modify(b, r).0.maxPrice == b.maxPrice
  {
    hide Book.Ordered, Positive, Book.NotCrossed, SubmitLimit, Cancel, Meets;
    CancelKeeps(b, r.id);
    if b.InBand(r.newPrice) && b.Lookup(r.id).Some? && r.newQuantity > 0 {
      var gone, again := Cancel(b, r.id).0, Resubmission(b, r, b.Lookup(r.id).value);
      SubmitLimitKeeps(gone, again);
      if b.NotCrossed() { SubmitLimitCrossesExactlyWhen(gone, again); }
    }
  }

  lemma SessionEndKeeps(b: Book)
    requires b.Ordered()
    ensures SessionEnd(b).0.Ordered()
    ensures b.WellFormed() ==> SessionEnd(b).0.WellFormed()
    ensures b.NotCrossed() ==> SessionEnd(b).0.NotCrossed()
  {
    hide Sane, Ids, Positive, AddLevels, LevelsOf;
    var after := SessionEnd(b).0;
    OrderedSides(b);
    LifetimeKeepsSane(Buy, b.bids, GoodTillCancel, b.minPrice, b.maxPrice);
    LifetimeKeepsSane(Sell, b.asks, GoodTillCancel, b.minPrice, b.maxPrice);
    LifetimeMembers(b.bids, GoodTillCancel);
    LifetimeMembers(b.asks, GoodTillCancel);
    PositiveMembers(b.bids);
    PositiveMembers(b.asks);
    PositiveMembers(after.bids);
    PositiveMembers(after.asks);
    OrderedSides(after);
  }

  lemma ReplayAddKeeps(b: Book, id: OrderId, price: int, quantity: int, side: Side)
    requires b.Ordered()
    ensures var after := ReplayAdd(b, id, price, quantity, side).0;
            && after.Ordered() && after.minPrice == b.minPrice && after.maxPrice == b.maxPrice
            && (b.WellFormed() && quantity >= 0 ==> after.WellFormed())
  {
    hide Book.Ordered, Positive, Insert;
    if quantity != 0 && !b.Holds(id) && b.InBand(price) {
      RestKeeps(b, side, RestingView(price, id, quantity, GoodTillCancel));
    }
  }

  lemma ReduceKeeps(b: Book, id: OrderId, n: int)
    requires b.Ordered()
    ensures ReplayReduce(b, id, n).0.Ordered()
    ensures ReplayReduce(b, id, n).0.minPrice == b.minPrice && ReplayReduce(b, id, n).0.maxPrice == b.maxPrice
    ensures b.WellFormed() ==> ReplayReduce(b, id, n).0.WellFormed()
    ensures b.NotCrossed() ==> ReplayReduce(b, id, n).0.NotCrossed()
  {
    CancelKeeps(b, id);
    if n != 0 && b.Lookup(id).Some? && n < b.Lookup(id).value.quantity {
      hide Sane, Ids, Positive, Book.NotCrossed;
      var side, after := b.SideOf(id), ReplayReduce(b, id, n).0;
      OrderedSides(b);
      ReduceKeepsSane(side, b.On(side), id, n, b.minPrice, b.maxPrice);
      OrderedSides(after);
      if b.WellFormed() { ReduceKeepsPositive(b.On(side), id, n); }
      if b.NotCrossed() { NoNewPricesKeepUncrossed(b, after); }
    }
  }

  lemma ReplaceKeeps(b: Book, originalId: OrderId, newId: OrderId, newPrice: int, newQuantity: int)
    requires b.Ordered()
    ensures var after := ReplayReplace(b, originalId, newId, newPrice, newQuantity).0;
            && after.Ordered() && after.minPrice == b.minPrice && after.maxPrice == b.maxPrice
            && (b.WellFormed() && newQuantity >= 0 ==> after.WellFormed())
  {
    hide Book.Ordered, Positive, Book.NotCrossed, Cancel, ReplayAdd;
    CancelKeeps(b, originalId);
    if newQuantity != 0 && b.InBand(newPrice) && !b.Holds(newId) && b.Lookup(originalId).Some? {
      ReplayAddKeeps(ReplayDelete(b, originalId).0, newId, newPrice, newQuantity, b.SideOf(originalId));
    }
  }

  /** A replayed add does no matching: it keeps the book uncrossed exactly when it is refused or the opposite best
      price, if there is one, does not cross its own. */
  lemma ReplayAddCrossesExactlyWhen(b: Book, id: OrderId, price: int, quantity: int, side: Side)
    requires b.Ordered() && b.NotCrossed()
    ensures ReplayAdd(b, id, price, quantity, side).0.NotCrossed()
            <==> !ReplayAdd(b, id, price, quantity, side).1 || !Meets(b, side, price)
  {
    hide Book.Ordered, Book.NotCrossed, Meets, Insert;
    if ReplayAdd(b, id, price, quantity, side).1 {
      RestCrossesExactlyWhen(b, side, RestingView(price, id, quantity, GoodTillCancel));
    }
  }

  /** Nor does a replayed replacement, whose new order stands on the side of the original one. */
  lemma ReplayReplaceCrossesExactlyWhen(b: Book, originalId: OrderId, newId: OrderId, newPrice: int, newQuantity: int)
    requires b.Ordered() && b.NotCrossed()
    ensures var (after, applied) := ReplayReplace(b, originalId, newId, newPrice, newQuantity);
            after.NotCrossed() <==> !applied || !Meets(b, b.SideOf(originalId), newPrice)
  {
    hide Book.Ordered, Book.NotCrossed, Rest, Remove, Ids, Find;
    CancelKeeps(b, originalId);
    if ReplayReplace(b, originalId, newId, newPrice, newQuantity).1 {
      var gone, side := ReplayDelete(b, originalId).0, b.SideOf(originalId);
      ReplayAddCrossesExactlyWhen(gone, newId, newPrice, newQuantity, side);
    }
  }
}
