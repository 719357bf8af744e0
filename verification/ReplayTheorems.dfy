/** Replayed changes as updates of a plain map from order ids to what is visible of the order. */
module ReplayTheorems {
  import opened Types
  import opened PriceTime
  import opened QueueLemmas
  import opened BookSpec
  import opened BookLemmas

  datatype Visible = Visible(side: Side, price: int, remaining: int, lifetime: RestingLifetime)

  function Shown(b: Book, id: OrderId): Visible {
    match b.Lookup(id)
    case None => Visible(b.SideOf(id), 0, 0, GoodTillCancel)
    case Some(r) => Visible(b.SideOf(id), r.price, r.quantity, r.lifetime)
  }

  /** The visible book without its queues: what each held order is. */
  function Snapshot(b: Book): map<OrderId, Visible> {
    map id | id in Ids(b.bids) + Ids(b.asks) :: Shown(b, id)
  }

  /** The snapshot is the orders of both queues, each under its id, with its side, price, quantity and lifetime. */
  lemma SnapshotIsTheOrders(b: Book)
    requires b.UniqueIds()
    ensures forall r :: r in b.bids ==>
              r.id in Snapshot(b) && Snapshot(b)[r.id] == Visible(Buy, r.price, r.quantity, r.lifetime)
    ensures forall r :: r in b.asks ==>
              r.id in Snapshot(b) && Snapshot(b)[r.id] == Visible(Sell, r.price, r.quantity, r.lifetime)
    ensures forall id :: id in Snapshot(b) ==> exists r :: (r in b.bids || r in b.asks) && r.id == id
  {
    hide DistinctIds, Find;
    forall r | r in b.bids ensures Shown(b, r.id) == Visible(Buy, r.price, r.quantity, r.lifetime) {
      FindDistinct(b.bids, r);
    }
    forall r | r in b.asks ensures Shown(b, r.id) == Visible(Sell, r.price, r.quantity, r.lifetime) {
      FindDistinct(b.asks, r);
    }
  }

  // ---------- one change at a time ----------

  lemma SnapshotIs(b: Book, m: map<OrderId, Visible>)
    requires forall id :: id in m <==> b.Holds(id)
    requires forall id :: id in m ==> Shown(b, id) == m[id]
    ensures Snapshot(b) == m
  {
  }

  lemma SnapshotHolds(b: Book)
    ensures forall id :: id in Snapshot(b) <==> b.Holds(id)
    ensures forall id :: id in Snapshot(b) ==> Snapshot(b)[id] == Shown(b, id)
  {
  }

  lemma RestShows(b: Book, side: Side, r: RestingView)
    requires b.UniqueIds() && !b.Holds(r.id)
    ensures Snapshot(Rest(b, side, r)) == Snapshot(b)[r.id := Visible(side, r.price, r.quantity, r.lifetime)]
  {
    hide Book.UniqueIds, Insert, Snapshot, Ids;
    SnapshotHolds(b);
    RestKeepsUnique(b, side, r);
    forall id: OrderId
      ensures Shown(Rest(b, side, r), id)
           == if id == r.id then Visible(side, r.price, r.quantity, r.lifetime) else Shown(b, id)
    {
      FindInsert(side, b.On(side), r, id);
    }
    SnapshotIs(Rest(b, side, r), Snapshot(b)[r.id := Visible(side, r.price, r.quantity, r.lifetime)]);
  }

  lemma ShownAfterCancel(b: Book, id: OrderId, x: OrderId)
    requires b.UniqueIds() && x != id && b.Holds(x)
    ensures Shown(Cancel(b, id).0, x) == Shown(b, x)
  {
    hide DistinctIds, Ids, Remove, Find;
    RemoveKeepsDistinct(b.On(b.SideOf(id)), id);
    FindRemove(b.On(b.SideOf(id)), id, x);
  }

  lemma CancelShows(b: Book, id: OrderId)
    requires b.UniqueIds()
    ensures Snapshot(Cancel(b, id).0) == Snapshot(b) - {id}
  {
    hide Book.UniqueIds, Cancel, Snapshot, Shown;
    SnapshotHolds(b);
    CancelKeepsUnique(b, id);
    forall x | b.Holds(x) && x != id ensures Shown(Cancel(b, id).0, x) == Shown(b, x) {
      ShownAfterCancel(b, id, x);
    }
    SnapshotIs(Cancel(b, id).0, Snapshot(b) - {id});
  }

  lemma ShownAfterReduce(b: Book, id: OrderId, n: int, x: OrderId)
    requires b.UniqueIds() && b.Lookup(id).Some? && n != 0 && n < b.Lookup(id).value.quantity
    ensures var was := Shown(b, x);
            Shown(ReplayReduce(b, id, n).0, x) == if x == id then was.(remaining := was.remaining - n) else was
    ensures ReplayReduce(b, id, n).0.Holds(x) <==> b.Holds(x)
  {
    hide Ids, Reduce, Find;
    var side := b.SideOf(id);
    LookupHeld(b, id);
    ReduceKeepsDistinct(b.On(side), id, n);
    FindReduce(b.On(side), id, n, x);
  }

  lemma ReduceShows(b: Book, id: OrderId, n: int)
    requires b.UniqueIds() && b.Lookup(id).Some? && n != 0 && n < b.Lookup(id).value.quantity
    ensures var was := Shown(b, id);
            Snapshot(ReplayReduce(b, id, n).0) == Snapshot(b)[id := was.(remaining := was.remaining - n)]
  {
    hide Book.UniqueIds, Snapshot, Shown, ReplayReduce;
    SnapshotHolds(b);
    LookupHeld(b, id);
    forall x: OrderId
      ensures Shown(ReplayReduce(b, id, n).0, x)
           == if x == id then Shown(b, x).(remaining := Shown(b, x).remaining - n) else Shown(b, x)
      ensures ReplayReduce(b, id, n).0.Holds(x) <==> b.Holds(x)
    {
      ShownAfterReduce(b, id, n, x);
    }
    SnapshotIs(ReplayReduce(b, id, n).0, Snapshot(b)[id := Shown(b, id).(remaining := Shown(b, id).remaining - n)]);
  }

  // ---------- the replay operations ----------

  lemma AddIsMapUpdate(b: Book, id: OrderId, price: int, quantity: int, side: Side)
    requires b.UniqueIds()
    ensures var (after, applied) := ReplayAdd(b, id, price, quantity, side);
            && (applied <==> quantity != 0 && id !in Snapshot(b) && b.minPrice <= price <= b.maxPrice)
            && (!applied ==> after == b)
            && (applied ==> Snapshot(after) == Snapshot(b)[id := Visible(side, price, quantity, GoodTillCancel)])
  {
    hide Book.UniqueIds, Rest, Snapshot, Ids;
    SnapshotHolds(b);
    if ReplayAdd(b, id, price, quantity, side).1 {
      RestShows(b, side, RestingView(price, id, quantity, GoodTillCancel));
    }
  }

  lemma DeleteIsMapRemoval(b: Book, id: OrderId)
    requires b.UniqueIds()
    ensures var (after, applied) := ReplayDelete(b, id);
            && (applied <==> id in Snapshot(b))
            && (!applied ==> after == b)
            && Snapshot(after) == Snapshot(b) - {id}
  {
    hide Book.UniqueIds, Cancel, Snapshot, Ids, Find;
    SnapshotHolds(b);
    LookupHeld(b, id);
    CancelShows(b, id);
    CancelReports(b, id);
  }

  /** A reduction takes exactly its quantity off an order that has it, and the order disappears exactly when
      nothing is left of it. */
  lemma ReduceIsMapUpdate(b: Book, id: OrderId, n: int)
    requires b.UniqueIds()
    ensures var (after, applied) := ReplayReduce(b, id, n);
            && (applied <==> n != 0 && id in Snapshot(b) && n <= Snapshot(b)[id].remaining)
            && (!applied ==> after == b)
            && (applied && n == Snapshot(b)[id].remaining ==> Snapshot(after) == Snapshot(b) - {id})
            && (applied && n < Snapshot(b)[id].remaining ==>
                  Snapshot(after) == Snapshot(b)[id := Snapshot(b)[id].(remaining := Snapshot(b)[id].remaining - n)])
  {
    hide Book.UniqueIds, Cancel, Snapshot, Ids, Find;
    SnapshotHolds(b);
    LookupHeld(b, id);
    CancelShows(b, id);
    if b.Lookup(id).Some? && n != 0 && n < b.Lookup(id).value.quantity { ReduceShows(b, id, n); }
  }

  /** Replacing is atomic: unless it is applied the book is unchanged; applied, exactly the original is gone and the new
      order rests on the same side. Once the guards pass, the inner add cannot fail. */
  lemma ReplaceIsAtomic(b: Book, originalId: OrderId, newId: OrderId, newPrice: int, newQuantity: int)
    requires b.UniqueIds()
    ensures var (after, applied) := ReplayReplace(b, originalId, newId, newPrice, newQuantity);
            && (applied
                <==> && newQuantity != 0 && b.minPrice <= newPrice <= b.maxPrice
                     && newId !in Snapshot(b) && originalId in Snapshot(b))
            && (!applied ==> after == b)
            && (applied ==>
                  var side := Snapshot(b)[originalId].side;
                  && Snapshot(after)
                       == (Snapshot(b) - {originalId})[newId := Visible(side, newPrice, newQuantity, GoodTillCancel)]
                  && after == Rest(Cancel(b, originalId).0, side,
                                   RestingView(newPrice, newId, newQuantity, GoodTillCancel)))
  {
    hide Book.UniqueIds, Cancel, Rest, Snapshot, Ids, Find;
    SnapshotHolds(b);
    LookupHeld(b, originalId);
    CancelKeepsUnique(b, originalId);
    CancelShows(b, originalId);
    if ReplayReplace(b, originalId, newId, newPrice, newQuantity).1 {
      var r := RestingView(newPrice, newId, newQuantity, GoodTillCancel);
      RestShows(Cancel(b, originalId).0, b.SideOf(originalId), r);
    }
  }
}
