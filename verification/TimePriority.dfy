/** Time priority over whole runs of all requests: nobody who stays in the book, unamended, changes places
    with anybody. */
module TimePriority {
  import opened Types
  import opened PriceTime
  import opened Places
  import opened BookSpec
  import opened BookLemmas
  import opened Requests
  import opened ReplayRuns

  // ---------- ids stay unique ----------

  lemma MatchKeepsUnique(b: Book, side: Side, limit: Option<int>, quantity: int)
    requires b.UniqueIds()
    ensures var m := b.With(Opposite(side), Match(b, side, limit, quantity).left);
            m.UniqueIds() && forall x :: m.Holds(x) ==> b.Holds(x)
  {
    hide DistinctIds, Ids, SweepQueue, Ahead;
    SweepKeepsOrder(side, limit, quantity, b.On(Opposite(side)), 0, 0);
  }

  lemma SubmitLimitKeepsUnique(b: Book, r: LimitOrderRequest)
    requires b.UniqueIds()
    ensures SubmitLimit(b, r).0.UniqueIds()
    ensures forall x :: SubmitLimit(b, r).0.Holds(x) ==> b.Holds(x) || x == r.id
  {
    hide Book.UniqueIds, SweepQueue, Ids, Insert;
    if !b.Holds(r.id) {
      MatchKeepsUnique(b, r.side, Some(r.price), r.quantity);
      var s := Match(b, r.side, Some(r.price), r.quantity);
      var matched := b.With(Opposite(r.side), s.left);
      RestKeepsUnique(matched, r.side, RestingView(r.price, r.id, s.remaining, LifetimeOf(r.tif)));
    }
  }

  lemma ModifyKeepsUnique(b: Book, m: ModifyOrderRequest)
    requires b.UniqueIds()
    ensures Modify(b, m).0.UniqueIds()
    ensures forall x :: Modify(b, m).0.Holds(x) ==> b.Holds(x)
  {
    hide Book.UniqueIds, Cancel, SubmitLimit, Find, Ids;
    CancelKeepsUnique(b, m.id);
    LookupHeld(b, m.id);
    if b.Lookup(m.id).Some? {
      SubmitLimitKeepsUnique(Cancel(b, m.id).0, Resubmission(b, m, b.Lookup(m.id).value));
    }
  }

  lemma SessionEndKeepsUnique(b: Book)
    requires b.UniqueIds()
    ensures SessionEnd(b).0.UniqueIds()
  {
    hide DistinctIds, Ids, WithLifetime, AddLevels, LevelsOf;
    LifetimeKeepsDistinct(b.bids, GoodTillCancel);
    LifetimeKeepsDistinct(b.asks, GoodTillCancel);
    LifetimeIds(b.bids, GoodTillCancel);
    LifetimeIds(b.asks, GoodTillCancel);
  }

  lemma ApplyKeepsUnique(b: Book, r: Request)
    requires b.UniqueIds()
    ensures Apply(b, r).0.UniqueIds()
  {
    hide Book.UniqueIds, SubmitLimit, Modify, Cancel, SessionEnd, SweepQueue, Ids, Find;
    match r
    case Limit(l) => SubmitLimitKeepsUnique(b, l);
    case Market(m) => MatchKeepsUnique(b, m.side, None, m.quantity);
    case Withdraw(c) => CancelKeepsUnique(b, c.id);
    case Amend(m) => ModifyKeepsUnique(b, m);
    case EndSession => SessionEndKeepsUnique(b);
    case _ => ReplayKeepsUnique(b, r);
  }

  // ---------- places ----------

  /** Neither order changed sides, and where both still are they stand as before. */
  ghost predicate SamePlaces(before: Book, after: Book, x: OrderId, y: OrderId) {
    forall side ::
      && (x in Ids(after.On(side)) ==> x in Ids(before.On(side)))
      && (y in Ids(after.On(side)) ==> y in Ids(before.On(side)))
      && (x in Ids(after.On(side)) && y in Ids(after.On(side)) ==>
            (Ahead(after.On(side), x, y) <==> Ahead(before.On(side), x, y)))
  }

  lemma MatchKeepsPlaces(b: Book, side: Side, limit: Option<int>, quantity: int, x: OrderId, y: OrderId)
    requires b.UniqueIds()
    ensures SamePlaces(b, b.With(Opposite(side), Match(b, side, limit, quantity).left), x, y)
  {
    hide DistinctIds, Ids, SweepQueue, Ahead;
    SweepKeepsOrder(side, limit, quantity, b.On(Opposite(side)), x, y);
  }

  lemma RestKeepsPlaces(b: Book, side: Side, r: RestingView, x: OrderId, y: OrderId)
    requires x != r.id && y != r.id
    ensures SamePlaces(b, Rest(b, side, r), x, y)
  {
    hide Ids, Insert, Ahead;
    InsertKeepsOrder(side, b.On(side), r, x, y);
    InsertKeepsOrder(side, b.On(side), r, y, x);
  }

  lemma SubmitLimitKeepsPlaces(b: Book, l: LimitOrderRequest, x: OrderId, y: OrderId)
    requires b.UniqueIds() && x != l.id && y != l.id
    ensures SamePlaces(b, SubmitLimit(b, l).0, x, y)
  {
    hide SweepQueue, Insert, Ids, Ahead, Book.UniqueIds;
    MatchKeepsPlaces(b, l.side, Some(l.price), l.quantity, x, y);
    var s := Match(b, l.side, Some(l.price), l.quantity);
    var matched := b.With(Opposite(l.side), s.left);
    RestKeepsPlaces(matched, l.side, RestingView(l.price, l.id, s.remaining, LifetimeOf(l.tif)), x, y);
  }

  lemma CancelKeepsPlaces(b: Book, id: OrderId, x: OrderId, y: OrderId)
    requires x != id && y != id
    ensures SamePlaces(b, Cancel(b, id).0, x, y)
  {
    hide Ids, Remove, Ahead, Find;
    RemoveKeepsOrder(b.On(b.SideOf(id)), id, x, y);
    RemoveKeepsOrder(b.On(b.SideOf(id)), id, y, x);
  }

  lemma ModifyKeepsPlaces(b: Book, m: ModifyOrderRequest, x: OrderId, y: OrderId)
    requires b.UniqueIds() && x != m.id && y != m.id
    ensures SamePlaces(b, Modify(b, m).0, x, y)
  {
    hide Book.UniqueIds, Cancel, SubmitLimit, Find, Ids, Ahead;
    CancelKeepsPlaces(b, m.id, x, y);
    CancelKeepsUnique(b, m.id);
    if b.InBand(m.newPrice) && b.Lookup(m.id).Some? && m.newQuantity > 0 {
      SubmitLimitKeepsPlaces(Cancel(b, m.id).0, Resubmission(b, m, b.Lookup(m.id).value), x, y);
    }
  }

  lemma SessionEndKeepsPlaces(b: Book, x: OrderId, y: OrderId)
    requires b.UniqueIds()
    ensures SamePlaces(b, SessionEnd(b).0, x, y)
  {
    hide DistinctIds, Ids, WithLifetime, AddLevels, LevelsOf, Ahead;
    var after := SessionEnd(b).0;
    LifetimeIds(b.bids, GoodTillCancel);
    LifetimeIds(b.asks, GoodTillCancel);
    forall side: Side | x in Ids(after.On(side)) && y in Ids(after.On(side))
      ensures Ahead(after.On(side), x, y) <==> Ahead(b.On(side), x, y)
    {
      LifetimeKeepsOrder(b.On(side), GoodTillCancel, x, y);
    }
  }

  // ---------- requests and runs ----------

  predicate Amends(r: Request, id: OrderId) {
    r.Amend? && r.amendment.id == id
  }

  lemma PlacesSettled(before: Book, after: Book, side: Side, x: OrderId, y: OrderId)
    requires before.UniqueIds() && SamePlaces(before, after, x, y)
    requires after.Holds(x) && after.Holds(y)
    ensures Ahead(after.On(side), x, y) <==> Ahead(before.On(side), x, y)
  {
    hide Ids, Ahead, DistinctIds;
    AheadMembers(before.On(side), x, y);
    AheadMembers(after.On(side), x, y);
    assert after.On(Buy) == after.bids && after.On(Sell) == after.asks;
  }

  /** A request that amends neither of two orders leaves them, if they were there and still are, in their places. */
  lemma ApplyKeepsPlaces(b: Book, r: Request, side: Side, x: OrderId, y: OrderId)
    requires b.UniqueIds() && b.Holds(x) && b.Holds(y) && !Amends(r, x) && !Amends(r, y)
    requires Apply(b, r).0.Holds(x) && Apply(b, r).0.Holds(y)
    ensures Ahead(Apply(b, r).0.On(side), x, y) <==> Ahead(b.On(side), x, y)
  {
    hide Book.UniqueIds, Ahead, Ids, SamePlaces, SubmitLimit, Modify, Cancel, SessionEnd, SweepQueue, Find;
    var after := Apply(b, r).0;
    if IsReplay(r) {
      ReplayKeepsPlaces(b, r, side, x, y);
    } else {
      NonReplayKeepsPlaces(b, r, x, y);
      PlacesSettled(b, after, side, x, y);
    }
  }

  lemma NonReplayKeepsPlaces(b: Book, r: Request, x: OrderId, y: OrderId)
    requires b.UniqueIds() && b.Holds(x) && b.Holds(y) && !Amends(r, x) && !Amends(r, y) && !IsReplay(r)
    requires Apply(b, r).0.Holds(x) && Apply(b, r).0.Holds(y)
    ensures SamePlaces(b, Apply(b, r).0, x, y)
  {
    hide Book.UniqueIds, Ahead, Ids, Modify, Cancel, SessionEnd, SweepQueue, Find, SubmitResting, SubmitFillOrKill;
    match r
    case Limit(l) => if l.id != x && l.id != y { SubmitLimitKeepsPlaces(b, l, x, y); }
    case Market(m) => MatchKeepsPlaces(b, m.side, None, m.quantity, x, y);
    case Withdraw(c) =>
      CancelKeepsUnique(b, c.id);
      CancelKeepsPlaces(b, c.id, x, y);
    case Amend(m) => ModifyKeepsPlaces(b, m, x, y);
    case EndSession => SessionEndKeepsPlaces(b, x, y);
  }

  /** Time priority over whole runs: two orders that stay in the book and are never amended keep their places. */
  lemma {:induction false} RunKeepsPlaces(b: Book, rs: seq<Request>, side: Side, x: OrderId, y: OrderId)
    requires b.UniqueIds() && HeldThroughout(b, rs, x) && HeldThroughout(b, rs, y)
    requires forall i :: 0 <= i < |rs| ==> !Amends(rs[i], x) && !Amends(rs[i], y)
    ensures Ahead(Run(b, rs).On(side), x, y) <==> Ahead(b.On(side), x, y)
    decreases |rs|
  {
    hide Apply, Book.UniqueIds, Book.Holds, Ahead, Amends;
    if rs != [] {
      var after := Apply(b, rs[0]).0;
      assert after.Holds(x) && after.Holds(y);
      ApplyKeepsPlaces(b, rs[0], side, x, y);
      ApplyKeepsUnique(b, rs[0]);
      RunKeepsPlaces(after, rs[1..], side, x, y);
    }
  }
}
