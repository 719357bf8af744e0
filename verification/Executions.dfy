/** What a submission reports and leaves behind, told order by order: whom it trades with, at which prices, for how many
    shares, and where what is left of it rests. */
module Executions {
  import opened Types
  import opened PriceTime
  import opened QueueLemmas
  import opened LadderView
  import opened LiquidityScan
  import opened Matching
  import opened SweepTheorems
  import opened BookSpec
  import opened BookLemmas
  import opened BookInvariants
  import opened FillOrKill
  import opened OrderKinds
  import opened SessionTheorems

  // ---------- who trades ----------

  /** Some order of the book has this id. */
  ghost predicate IdTaken(b: Book, id: OrderId) {
    exists r :: (r in b.bids || r in b.asks) && r.id == id
  }

  /** A price is no worse for the taker than its limit. */
  predicate WithinLimit(taker: Side, limit: Option<int>, price: int) {
    limit.Some? ==> if taker.Buy? then price <= limit.value else price >= limit.value
  }

  /** The executions take the first makers of the queue, each at its own price and within the limit: all but the last
      whole, the last whole or in part; the rest of the queue is untouched. */
  ghost predicate TakesInOrder(taker: Side, limit: Option<int>, q: Queue, e: seq<Execution>, left: Queue) {
    var n := |e|;
    && n <= |q|
    && (forall i :: 0 <= i < n ==> NamesMaker(taker, limit, q[i], e[i]))
    && (forall i :: 0 <= i < n - 1 ==> e[i].executed == q[i].quantity)
    && (n > 0 ==> e[n - 1].executed <= q[n - 1].quantity)
    && left == (if n == 0 || e[n - 1].executed == q[n - 1].quantity then q[n..]
                else [q[n - 1].(quantity := q[n - 1].quantity - e[n - 1].executed)] + q[n..])
  }

  predicate NamesMaker(taker: Side, limit: Option<int>, maker: RestingView, e: Execution) {
    e.makerId == maker.id && e.makerPrice == maker.price && WithinLimit(taker, limit, maker.price)
  }

  /** Nothing is wanted any more, or nobody stands there to trade with, or the next one is beyond the limit. */
  predicate StopsRightly(taker: Side, limit: Option<int>, remaining: int, q: Queue, n: nat) {
    remaining <= 0 || n >= |q| || !WithinLimit(taker, limit, q[n].price)
  }

  lemma TakesOneMore(taker: Side, limit: Option<int>, q: Queue, e: seq<Execution>, left: Queue)
    requires q != [] && WithinLimit(taker, limit, q[0].price) && TakesInOrder(taker, limit, q[1..], e, left)
    ensures TakesInOrder(taker, limit, q, [Execution(q[0].id, q[0].price, q[0].quantity)] + e, left)
  {
    var all, rest, n := [Execution(q[0].id, q[0].price, q[0].quantity)] + e, q[1..], |e|;
    assert rest[n..] == q[n + 1..];
    forall i | 0 <= i < |all|
      ensures NamesMaker(taker, limit, q[i], all[i]) && (i < |all| - 1 ==> all[i].executed == q[i].quantity)
    {
      if i > 0 { assert NamesMaker(taker, limit, rest[i - 1], e[i - 1]); }
    }
    if n > 0 { assert all[n] == e[n - 1] && q[n] == rest[n - 1]; }
  }

  /** A sweep, whatever the quantities, makers and taker: it takes the first makers in order, and stops rightly. */
  lemma {:induction false} SweepTakesInOrder(taker: Side, limit: Option<int>, want: int, q: Queue)
    ensures var s := SweepQueue(taker, limit, want, q);
            && TakesInOrder(taker, limit, q, s.fills, s.left)
            && StopsRightly(taker, limit, s.remaining, q, |s.fills|)
            && s.remaining == want - Executed(s.fills)
    decreases |q|
  {
    hide TakesInOrder;
    SweepConserves(taker, limit, want, q);
    if want <= 0 || q == [] || !Crosses(taker, limit, q[0].price) {
      TakesNobody(taker, limit, q);
    } else if q[0].quantity > want {
      TakesPart(taker, limit, want, q);
    } else {
      var t := SweepQueue(taker, limit, want - q[0].quantity, q[1..]);
      SweepTakesInOrder(taker, limit, want - q[0].quantity, q[1..]);
      TakesOneMore(taker, limit, q, t.fills, t.left);
    }
  }

  lemma TakesNobody(taker: Side, limit: Option<int>, q: Queue)
    ensures TakesInOrder(taker, limit, q, [], q)
  {
  }

  lemma TakesPart(taker: Side, limit: Option<int>, want: int, q: Queue)
    requires q != [] && WithinLimit(taker, limit, q[0].price) && q[0].quantity > want
    ensures TakesInOrder(taker, limit, q, [Execution(q[0].id, q[0].price, want)],
                         [q[0].(quantity := q[0].quantity - want)] + q[1..])
  {
  }

  // ---------- limit orders ----------

  /** A limit order is rejected exactly when its id is taken or its price is outside the band; it then changes nothing
      and trades nothing. */
  lemma RejectedExactlyWhen(b: Book, r: LimitOrderRequest)
    ensures var (after, result) := SubmitLimit(b, r);
            && (result.status.Rejected? <==> IdTaken(b, r.id) || r.price < b.minPrice || r.price > b.maxPrice)
            && (result.status.Rejected? ==>
                  after == b && result == SubmissionResult(r.quantity, 0, SubmitStatus.Rejected, []))
  {
    hide SweepQueue, LooksLiquid, Insert;
    TakenIsHeld(b, r.id);
  }

  lemma TakenIsHeld(b: Book, id: OrderId)
    ensures IdTaken(b, id) <==> b.Holds(id)
  {
    if b.Holds(id) {
      var r :| (r in b.bids || r in b.asks) && r.id == id;
    }
  }

  /** Whatever the quantities: an order that is neither rejected nor killed trades with the first orders of the other
      side, in order, each at its own price, and stops rightly; and what it reports as filled is what it executed. */
  lemma LimitTakesInOrder(b: Book, r: LimitOrderRequest)
    ensures var (after, result) := SubmitLimit(b, r);
            var makers, left := if r.side.Buy? then b.asks else b.bids, if r.side.Buy? then after.asks else after.bids;
            && (!result.status.Rejected? && !result.status.Killed? ==>
                  && TakesInOrder(r.side, Some(r.price), makers, result.executions, left)
                  && StopsRightly(r.side, Some(r.price), r.quantity - result.filled, makers, |result.executions|)
                  && result.filled == Executed(result.executions) && result.requested == r.quantity)
            && (result.status.Killed? <==> !result.status.Rejected? && r.tif.Fok? && !ScanPasses(b, r))
            && (result.status.Killed? ==>
                  after == b && result == SubmissionResult(r.quantity, 0, SubmitStatus.Killed, []))
  {
    hide SweepQueue, LooksLiquid, Insert, TakesInOrder, StopsRightly, Ids, Executed;
    SweepTakesInOrder(r.side, Some(r.price), r.quantity, b.On(Opposite(r.side)));
  }

  /** Where quantities are positive, the executions of an order that is neither rejected nor killed are the
      fair fill. */
  lemma LimitIsFair(b: Book, r: LimitOrderRequest)
    requires b.WellFormed() && r.quantity >= 0
    ensures var (after, result) := SubmitLimit(b, r);
            !result.status.Rejected? && !result.status.Killed? ==>
              FairFill(r.side, Some(r.price), r.quantity, b.On(Opposite(r.side)), result.executions,
                       after.On(Opposite(r.side)))
  {
    hide SweepQueue, LooksLiquid, Insert, FairFill, Ids, Sorted, InRange, Positive, DistinctIds;
    SweepIsFair(r.side, Some(r.price), r.quantity, b.On(Opposite(r.side)));
  }

  /** An IOC or FOK order leaves its own side alone. A GTC or DAY order that is filled does so too; otherwise its
      remainder rests there, at its price and with its lifetime, behind all orders at its own or a better price and in
      front of all orders at a worse one. */
  lemma RemainderRests(b: Book, r: LimitOrderRequest) returns (k: nat)
    requires b.Ordered() && !SubmitLimit(b, r).1.status.Rejected?
    ensures var (after, result) := SubmitLimit(b, r);
            var own, now := if r.side.Buy? then b.bids else b.asks, if r.side.Buy? then after.bids else after.asks;
            var rested := RestingView(r.price, r.id, r.quantity - result.filled,
                                      if r.tif.Day? then DayOnly else GoodTillCancel);
            && k <= |own|
            && now == (if (r.tif.Gtc? || r.tif.Day?) && result.filled != r.quantity
                       then own[..k] + [rested] + own[k..] else own)
            && (forall i :: 0 <= i < k ==>
                  if r.side.Buy? then own[i].price >= r.price else own[i].price <= r.price)
            && (forall i :: k <= i < |own| ==>
                  if r.side.Buy? then own[i].price < r.price else own[i].price > r.price)
            && after.minPrice == b.minPrice && after.maxPrice == b.maxPrice
  {
    hide SweepQueue, LooksLiquid, Ids, InRange, Book.UniqueIds, Executed;
    SweepConserves(r.side, Some(r.price), r.quantity, b.On(Opposite(r.side)));
    var own := b.On(r.side);
    var s := Match(b, r.side, Some(r.price), r.quantity);
    k := InsertIsLastAtItsPrice(r.side, own, RestingView(r.price, r.id, s.remaining, LifetimeOf(r.tif)));
  }

  /** What rests of a DAY order is gone after the session, what rests of a GTC order is still there. */
  lemma LifetimeDecidesTheSession(b: Book, r: LimitOrderRequest)
    requires b.Ordered() && (r.tif.Gtc? || r.tif.Day?)
    requires var result := SubmitLimit(b, r).1; !result.status.Rejected? && result.filled != r.quantity
    ensures var after := SessionEnd(SubmitLimit(b, r).0).0;
            var rested := RestingView(r.price, r.id, r.quantity - SubmitLimit(b, r).1.filled, GoodTillCancel);
            && (r.tif.Day? ==> !IdTaken(after, r.id))
            && (r.tif.Gtc? ==> rested in if r.side.Buy? then after.bids else after.asks)
  {
    hide SubmitLimit, SessionEnd, Sorted, InRange, DistinctIds, Ids;
    var (now, result) := SubmitLimit(b, r);
    var k := RemainderRests(b, r);
    SubmitLimitKeeps(b, r);
    SessionEndRemovesExactlyDay(now, Buy);
    SessionEndRemovesExactlyDay(now, Sell);
    var rested := RestingView(r.price, r.id, r.quantity - result.filled,
                              if r.tif.Day? then DayOnly else GoodTillCancel);
    assert rested == now.On(r.side)[k];
    forall x | (x in now.bids || x in now.asks) && x.id == r.id ensures x == rested {
      OneOrderPerId(now, r.side, rested, x);
    }
  }

  lemma OneOrderPerId(b: Book, side: Side, r: RestingView, x: RestingView)
    requires b.UniqueIds() && r in b.On(side) && (x in b.bids || x in b.asks) && x.id == r.id
    ensures x == r
  {
    hide DistinctIds, Ids;
    if x in b.On(side) {
      IdOf(b.On(side), r);
      FindDistinct(b.On(side), r);
      FindDistinct(b.On(side), x);
    } else {
      IdOf(b.On(side), r);
      IdOf(b.On(Opposite(side)), x);
    }
  }

  /** Orders that want nothing trade nothing. A negative GTC or DAY order rests. */
  lemma WithoutQuantity(b: Book, r: LimitOrderRequest)
    requires r.quantity <= 0
    ensures var s := SubmitLimit(b, r).1;
            && s.executions == [] && s.filled == 0
            && (!s.status.Rejected? ==>
                  match r.tif
                  case Gtc => s.status == if r.quantity == 0 then SubmitStatus.Filled else SubmitStatus.Resting
                  case Day => s.status == if r.quantity == 0 then SubmitStatus.Filled else SubmitStatus.Resting
                  case Ioc => s.status == if r.quantity == 0 then SubmitStatus.Filled else SubmitStatus.Canceled
                  case Fok => s.status == SubmitStatus.Filled || s.status == SubmitStatus.Killed)
  {
    hide LooksLiquid, Insert;
  }

  // ---------- market orders ----------

  /** A market order is rejected exactly when its id is taken, and then changes nothing. Otherwise it trades with the
      first orders of the other side, at any price, until it is filled or nobody is left; nothing of it rests. */
  lemma MarketTakesInOrder(b: Book, m: MarketOrderRequest)
    ensures var (after, result) := SubmitMarket(b, m);
            var makers, left := if m.side.Buy? then b.asks else b.bids, if m.side.Buy? then after.asks else after.bids;
            && (result.status.Rejected? <==> IdTaken(b, m.id))
            && (result.status.Rejected? ==>
                  after == b && result == SubmissionResult(m.quantity, 0, SubmitStatus.Rejected, []))
            && (!result.status.Rejected? ==>
                  && TakesInOrder(m.side, None, makers, result.executions, left)
                  && (m.quantity <= result.filled || |result.executions| == |makers|)
                  && result.filled == Executed(result.executions) && result.requested == m.quantity)
            && (if m.side.Buy? then after.bids == b.bids else after.asks == b.asks)
            && after.minPrice == b.minPrice && after.maxPrice == b.maxPrice
  {
    hide SweepQueue, TakesInOrder, Executed;
    TakenIsHeld(b, m.id);
    SweepTakesInOrder(m.side, None, m.quantity, b.On(Opposite(m.side)));
    SweepIsShort(m.side, None, b.On(Opposite(m.side)), Match(b, m.side, None, m.quantity));
  }

  lemma SweepIsShort(taker: Side, limit: Option<int>, q: Queue, s: Sweep)
    requires TakesInOrder(taker, limit, q, s.fills, s.left)
    ensures |s.fills| <= |q|
  {
  }

  lemma MarketIsFair(b: Book, m: MarketOrderRequest)
    requires b.WellFormed() && m.quantity >= 0 && !SubmitMarket(b, m).1.status.Rejected?
    ensures var (after, result) := SubmitMarket(b, m);
            FairFill(m.side, None, m.quantity, b.On(Opposite(m.side)), result.executions, after.On(Opposite(m.side)))
  {
    hide SweepQueue, FairFill, Ids, Sorted, InRange, Positive, DistinctIds;
    SweepIsFair(m.side, None, m.quantity, b.On(Opposite(m.side)));
  }

  lemma MarketWithoutQuantity(b: Book, m: MarketOrderRequest)
    requires m.quantity <= 0 && !SubmitMarket(b, m).1.status.Rejected?
    ensures var (after, s) := SubmitMarket(b, m);
            && after == b && s.executions == []
            && s.status == if m.quantity == 0 then SubmitStatus.Filled else SubmitStatus.Canceled
  {
  }

  // ---------- cancellations ----------

  /** Exactly the order with this id leaves, the others keep their places, and its open quantity is reported; an unknown
      id changes nothing. */
  lemma CancelRemovesExactly(b: Book, id: OrderId)
    requires b.UniqueIds()
    ensures var (after, result) := Cancel(b, id);
            && (result.status == CancelStatus.NotFound <==> !IdTaken(b, id))
            && (!IdTaken(b, id) ==> after == b && result.quantityCancelled == 0)
            && (forall r :: r in b.bids && r.id == id ==>
                  WithoutOne(b.bids, after.bids, r) && after.asks == b.asks && result.quantityCancelled == r.quantity)
            && (forall r :: r in b.asks && r.id == id ==>
                  WithoutOne(b.asks, after.asks, r) && after.bids == b.bids && result.quantityCancelled == r.quantity)
            && after.minPrice == b.minPrice && after.maxPrice == b.maxPrice
  {
    hide Remove, Find, DistinctIds, Ids;
    TakenIsHeld(b, id);
    LookupHeld(b, id);
    forall r | r in b.bids && r.id == id
      ensures b.SideOf(id) == Buy && b.Lookup(id) == Some(r) && WithoutOne(b.bids, Remove(b.bids, id), r)
    {
      IdOf(b.bids, r);
      FindDistinct(b.bids, r);
      RemoveOne(b.bids, r);
    }
    forall r | r in b.asks && r.id == id
      ensures b.SideOf(id) == Sell && b.Lookup(id) == Some(r) && WithoutOne(b.asks, Remove(b.asks, id), r)
    {
      IdOf(b.asks, r);
      FindDistinct(b.asks, r);
      RemoveOne(b.asks, r);
    }
  }

  /** The queue without this one order. */
  ghost predicate WithoutOne(before: Queue, after: Queue, r: RestingView) {
    exists k :: 0 <= k < |before| && before[k] == r && after == before[..k] + before[k + 1..]
  }

  lemma IdOf(q: Queue, r: RestingView)
    requires r in q
    ensures r.id in Ids(q)
  {
  }

  lemma RemoveOne(q: Queue, r: RestingView)
    requires DistinctIds(q) && r in q
    ensures WithoutOne(q, Remove(q, r.id), r)
  {
    hide Remove, DistinctIds;
    var k :| 0 <= k < |q| && q[k] == r;
    assert q == q[..k] + [r] + q[k + 1..];
    RemoveBetween(q[..k], r, q[k + 1..]);
  }
}
