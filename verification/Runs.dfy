/** The order book itself, driven through whole runs of requests. */
module Runs {
  import opened Types
  import opened MemoryPool
  import opened PriceTime
  import opened LadderView
  import opened LiquidityScan
  import opened BookSpec
  import opened Requests
  import opened RunSizes
  import opened OrderBook

  method Handle(ob: OrderBook, r: Request) returns (response: Response)
    requires ob.Valid() && Fits(ob.Abs(), r)
    modifies ob, ob.pool, ob.bids, ob.asks, ob.bids.levels, ob.asks.levels
    ensures ob.Valid()
    ensures (ob.Abs(), response) == Apply(old(ob.Abs()), r)
    ensures GrewOnDemand(ob.pool.initial, old(|ob.pool.slabs|), |ob.pool.slabs|, ob.pool.currentlyAllocated)
  {
    hide OrderBook.Valid, OrderBook.Abs, SubmitLimit, SubmitMarket, Cancel, Modify, SessionEnd, ReplayAdd;
    hide ReplayReduce, ReplayDelete, ReplayReplace;
    match r {
      case Limit(l) =>
        var s := ob.SubmitLimitOrder(l);
        response := Submitted(s);
      case Market(m) =>
        var s := ob.SubmitMarketOrder(m);
        response := Submitted(s);
      case Withdraw(c) =>
        var s := ob.CancelOrder(c);
        response := Withdrawn(s);
      case Amend(m) =>
        var s := ob.ModifyOrder(m);
        response := Amended(s);
      case EndSession =>
        var s := ob.OnSessionEnd();
        response := SessionEnded(s);
      case Add(id, price, quantity, side) =>
        var ok := ob.ReplayAddVisibleOrder(id, price, quantity, side);
        response := Replayed(ok);
      case Take(id, shares) =>
        var ok := ob.ReplayReduceVisibleOrder(id, shares);
        response := Replayed(ok);
      case Delete(id) =>
        var ok := ob.ReplayDeleteVisibleOrder(id);
        response := Replayed(ok);
      case Replace(originalId, newId, newPrice, newQuantity) =>
        var ok := ob.ReplayReplaceVisibleOrder(originalId, newId, newPrice, newQuantity);
        response := Replayed(ok);
    }
  }

  /** Over every run the concrete book does what the abstract book does, and stays valid. */
  method HandleAll(ob: OrderBook, rs: seq<Request>) returns (responses: seq<Response>)
    requires ob.Valid() && RunFits(ob.Abs(), rs)
    modifies ob, ob.pool, ob.bids, ob.asks, ob.bids.levels, ob.asks.levels
    ensures ob.Valid()
    ensures ob.Abs() == Run(old(ob.Abs()), rs) && responses == Responses(old(ob.Abs()), rs)
  {
    hide OrderBook.Valid, OrderBook.Abs, Apply, Fits;
    ghost var start := ob.Abs();
    responses := [];
    for i := 0 to |rs|
      invariant ob.Valid() && RunFits(ob.Abs(), rs[i..])
      invariant Run(start, rs) == Run(ob.Abs(), rs[i..])
      invariant Responses(start, rs) == responses + Responses(ob.Abs(), rs[i..])
    {
      ghost var b := ob.Abs();
      assert rs[i..][1..] == rs[i + 1..];
      var response := Handle(ob, rs[i]);
      assert responses + Responses(b, rs[i..]) == responses + [response] + Responses(ob.Abs(), rs[i + 1..]);
      responses := responses + [response];
    }
  }

  /** A book that starts empty and only matches, cancels, modifies and ends sessions shows a best bid below
      its best ask whenever it shows both. */
  method TradeFromEmpty(initialPoolSize: nat, minPrice: Price, maxPrice: Price, rs: seq<Request>)
    returns (bestBid: Option<int>, bestAsk: Option<int>)
    requires initialPoolSize >= 1 && minPrice <= maxPrice
    requires RunFits(EmptyBook(minPrice, maxPrice), rs)
    requires forall i :: 0 <= i < |rs| ==> Matches(rs[i])
    ensures var b := Run(EmptyBook(minPrice, maxPrice), rs); bestBid == Top(b.bids) && bestAsk == Top(b.asks)
    ensures bestBid.Some? && bestAsk.Some? ==> bestBid.value < bestAsk.value
  {
    hide OrderBook.Valid, Run, RunFits;
    var ob := new OrderBook(initialPoolSize, minPrice, maxPrice);
    var _ := HandleAll(ob, rs);
    NeverCrossed(minPrice, maxPrice, rs);
    ob.FrontOfBook(Buy);
    ob.FrontOfBook(Sell);
    bestBid, bestAsk := ob.bids.bestPrice, ob.asks.bestPrice;
  }

  /** The same with conditions on the requests alone: ordinary quantities, and fewer than 2^32 requests. */
  method TradeOrdinary(initialPoolSize: nat, minPrice: Price, maxPrice: Price, rs: seq<Request>)
    returns (bestBid: Option<int>, bestAsk: Option<int>)
    requires initialPoolSize >= 1 && minPrice <= maxPrice && |rs| <= UINT32_MAX
    requires forall i :: 0 <= i < |rs| ==> Ordinary(rs[i]) && Matches(rs[i])
    ensures var b := Run(EmptyBook(minPrice, maxPrice), rs); bestBid == Top(b.bids) && bestAsk == Top(b.asks)
    ensures bestBid.Some? && bestAsk.Some? ==> bestBid.value < bestAsk.value
  {
    hide Run, RunFits, Ordinary;
    EmptyIsWellFormed(minPrice, maxPrice);
    OrdinaryRunFits(EmptyBook(minPrice, maxPrice), rs);
    bestBid, bestAsk := TradeFromEmpty(initialPoolSize, minPrice, maxPrice, rs);
  }

  lemma EmptyIsWellFormed(minPrice: int, maxPrice: int)
    ensures EmptyBook(minPrice, maxPrice).WellFormed() && SmallBook(EmptyBook(minPrice, maxPrice))
    ensures Size(EmptyBook(minPrice, maxPrice)) == 0
  {
  }

  /** Ordinary requests on any sound book: the class follows the abstract book, which stays sound. */
  method HandleOrdinary(ob: OrderBook, rs: seq<Request>) returns (responses: seq<Response>)
    requires ob.Valid() && ob.Abs().WellFormed() && Size(ob.Abs()) + |rs| <= UINT32_MAX
    requires forall i :: 0 <= i < |rs| ==> Ordinary(rs[i])
    modifies ob, ob.pool, ob.bids, ob.asks, ob.bids.levels, ob.asks.levels
    ensures ob.Valid() && ob.Abs().WellFormed()
    ensures ob.Abs() == Run(old(ob.Abs()), rs) && responses == Responses(old(ob.Abs()), rs)
  {
    hide OrderBook.Valid, OrderBook.Abs, Run, RunFits, Responses, Ordinary, Sensible, Book.WellFormed, Size;
    forall i | 0 <= i < |rs| ensures Sensible(rs[i]) {
      OrdinaryIsSensible(rs[i]);
    }
    SmallWhenBounded(ob);
    OrdinaryRunFits(ob.Abs(), rs);
    RunsStayWellFormed(ob.Abs(), rs);
    responses := HandleAll(ob, rs);
  }

  lemma SmallWhenBounded(ob: OrderBook)
    requires ob.Valid()
    ensures SmallBook(ob.Abs())
  {
    hide OrderBook.Valid, OrderBook.Abs;
    ob.AbsIsBounded();
    BoundedIsSmall(ob.Abs().bids);
    BoundedIsSmall(ob.Abs().asks);
  }

  lemma BoundedIsSmall(q: Queue)
    requires Bounded(q)
    ensures Small(q)
  {
    forall r | r in q ensures r.quantity <= INT32_MAX {
      var i :| 0 <= i < |q| && q[i] == r;
    }
  }
}
