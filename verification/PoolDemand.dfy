/** The pool under the book: over a run of requests it grows to the smallest doubling of its first size that holds the
    most orders that ever rested at once, and no further. */
module PoolDemand {
  import opened Types
  import opened MemoryPool
  import opened PoolRuns
  import opened BookSpec
  import opened Requests
  import opened RunSizes
  import opened Runs
  import opened Registry
  import opened PriceLadder
  import opened Census
  import opened OrderBook

  /** The most orders resting before, between or after the requests. */
  function PeakOrders(b: Book, rs: seq<Request>): (p: nat)
    ensures p >= Size(b)
    decreases |rs|
  {
    if rs == [] then Size(b) else Max(Size(b), PeakOrders(Apply(b, rs[0]).0, rs[1..]))
  }

  lemma TightAfterRequest(initial: nat, slabs: nat, total: nat, peak: nat, slabs': nat, total': nat, allocated': nat)
    requires Tight(initial, slabs, total, peak) && initial >= 1
    requires GrewOnDemand(initial, slabs, slabs', allocated')
    requires total' == Capacity(initial, slabs' - 1) && allocated' <= total'
    ensures Tight(initial, slabs', total', Max(peak, allocated'))
  {
  }

  lemma PoolOf(ob: OrderBook)
    requires ob.Valid()
    ensures ob.pool.Valid()
  {
    hide MemoryPool.Valid, PriceLadder.Valid, Registered;
  }

  lemma PoolSize(pool: MemoryPool)
    requires pool.Valid()
    ensures pool.initial >= 1 && |pool.slabs| >= 1 && pool.totalElements == Capacity(pool.initial, |pool.slabs| - 1)
    ensures pool.currentlyAllocated <= pool.totalElements
  {
  }

  lemma PoolFacts(ob: OrderBook)
    requires ob.Valid()
    ensures ob.pool.initial >= 1 && |ob.pool.slabs| >= 1
    ensures ob.pool.totalElements == Capacity(ob.pool.initial, |ob.pool.slabs| - 1)
    ensures ob.pool.currentlyAllocated == Size(ob.Abs()) <= ob.pool.totalElements
  {
    hide OrderBook.Valid, OrderBook.Abs, LiveBlocks;
    CountsAgree(ob);
    PoolOf(ob);
    PoolSize(ob.pool);
  }

  /** One request keeps the pool tight. */
  method HandleWithinDemand(ob: OrderBook, r: Request, ghost peak: nat) returns (response: Response)
    requires ob.Valid() && Fits(ob.Abs(), r)
    requires Tight(ob.pool.initial, |ob.pool.slabs|, ob.pool.totalElements, peak)
    modifies ob, ob.pool, ob.bids, ob.asks, ob.bids.levels, ob.asks.levels
    ensures ob.Valid()
    ensures (ob.Abs(), response) == Apply(old(ob.Abs()), r)
    ensures Tight(ob.pool.initial, |ob.pool.slabs|, ob.pool.totalElements, Max(peak, Size(ob.Abs())))
  {
    hide OrderBook.Valid, OrderBook.Abs, Apply, Fits, Tight, Size, GrewOnDemand;
    ghost var slabs, total := |ob.pool.slabs|, ob.pool.totalElements;
    response := Handle(ob, r);
    PoolFacts(ob);
    TightAfterRequest(ob.pool.initial, slabs, total, peak,
                      |ob.pool.slabs|, ob.pool.totalElements, ob.pool.currentlyAllocated);
  }

  /** From an empty book, over any run: the class does what the abstract book does, and its pool is the smallest
      doubling of its first size that holds the peak number of resting orders. */
  method RunFromEmpty(initialPoolSize: nat, minPrice: Price, maxPrice: Price, rs: seq<Request>)
    returns (ob: OrderBook, responses: seq<Response>)
    requires initialPoolSize >= 1 && minPrice <= maxPrice && RunFits(EmptyBook(minPrice, maxPrice), rs)
    ensures ob.Valid()
    ensures ob.Abs() == Run(EmptyBook(minPrice, maxPrice), rs)
    ensures responses == Responses(EmptyBook(minPrice, maxPrice), rs)
    ensures var peak := PeakOrders(EmptyBook(minPrice, maxPrice), rs);
            Tight(initialPoolSize, |ob.pool.slabs|, ob.pool.totalElements, peak)
  {
    hide OrderBook.Valid, OrderBook.Abs, Apply, Fits, Tight, Size;
    ob := new OrderBook(initialPoolSize, minPrice, maxPrice);
    PoolFacts(ob);
    ghost var start, peak := ob.Abs(), 0;
    StartsTight(initialPoolSize);
    responses := [];
    for i := 0 to |rs|
      invariant ob.Valid() && RunFits(ob.Abs(), rs[i..])
      invariant fresh(ob) && fresh(ob.pool) && fresh(ob.bids) && fresh(ob.asks)
      invariant fresh(ob.bids.levels) && fresh(ob.asks.levels)
      invariant ob.pool.initial == initialPoolSize
      invariant Run(start, rs) == Run(ob.Abs(), rs[i..])
      invariant Responses(start, rs) == responses + Responses(ob.Abs(), rs[i..])
      invariant Tight(ob.pool.initial, |ob.pool.slabs|, ob.pool.totalElements, peak) && Size(ob.Abs()) <= peak
      invariant PeakOrders(start, rs) == Max(peak, PeakOrders(ob.Abs(), rs[i..]))
    {
      ghost var b := ob.Abs();
      assert rs[i..][0] == rs[i] && rs[i..][1..] == rs[i + 1..];
      var response := HandleWithinDemand(ob, rs[i], peak);
      peak := Max(peak, Size(ob.Abs()));
      assert responses + Responses(b, rs[i..]) == responses + [response] + Responses(ob.Abs(), rs[i + 1..]);
      responses := responses + [response];
    }
  }

  lemma StartsTight(initial: nat)
    ensures Tight(initial, 1, initial, 0)
  {
  }
}
