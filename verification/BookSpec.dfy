/** The abstract book: two price-time queues and the effect of every request on them. */
module BookSpec {
  import opened Types
  import opened PriceTime
  import opened LiquidityScan

  datatype Book = Book(minPrice: int, maxPrice: int, bids: Queue, asks: Queue) {
    function On(side: Side): Queue {
      if side.Buy? then bids else asks
    }

    function With(side: Side, q: Queue): Book {
      if side.Buy? then this.(bids := q) else this.(asks := q)
    }

    predicate Holds(id: OrderId) {
      id in Ids(bids) || id in Ids(asks)
    }

    /** The side an order rests on, when the book holds it. */
    function SideOf(id: OrderId): Side {
      if id in Ids(bids) then Buy else Sell
    }

    function Lookup(id: OrderId): Option<RestingView> {
      Find(On(SideOf(id)), id)
    }

    predicate InBand(price: int) {
      minPrice <= price <= maxPrice
    }

    /** Every id names one order. */
    ghost predicate UniqueIds() {
      DistinctIds(bids) && DistinctIds(asks) && Ids(bids) !! Ids(asks)
    }

    /** What holds of every book, whatever quantities rest in it: price-time order, unique ids, prices in the band. */
    ghost predicate Ordered() {
      && Sorted(Buy, bids) && Sorted(Sell, asks)
      && UniqueIds()
      && InRange(bids, minPrice, maxPrice) && InRange(asks, minPrice, maxPrice)
    }

    /** What requests with sensible quantities keep: besides, every resting quantity is positive. */
    ghost predicate WellFormed() {
      Ordered() && Positive(bids) && Positive(asks)
    }

    /** No bid meets an ask. */
    ghost predicate NotCrossed() {
      forall b, a :: b in bids && a in asks ==> b.price < a.price
    }
  }

  // ---------- submissions ----------

  function Rejection(quantity: int): SubmissionResult {
    SubmissionResult(quantity, 0, SubmitStatus.Rejected, [])
  }

  function Match(b: Book, side: Side, limit: Option<int>, quantity: int): Sweep {
    SweepQueue(side, limit, quantity, b.On(Opposite(side)))
  }

  /** The status of an order whose remainder is dropped. */
  function DroppedStatus(remaining: int, quantity: int): SubmitStatus {
    if remaining == 0 then SubmitStatus.Filled
    else if remaining < quantity then SubmitStatus.PartiallyFilledCanceled
    else SubmitStatus.Canceled
  }

  /** Trades what crosses and drops the rest: immediate-or-cancel, and market orders, which have no limit. */
  function SubmitAndDrop(b: Book, side: Side, limit: Option<int>, quantity: int): (Book, SubmissionResult) {
    var s := Match(b, side, limit, quantity);
    (b.With(Opposite(side), s.left),
     SubmissionResult(quantity, Executed(s.fills), DroppedStatus(s.remaining, quantity), s.fills))
  }

  /** All or nothing, provided that the scan and the sweep agree; behind the sweep it is asserted that
      nothing remains. */
  function SubmitFillOrKill(b: Book, r: LimitOrderRequest): (Book, SubmissionResult) {
    if !LooksLiquid(r.side, Some(r.price), b.On(Opposite(r.side)), r.quantity) then
      (b, SubmissionResult(r.quantity, 0, SubmitStatus.Killed, []))
    else
      var s := Match(b, r.side, Some(r.price), r.quantity);
      (b.With(Opposite(r.side), s.left),
       SubmissionResult(r.quantity, Executed(s.fills), SubmitStatus.Filled, s.fills))
  }

  function LifetimeOf(tif: TimeInForce): RestingLifetime {
    if tif.Gtc? then GoodTillCancel else DayOnly
  }

  function Rest(b: Book, side: Side, r: RestingView): Book {
    b.With(side, Insert(side, b.On(side), r))
  }

  function SubmitResting(b: Book, r: LimitOrderRequest): (Book, SubmissionResult) {
    var s := Match(b, r.side, Some(r.price), r.quantity);
    var matched := b.With(Opposite(r.side), s.left);
    if s.remaining == 0 then
      (matched, SubmissionResult(r.quantity, Executed(s.fills), SubmitStatus.Filled, s.fills))
    else
      (Rest(matched, r.side, RestingView(r.price, r.id, s.remaining, LifetimeOf(r.tif))),
       SubmissionResult(r.quantity, Executed(s.fills),
                        if s.remaining < r.quantity then SubmitStatus.PartiallyFilledResting else SubmitStatus.Resting,
                        s.fills))
  }

  function SubmitLimit(b: Book, r: LimitOrderRequest): (Book, SubmissionResult) {
    if b.Holds(r.id) || !b.InBand(r.price) then (b, Rejection(r.quantity))
    else
      match r.tif
      case Gtc => SubmitResting(b, r)
      case Day => SubmitResting(b, r)
      case Ioc => SubmitAndDrop(b, r.side, Some(r.price), r.quantity)
      case Fok => SubmitFillOrKill(b, r)
  }

  /** A level's order count has 32 bits. */
  predicate Room(b: Book, side: Side, price: int) {
    |AtPrice(b.On(side), price)| < UINT32_MAX
  }

  /** A sweep whose remaining quantity stays a signed 32-bit one. Only a maker with a negative quantity, which makes
      what remains grow, could lead out of that range. */
  predicate MatchFits(taker: Side, limit: Option<int>, want: int, q: Queue)
    decreases |q|
  {
    want <= 0 || q == [] || !Crosses(taker, limit, q[0].price) || q[0].quantity > want
    || (want - q[0].quantity <= INT32_MAX && MatchFits(taker, limit, want - q[0].quantity, q[1..]))
  }

  /** What the engine relies on in a limit order that is not rejected: no signed overflow while matching, and room at
      the level where a remainder rests. */
  ghost predicate Admissible(b: Book, r: LimitOrderRequest) {
    b.Holds(r.id) || !b.InBand(r.price)
    || match r.tif
       case Ioc => MatchFits(r.side, Some(r.price), r.quantity, b.On(Opposite(r.side)))
       case Fok =>
         LooksLiquid(r.side, Some(r.price), b.On(Opposite(r.side)), r.quantity)
         ==> MatchFits(r.side, Some(r.price), r.quantity, b.On(Opposite(r.side)))
       case _ =>
         && MatchFits(r.side, Some(r.price), r.quantity, b.On(Opposite(r.side)))
         && (Match(b, r.side, Some(r.price), r.quantity).remaining == 0 || Room(b, r.side, r.price))
  }

  function SubmitMarket(b: Book, r: MarketOrderRequest): (Book, SubmissionResult) {
    if b.Holds(r.id) then (b, Rejection(r.quantity))
    else SubmitAndDrop(b, r.side, None, r.quantity)
  }

  predicate MarketFits(b: Book, r: MarketOrderRequest) {
    b.Holds(r.id) || MatchFits(r.side, None, r.quantity, b.On(Opposite(r.side)))
  }

  // ---------- cancel, modify, session end ----------

  function Cancel(b: Book, id: OrderId): (Book, CancelResult) {
    match b.Lookup(id)
    case None => (b, CancelResult(0, CancelStatus.NotFound))
    case Some(r) =>
      var side := b.SideOf(id);
      (b.With(side, Remove(b.On(side), id)), CancelResult(r.quantity, CancelStatus.Canceled))
  }

  function TifOf(lifetime: RestingLifetime): TimeInForce {
    if lifetime.GoodTillCancel? then Gtc else Day
  }

  /** The submission that follows the cancellation of a modified order: its side and lifetime are those of before. */
  function Resubmission(b: Book, r: ModifyOrderRequest, was: RestingView): LimitOrderRequest {
    LimitOrderRequest(r.id, r.newPrice, r.newQuantity, b.SideOf(r.id), TifOf(was.lifetime))
  }

  function Modify(b: Book, r: ModifyOrderRequest): (Book, ModificationResult) {
    if !b.InBand(r.newPrice) then (b, ModificationResult(0, ModificationStatus.Rejected, None))
    else
      match b.Lookup(r.id)
      case None => (b, ModificationResult(0, ModificationStatus.NotFound, None))
      case Some(was) =>
        var gone := Cancel(b, r.id).0;
        if r.newQuantity > 0 then
          var (after, result) := SubmitLimit(gone, Resubmission(b, r, was));
          (after, ModificationResult(was.quantity, ModificationStatus.Resubmitted, Some(result)))
        else
          (gone, ModificationResult(was.quantity, ModificationStatus.Canceled, None))
  }

  /** The resubmission of a modified order is admissible. */
  ghost predicate ModifyFits(b: Book, r: ModifyOrderRequest) {
    b.InBand(r.newPrice) && b.Lookup(r.id).Some? && r.newQuantity > 0
    ==> Admissible(Cancel(b, r.id).0, Resubmission(b, r, b.Lookup(r.id).value))
  }

  /** The queue cut into the levels of the price band. */
  function LevelsOf(q: Queue, minPrice: int, maxPrice: int): seq<Queue> {
    if maxPrice < minPrice then []
    else seq(maxPrice - minPrice + 1, i => AtPrice(q, minPrice + i))
  }

  /** Adds one level's expired orders to the session totals. A level's shares are counted in a signed 32-bit total
      before they reach the unsigned 64-bit one; emptied levels are counted in 32 unsigned bits. */
  function AddLevel(t: PruneResult, level: Queue): PruneResult {
    if level == [] then t
    else
      var day := WithLifetime(level, DayOnly);
      PruneResult(WrapU64(t.sharesErased + WrapI32(Shares(day))), t.ordersPruned + |day|,
                  if WithLifetime(level, GoodTillCancel) == [] then NextU32(t.levelsErased) else t.levelsErased)
  }

  function AddLevels(t: PruneResult, levels: seq<Queue>): PruneResult
    decreases |levels|
  {
    if levels == [] then t
    else AddLevel(AddLevels(t, levels[..|levels| - 1]), levels[|levels| - 1])
  }

  function SessionEnd(b: Book): (Book, PruneResult) {
    (Book(b.minPrice, b.maxPrice, WithLifetime(b.bids, GoodTillCancel), WithLifetime(b.asks, GoodTillCancel)),
     AddLevels(AddLevels(PruneResult(0, 0, 0), LevelsOf(b.bids, b.minPrice, b.maxPrice)),
               LevelsOf(b.asks, b.minPrice, b.maxPrice)))
  }

  // ---------- replayed changes to the visible book ----------

  function ReplayAdd(b: Book, id: OrderId, price: int, quantity: int, side: Side): (Book, bool) {
    if quantity == 0 || b.Holds(id) || !b.InBand(price) then (b, false)
    else (Rest(b, side, RestingView(price, id, quantity, GoodTillCancel)), true)
  }

  /** A replayed order that is accepted finds room at its level. */
  predicate AddFits(b: Book, id: OrderId, price: int, quantity: int, side: Side) {
    quantity == 0 || b.Holds(id) || !b.InBand(price) || Room(b, side, price)
  }

  function ReplayDelete(b: Book, id: OrderId): (Book, bool) {
    (Cancel(b, id).0, b.Lookup(id).Some?)
  }

  function ReplayReduce(b: Book, id: OrderId, n: int): (Book, bool) {
    if n == 0 then (b, false)
    else
      match b.Lookup(id)
      case None => (b, false)
      case Some(r) =>
        if n > r.quantity then (b, false)
        else if n == r.quantity then ReplayDelete(b, id)
        else
          var side := b.SideOf(id);
          (b.With(side, Reduce(b.On(side), id, n)), true)
  }

  /** A reduction takes effect without signed overflow; only a negative one, which enlarges its order,
      could overflow. */
  predicate TakeFits(b: Book, id: OrderId, n: int) {
    n >= 0 || b.Lookup(id).None? || b.Lookup(id).value.quantity - n <= INT32_MAX
  }

  function ReplayReplace(b: Book, originalId: OrderId, newId: OrderId, newPrice: int, newQuantity: int): (Book, bool) {
    if newQuantity == 0 || !b.InBand(newPrice) || b.Holds(newId) || b.Lookup(originalId).None? then (b, false)
    else ReplayAdd(ReplayDelete(b, originalId).0, newId, newPrice, newQuantity, b.SideOf(originalId))
  }

  predicate ReplaceFits(b: Book, originalId: OrderId, newId: OrderId, newPrice: int, newQuantity: int) {
    newQuantity == 0 || !b.InBand(newPrice) || b.Holds(newId) || b.Lookup(originalId).None?
    || AddFits(ReplayDelete(b, originalId).0, newId, newPrice, newQuantity, b.SideOf(originalId))
  }
}
