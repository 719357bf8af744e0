/** Requests as data, runs of requests, and what holds after every run. */
module Requests {
  import opened Types
  import opened PriceTime
  import opened BookSpec
  import opened BookLemmas
  import opened BookInvariants

  datatype Request =
    | Limit(limit: LimitOrderRequest)
    | Market(market: MarketOrderRequest)
    | Withdraw(cancel: CancelOrderRequest)
    | Amend(amendment: ModifyOrderRequest)
    | EndSession
    | Add(id: OrderId, price: int, quantity: Quantity, side: Side)
    | Take(takeId: OrderId, shares: Quantity)
    | Delete(deleteId: OrderId)
    | Replace(originalId: OrderId, newId: OrderId, newPrice: int, newQuantity: Quantity)

  datatype Response =
    | Submitted(submission: SubmissionResult)
    | Withdrawn(cancellation: CancelResult)
    | Amended(modification: ModificationResult)
    | SessionEnded(pruned: PruneResult)
    | Replayed(applied: bool)

  /** The requests that match before they rest. Replayed adds and replacements only rest; so does a GTC or DAY order
      with a negative quantity, which trades nothing. */
  predicate Matches(r: Request) {
    match r
    case Limit(l) => l.tif.Gtc? || l.tif.Day? ==> l.quantity >= 0
    case Add(_, _, _, _) => false
    case Replace(_, _, _, _) => false
    case _ => true
  }

  /** What the engine relies on in a request: no signed overflow, and room at its level. */
  ghost predicate Fits(b: Book, r: Request) {
    match r
    case Limit(l) => Admissible(b, l)
    case Market(m) => MarketFits(b, m)
    case Withdraw(_) => true
    case Amend(m) => ModifyFits(b, m)
    case EndSession => true
    case Add(id, price, quantity, side) => AddFits(b, id, price, quantity, side)
    case Take(id, shares) => TakeFits(b, id, shares)
    case Delete(_) => true
    case Replace(originalId, newId, newPrice, newQuantity) => ReplaceFits(b, originalId, newId, newPrice, newQuantity)
  }

  /** A request whose quantity may rest: a property of the request alone. */
  predicate Sensible(r: Request) {
    match r
    case Limit(l) => l.tif.Gtc? || l.tif.Day? ==> l.quantity >= 0
    case Add(_, _, quantity, _) => quantity >= 0
    case Replace(_, _, _, newQuantity) => newQuantity >= 0
    case _ => true
  }

  function Apply(b: Book, r: Request): (Book, Response) {
    match r
    case Limit(l) => var (after, s) := SubmitLimit(b, l); (after, Submitted(s))
    case Market(m) => var (after, s) := SubmitMarket(b, m); (after, Submitted(s))
    case Withdraw(c) => var (after, s) := Cancel(b, c.id); (after, Withdrawn(s))
    case Amend(m) => var (after, s) := Modify(b, m); (after, Amended(s))
    case EndSession => var (after, s) := SessionEnd(b); (after, SessionEnded(s))
    case Add(id, price, quantity, side) =>
      var (after, ok) := ReplayAdd(b, id, price, quantity, side); (after, Replayed(ok))
    case Take(id, shares) => var (after, ok) := ReplayReduce(b, id, shares); (after, Replayed(ok))
    case Delete(id) => var (after, ok) := ReplayDelete(b, id); (after, Replayed(ok))
    case Replace(originalId, newId, newPrice, newQuantity) =>
      var (after, ok) := ReplayReplace(b, originalId, newId, newPrice, newQuantity); (after, Replayed(ok))
  }

  /** The book after a run of requests. */
  function Run(b: Book, rs: seq<Request>): Book
    decreases |rs|
  {
    if rs == [] then b else Run(Apply(b, rs[0]).0, rs[1..])
  }

  function Responses(b: Book, rs: seq<Request>): seq<Response>
    decreases |rs|
  {
    if rs == [] then [] else [Apply(b, rs[0]).1] + Responses(Apply(b, rs[0]).0, rs[1..])
  }

  ghost predicate RunFits(b: Book, rs: seq<Request>)
    decreases |rs|
  {
    rs == [] || (Fits(b, rs[0]) && RunFits(Apply(b, rs[0]).0, rs[1..]))
  }

  function EmptyBook(minPrice: int, maxPrice: int): Book {
    Book(minPrice, maxPrice, [], [])
  }

  /** Whatever the request, the book stays in price-time order, with unique ids and prices in the band; and its
      quantities stay positive when the request is sensible. */
  lemma ApplyKeeps(b: Book, r: Request)
    requires b.Ordered()
    ensures Apply(b, r).0.Ordered()
    ensures b.WellFormed() && Sensible(r) ==> Apply(b, r).0.WellFormed()
    ensures Apply(b, r).0.minPrice == b.minPrice && Apply(b, r).0.maxPrice == b.maxPrice
  {
    hide Book.Ordered, Positive, Book.NotCrossed, SubmitLimit, Modify, Cancel, ReplayAdd, ReplayReplace, SweepQueue;
    match r
    case Limit(l) => SubmitLimitKeeps(b, l);
    case Market(m) => SubmitMarketKeeps(b, m);
    case Withdraw(c) => CancelKeeps(b, c.id);
    case Amend(m) => ModifyKeeps(b, m);
    case EndSession => SessionEndKeeps(b);
    case Add(id, price, quantity, side) => ReplayAddKeeps(b, id, price, quantity, side);
    case Take(id, shares) => ReduceKeeps(b, id, shares);
    case Delete(id) => CancelKeeps(b, id);
    case Replace(originalId, newId, newPrice, newQuantity) =>
      ReplaceKeeps(b, originalId, newId, newPrice, newQuantity);
  }

  /** The request rests an order without matching it, is not refused, and meets the opposite best price. */
  predicate RestsAcross(b: Book, r: Request) {
    match r
    case Limit(l) => !Matches(r) && !b.Holds(l.id) && b.InBand(l.price) && Meets(b, l.side, l.price)
    case Add(id, price, quantity, side) =>
      quantity != 0 && !b.Holds(id) && b.InBand(price) && Meets(b, side, price)
    case Replace(originalId, newId, newPrice, newQuantity) =>
      && newQuantity != 0 && b.InBand(newPrice) && !b.Holds(newId) && b.Holds(originalId)
      && Meets(b, b.SideOf(originalId), newPrice)
    case _ => false
  }

  /** A request crosses the book exactly when it rests across it, whatever quantities the book holds. */
  lemma ApplyCrossesExactlyWhen(b: Book, r: Request)
    requires b.Ordered() && b.NotCrossed()
    ensures Apply(b, r).0.NotCrossed() <==> !RestsAcross(b, r)
  {
    hide Book.Ordered, Book.NotCrossed, Positive, SubmitLimit, Modify, Cancel, Rest, SweepQueue, Meets, Ids, Find;
    match r
    case Limit(l) => SubmitLimitCrossesExactlyWhen(b, l);
    case Market(m) => SubmitMarketKeeps(b, m);
    case Withdraw(c) => CancelKeeps(b, c.id);
    case Amend(m) => ModifyKeeps(b, m);
    case EndSession => SessionEndKeeps(b);
    case Add(id, price, quantity, side) => ReplayAddCrossesExactlyWhen(b, id, price, quantity, side);
    case Take(id, shares) => ReduceKeeps(b, id, shares);
    case Delete(id) => CancelKeeps(b, id);
    case Replace(originalId, newId, newPrice, newQuantity) =>
      LookupHeld(b, originalId);
      CancelKeeps(b, originalId);
      ReplayReplaceCrossesExactlyWhen(b, originalId, newId, newPrice, newQuantity);
  }

  /** After any run of any requests, the book is in price-time order, with unique ids and prices in the band. */
  lemma {:induction false} RunsStayOrdered(b: Book, rs: seq<Request>)
    requires b.Ordered()
    ensures Run(b, rs).Ordered()
    decreases |rs|
  {
    hide Apply, Book.Ordered;
    if rs != [] {
      ApplyKeeps(b, rs[0]);
      RunsStayOrdered(Apply(b, rs[0]).0, rs[1..]);
    }
  }

  /** After a run of sensible requests, quantities are positive besides. */
  lemma {:induction false} RunsStayWellFormed(b: Book, rs: seq<Request>)
    requires b.WellFormed() && forall i :: 0 <= i < |rs| ==> Sensible(rs[i])
    ensures Run(b, rs).WellFormed()
    decreases |rs|
  {
    hide Apply, Sensible, Book.Ordered, Positive;
    if rs != [] {
      ApplyKeeps(b, rs[0]);
      RunsStayWellFormed(Apply(b, rs[0]).0, rs[1..]);
    }
  }

  /** The book before each request of a run. */
  function Before(b: Book, rs: seq<Request>, i: nat): Book
    requires i <= |rs|
  {
    Run(b, rs[..i])
  }

  /** A run never crosses the book exactly when none of its requests, at its time, rests across it. */
  lemma {:induction false} RunCrossesExactlyWhen(b: Book, rs: seq<Request>)
    requires b.Ordered() && b.NotCrossed()
    ensures (forall i :: 0 <= i <= |rs| ==> Before(b, rs, i).NotCrossed())
            <==> forall i :: 0 <= i < |rs| ==> !RestsAcross(Before(b, rs, i), rs[i])
    decreases |rs|
  {
    hide Apply, RestsAcross, Book.Ordered, Book.NotCrossed;
    if rs == [] {
      assert rs[..0] == [];
    } else {
      var next := Apply(b, rs[0]).0;
      ApplyKeeps(b, rs[0]);
      ApplyCrossesExactlyWhen(b, rs[0]);
      BeforeNext(b, rs);
      if next.NotCrossed() {
        RunCrossesExactlyWhen(next, rs[1..]);
        if forall i :: 0 <= i <= |rs| ==> Before(b, rs, i).NotCrossed() {
          forall j | 0 <= j <= |rs[1..]| ensures Before(next, rs[1..], j).NotCrossed() {
            assert Before(b, rs, j + 1).NotCrossed();
          }
          assert forall i :: 0 < i < |rs| ==> rs[i] == rs[1..][i - 1];
        }
        if forall i :: 0 <= i < |rs| ==> !RestsAcross(Before(b, rs, i), rs[i]) {
          forall j | 0 <= j < |rs[1..]| ensures !RestsAcross(Before(next, rs[1..], j), rs[1..][j]) {
            assert !RestsAcross(Before(b, rs, j + 1), rs[j + 1]);
          }
          assert forall i :: 0 < i <= |rs| ==> Before(b, rs, i) == Before(next, rs[1..], i - 1);
        }
      } else {
        assert !Before(b, rs, 1).NotCrossed();
      }
    }
  }

  lemma BeforeNext(b: Book, rs: seq<Request>)
    requires rs != []
    ensures Before(b, rs, 0) == b
    ensures forall i :: 0 < i <= |rs| ==> Before(b, rs, i) == Before(Apply(b, rs[0]).0, rs[1..], i - 1)
  {
    forall i | 0 < i <= |rs| ensures Before(b, rs, i) == Before(Apply(b, rs[0]).0, rs[1..], i - 1) {
      assert rs[..i][1..] == rs[1..][..i - 1];
    }
  }

  lemma {:induction false} RunsStayUncrossed(b: Book, rs: seq<Request>)
    requires b.Ordered() && b.NotCrossed()
    requires forall i :: 0 <= i < |rs| ==> Matches(rs[i])
    ensures Run(b, rs).NotCrossed()
    decreases |rs|
  {
    hide Apply, Book.Ordered, Book.NotCrossed;
    if rs != [] {
      ApplyKeeps(b, rs[0]);
      ApplyCrossesExactlyWhen(b, rs[0]);
      RunsStayUncrossed(Apply(b, rs[0]).0, rs[1..]);
    }
  }

  /** No run of market orders, limit orders that match before they rest, cancellations, modifications, reductions and
      session ends ever crosses the book: whenever both sides hold orders, the best bid is below the best ask. */
  lemma NeverCrossed(minPrice: int, maxPrice: int, rs: seq<Request>)
    requires forall i :: 0 <= i < |rs| ==> Matches(rs[i])
    ensures var b := Run(EmptyBook(minPrice, maxPrice), rs);
            b.bids != [] && b.asks != [] ==> b.bids[0].price < b.asks[0].price
  {
    RunsStayUncrossed(EmptyBook(minPrice, maxPrice), rs);
  }
}
