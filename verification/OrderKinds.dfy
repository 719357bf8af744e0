/** How the kinds of orders relate to each other, and what each promises its sender. */
module OrderKinds {
  import opened Types
  import opened PriceTime
  import opened LadderScans
  import opened TopLevels
  import opened LiquidityScan
  import opened Matching
  import opened BookSpec
  import opened BookLemmas
  import opened BookInvariants
  import opened FillOrKill

  // ---------- one kind in terms of another ----------

  /** Inside a price band, a limit at the far end of the band is no limit. */
  lemma {:induction false} NoLimitAtTheFarEnd(taker: Side, want: int, q: Queue, lo: int, hi: int)
    requires InRange(q, lo, hi)
    ensures SweepQueue(taker, None, want, q) == SweepQueue(taker, Some(if taker.Buy? then hi else lo), want, q)
    decreases |q|
  {
    if want > 0 && q != [] && q[0].quantity <= want {
      NoLimitAtTheFarEnd(taker, want - q[0].quantity, q[1..], lo, hi);
    }
  }

  /** A market order does what an immediate-or-cancel order at the end of the band does. */
  lemma MarketIsIocAtBandEnd(b: Book, m: MarketOrderRequest, price: Price)
    requires b.Ordered() && b.minPrice <= b.maxPrice
    requires price == if m.side.Buy? then b.maxPrice else b.minPrice
    ensures SubmitMarket(b, m) == SubmitLimit(b, LimitOrderRequest(m.id, price, m.quantity, m.side, Ioc))
  {
    NoLimitAtTheFarEnd(m.side, m.quantity, b.On(Opposite(m.side)), b.minPrice, b.maxPrice);
  }

  /** A resting order does what immediate-or-cancel does, and then rests what is left, last at its price. */
  lemma RestingIsIocThenRest(b: Book, r: LimitOrderRequest)
    requires (r.tif == Gtc || r.tif == Day) && !b.Holds(r.id) && b.InBand(r.price)
    ensures var (after, result) := SubmitLimit(b, r);
            var (taken, ioc) := SubmitLimit(b, r.(tif := Ioc));
            && result.executions == ioc.executions && result.filled == ioc.filled
            && (ioc.status == SubmitStatus.Filled <==> result.status == SubmitStatus.Filled)
            && var rested := RestingView(r.price, r.id, r.quantity - ioc.filled, LifetimeOf(r.tif));
            && after == (if ioc.status == SubmitStatus.Filled then taken else Rest(taken, r.side, rested))
  {
    SweepConserves(r.side, Some(r.price), r.quantity, b.On(Opposite(r.side)));
  }

  /** Inserting puts an order behind everything at its own or a better price and ahead of everything worse. */
  lemma {:induction false} InsertIsLastAtItsPrice(side: Side, q: Queue, r: RestingView) returns (k: nat)
    requires Sorted(side, q)
    ensures k <= |q| && Insert(side, q, r) == q[..k] + [r] + q[k..]
    ensures forall i :: 0 <= i < k ==> !Better(side, r.price, q[i].price)
    ensures forall i :: k <= i < |q| ==> Better(side, r.price, q[i].price)
  {
    if q == [] || Better(side, r.price, q[0].price) {
      k := 0;
      forall i | 0 <= i < |q| ensures Better(side, r.price, q[i].price) {
        assert i == 0 || !Better(side, q[i].price, q[0].price);
      }
    } else {
      TailKeeps(side, q);
      var j := InsertIsLastAtItsPrice(side, q[1..], r);
      k := j + 1;
      assert q[..k] == [q[0]] + q[1..][..j] && q[k..] == q[1..][j..];
    }
  }

  // ---------- accounting for one submission ----------

  function RestedShares(s: SubmissionResult): int {
    if s.status.Resting? || s.status.PartiallyFilledResting? then s.requested - s.filled else 0
  }

  function DiscardedShares(s: SubmissionResult): int {
    if s.status.Resting? || s.status.PartiallyFilledResting? || s.status.Filled? then 0 else s.requested - s.filled
  }

  /** What a submission reports adds up: what was asked for was filled, rests or was discarded; what was filled is the
      sum of the executions; and no count leaves the range of what was asked for. */
  ghost predicate Accounted(s: SubmissionResult, quantity: int) {
    && s.requested == quantity == s.filled + RestedShares(s) + DiscardedShares(s)
    && s.filled == Executed(s.executions)
    && 0 <= s.filled <= quantity && 0 <= RestedShares(s) && 0 <= DiscardedShares(s)
  }

  lemma SweepAccounts(b: Book, side: Side, limit: Option<int>, quantity: int)
    requires b.WellFormed() && 0 <= quantity
    ensures var m := Match(b, side, limit, quantity);
            && 0 <= Executed(m.fills) <= quantity && m.remaining == quantity - Executed(m.fills)
            && Shares(b.On(Opposite(side))) == Shares(m.left) + Executed(m.fills)
  {
    var q := b.On(Opposite(side));
    SweepTradesAllItCan(side, limit, quantity, q);
    MarketableNonNegative(side, limit, q);
    SweepMovesShares(side, limit, quantity, q);
  }

  /** Shares the makers lose are the shares executed. */
  lemma {:induction false} SweepMovesShares(taker: Side, limit: Option<int>, want: int, q: Queue)
    ensures var s := SweepQueue(taker, limit, want, q); Shares(q) == Shares(s.left) + Executed(s.fills)
    decreases |q|
  {
    if want > 0 && q != [] && Crosses(taker, limit, q[0].price) {
      if q[0].quantity > want {
        var e := Execution(q[0].id, q[0].price, want);
        assert Executed([e]) == want by { assert [e][1..] == []; }
        assert ([q[0].(quantity := q[0].quantity - want)] + q[1..])[1..] == q[1..];
      } else {
        SweepMovesShares(taker, limit, want - q[0].quantity, q[1..]);
        ExecutedConcat([Execution(q[0].id, q[0].price, q[0].quantity)],
                       SweepQueue(taker, limit, want - q[0].quantity, q[1..]).fills);
      }
    }
  }

  lemma SubmissionAccounts(b: Book, r: LimitOrderRequest)
    requires b.WellFormed() && r.quantity >= 0
    ensures Accounted(SubmitLimit(b, r).1, r.quantity)
  {
    hide SweepQueue, Ids, Book.WellFormed, LooksLiquid, Insert;
    SweepAccounts(b, r.side, Some(r.price), r.quantity);
    if r.tif.Fok? && r.quantity > 0 { PassedScanIsRight(b, r); }
  }

  lemma MarketAccounts(b: Book, m: MarketOrderRequest)
    requires b.WellFormed() && m.quantity >= 0
    ensures Accounted(SubmitMarket(b, m).1, m.quantity)
    ensures RestedShares(SubmitMarket(b, m).1) == 0
  {
    SweepAccounts(b, m.side, None, m.quantity);
  }

  // ---------- what a status tells ----------

  predicate MayRest(tif: TimeInForce) {
    tif.Gtc? || tif.Day?
  }

  /** The status of a submission says how much was filled and what became of the rest. */
  lemma StatusTellsTheFill(b: Book, r: LimitOrderRequest)
    requires b.WellFormed() && r.quantity > 0
    ensures var s := SubmitLimit(b, r).1;
            var accepted := !b.Holds(r.id) && b.minPrice <= r.price <= b.maxPrice;
            && (s.status == SubmitStatus.Rejected <==> !accepted)
            && (s.status == SubmitStatus.Filled <==> s.filled == r.quantity)
            && (s.status == SubmitStatus.PartiallyFilledResting <==> MayRest(r.tif) && 0 < s.filled < r.quantity)
            && (s.status == SubmitStatus.Resting <==> accepted && MayRest(r.tif) && s.filled == 0)
            && (s.status == SubmitStatus.PartiallyFilledCanceled <==> r.tif.Ioc? && 0 < s.filled < r.quantity)
            && (s.status == SubmitStatus.Canceled <==> accepted && r.tif.Ioc? && s.filled == 0)
            && (s.status == SubmitStatus.Killed <==> accepted && r.tif.Fok? && s.filled == 0)
  {
    hide Book.WellFormed, SweepQueue, Executed, Ids, LooksLiquid, Room;
    if !b.Holds(r.id) && b.InBand(r.price) {
      SweepAccounts(b, r.side, Some(r.price), r.quantity);
      if r.tif.Fok? { PassedScanIsRight(b, r); }
    }
  }

  lemma MarketStatusTellsTheFill(b: Book, m: MarketOrderRequest)
    requires b.WellFormed() && m.quantity > 0
    ensures var s := SubmitMarket(b, m).1;
            && (s.status == SubmitStatus.Rejected <==> b.Holds(m.id))
            && (s.status == SubmitStatus.Filled <==> s.filled == m.quantity)
            && (s.status == SubmitStatus.PartiallyFilledCanceled <==> 0 < s.filled < m.quantity)
            && (s.status == SubmitStatus.Canceled <==> !b.Holds(m.id) && s.filled == 0)
  {
    hide Book.WellFormed, SweepQueue, Executed, Ids;
    SweepAccounts(b, m.side, None, m.quantity);
  }

  // ---------- modification ----------

  /** Modify is an atomic cancel-and-resubmit. A price outside the band is rejected and an unknown id not found, and
      both change nothing. Otherwise the old order is gone and its open quantity is reported; a positive new quantity is
      submitted under the same id, on the same side and with the same lifetime, and never rejected, and any other
      quantity cancels. */
  lemma ModifyIsCancelThenSubmit(b: Book, m: ModifyOrderRequest)
    requires b.UniqueIds()
    ensures var (after, result) := Modify(b, m);
            var priced := b.minPrice <= m.newPrice <= b.maxPrice;
            && (result.status == ModificationStatus.Rejected <==> !priced)
            && (result.status == ModificationStatus.NotFound <==> priced && !b.Holds(m.id))
            && (result.status == ModificationStatus.Canceled <==> priced && b.Holds(m.id) && m.newQuantity <= 0)
            && (result.status == ModificationStatus.Resubmitted <==> priced && b.Holds(m.id) && m.newQuantity > 0)
            && (result.status.Rejected? || result.status.NotFound? ==>
                  after == b && result.originalQuantity == 0 && result.resubmission.None?)
            && (result.status.Canceled? || result.status.Resubmitted? ==>
                  b.Lookup(m.id).Some? && result.originalQuantity == b.Lookup(m.id).value.quantity)
            && (result.status.Canceled? ==> after == Cancel(b, m.id).0 && result.resubmission.None?)
            && (result.status.Resubmitted? ==>
                  && result.resubmission.Some?
                  && result.resubmission.value.status != SubmitStatus.Rejected
                  && (after, result.resubmission.value) == SubmitLimit(Cancel(b, m.id).0, Anew(b, m))
                  && (b.WellFormed() ==> Accounted(result.resubmission.value, m.newQuantity)))
  {
    hide Book.UniqueIds, Sorted, InRange, Positive, Cancel, SweepQueue, Executed, LooksLiquid;
    LookupHeld(b, m.id);
    CancelKeepsUnique(b, m.id);
    if b.InBand(m.newPrice) && b.Holds(m.id) && m.newQuantity > 0 && b.WellFormed() {
      CancelKeeps(b, m.id);
      SubmissionAccounts(Cancel(b, m.id).0, Resubmission(b, m, b.Lookup(m.id).value));
    }
  }

  /** The order with the new price and quantity, and the id, side and lifetime of the old one. */
  function Anew(b: Book, m: ModifyOrderRequest): LimitOrderRequest
    requires b.Lookup(m.id).Some?
  {
    LimitOrderRequest(m.id, m.newPrice, m.newQuantity, if m.id in Ids(b.bids) then Buy else Sell,
                      if b.Lookup(m.id).value.lifetime == DayOnly then Day else Gtc)
  }

  /** What a modified order rests, it rests as a new arrival at its price, with its old side and lifetime. */
  lemma ModifyLosesItsPlace(b: Book, m: ModifyOrderRequest)
    requires b.UniqueIds() && Modify(b, m).1.status.Resubmitted?
    requires RestedShares(Modify(b, m).1.resubmission.value) > 0
    ensures b.Lookup(m.id).Some?
    ensures var side := b.SideOf(m.id);
            var ioc := LimitOrderRequest(m.id, m.newPrice, m.newQuantity, side, Ioc);
            var taken := SubmitLimit(Cancel(b, m.id).0, ioc).0;
            var rested := RestedShares(Modify(b, m).1.resubmission.value);
            Modify(b, m).0 == Rest(taken, side, RestingView(m.newPrice, m.id, rested, b.Lookup(m.id).value.lifetime))
  {
    hide Book.UniqueIds, Cancel, SweepQueue, Executed, Rest;
    CancelKeepsUnique(b, m.id);
    RestingIsIocThenRest(Cancel(b, m.id).0, Resubmission(b, m, b.Lookup(m.id).value));
  }

  // ---------- quantities that must not rest ----------

  lemma InsertedIsThere(side: Side, q: Queue, r: RestingView)
    requires Sorted(side, q)
    ensures r in Insert(side, q, r)
  {
    var k := InsertIsLastAtItsPrice(side, q, r);
    assert Insert(side, q, r)[k] == r;
  }

  /** A negative quantity passes every check, trades nothing and rests: a GTC or DAY submission keeps the book sound
      exactly when its quantity is not negative. */
  lemma RestingKeepsSoundExactlyWhenNonNegative(b: Book, r: LimitOrderRequest)
    requires b.WellFormed() && (r.tif.Gtc? || r.tif.Day?) && !b.Holds(r.id) && b.InBand(r.price)
    ensures SubmitLimit(b, r).0.WellFormed() <==> r.quantity >= 0
  {
    hide Sorted, DistinctIds, Ids, InRange, Insert;
    if r.quantity >= 0 {
      SubmitRestingKeeps(b, r);
    } else {
      InsertedIsThere(r.side, b.On(r.side), RestingView(r.price, r.id, r.quantity, LifetimeOf(r.tif)));
    }
  }

  /** A replayed add that is accepted keeps the book sound exactly when its shares, as a signed number, are positive. */
  lemma ReplayAddKeepsSoundExactlyWhenPositive(b: Book, id: OrderId, price: int, quantity: int, side: Side)
    requires b.WellFormed() && ReplayAdd(b, id, price, quantity, side).1
    ensures ReplayAdd(b, id, price, quantity, side).0.WellFormed() <==> quantity > 0
  {
    hide Sorted, DistinctIds, Ids, InRange, Insert;
    if quantity > 0 {
      RestKeeps(b, side, RestingView(price, id, quantity, GoodTillCancel));
    } else {
      InsertedIsThere(side, b.On(side), RestingView(price, id, quantity, GoodTillCancel));
    }
  }

  /** So does an accepted replacement. */
  lemma ReplayReplaceKeepsSoundExactlyWhenPositive(b: Book, originalId: OrderId, newId: OrderId, newPrice: int,
                                                   newQuantity: int)
    requires b.WellFormed() && ReplayReplace(b, originalId, newId, newPrice, newQuantity).1
    ensures ReplayReplace(b, originalId, newId, newPrice, newQuantity).0.WellFormed() <==> newQuantity > 0
  {
    hide Book.Ordered, Positive, Cancel, ReplayAdd, Ids;
    CancelKeeps(b, originalId);
    var gone := ReplayDelete(b, originalId).0;
    ReplayAddKeepsSoundExactlyWhenPositive(gone, newId, newPrice, newQuantity, b.SideOf(originalId));
  }

  /** A reduction that is accepted, and so answered with true, leaves its order gone or with fewer shares exactly when
      it is positive; a negative one enlarges the order. */
  lemma ReduceShrinksExactlyWhenPositive(b: Book, id: OrderId, n: int)
    requires b.WellFormed() && ReplayReduce(b, id, n).1
    ensures b.Lookup(id).Some?
    ensures var now := ReplayReduce(b, id, n).0.Lookup(id);
            now.None? || now.value.quantity < b.Lookup(id).value.quantity <==> n > 0
    ensures n < 0 ==> ReplayReduce(b, id, n).0.Lookup(id) == Some(Enlarged(b.Lookup(id).value, -n))
  {
    hide Ids, Find, Reduce, Remove, Sorted, DistinctIds, InRange;
    var side := b.SideOf(id);
    LookupHeld(b, id);
    LookupHeld(ReplayReduce(b, id, n).0, id);
    if n == b.Lookup(id).value.quantity {
      CancelFreesId(b, id);
    } else {
      ReduceKeepsDistinct(b.On(side), id, n);
      FindReduce(b.On(side), id, n, id);
    }
  }

  function Enlarged(r: RestingView, n: int): RestingView {
    r.(quantity := r.quantity + n)
  }
}
