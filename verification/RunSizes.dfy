/** What a caller can see of a run beforehand: requests of ordinary quantities, fewer than 2^32 of them, fit
    the engine. */
module RunSizes {
  import opened Types
  import opened PriceTime
  import opened QueueLemmas
  import opened LadderScans
  import opened LiquidityScan
  import opened Places
  import opened BookSpec
  import opened BookInvariants
  import opened Matching
  import opened Requests

  /** A property of the request alone: what may rest, and what is taken off an order, is not negative. */
  predicate Ordinary(r: Request) {
    match r
    case Limit(l) => l.tif.Gtc? || l.tif.Day? ==> l.quantity >= 0
    case Add(_, _, quantity, _) => quantity >= 0
    case Take(_, shares) => shares >= 0
    case Replace(_, _, _, newQuantity) => newQuantity >= 0
    case _ => true
  }

  /** Resting orders of both sides. */
  function Size(b: Book): nat {
    |b.bids| + |b.asks|
  }

  // ---------- queues ----------

  lemma {:induction false} SweepShrinks(taker: Side, limit: Option<int>, want: int, q: Queue)
    ensures |SweepQueue(taker, limit, want, q).left| <= |q|
    decreases |q|
  {
    if want > 0 && q != [] && q[0].quantity <= want { SweepShrinks(taker, limit, want - q[0].quantity, q[1..]); }
  }

  lemma {:induction false} InsertGrows(side: Side, q: Queue, r: RestingView)
    ensures |Insert(side, q, r)| == |q| + 1
  {
    if q != [] { InsertGrows(side, q[1..], r); }
  }

  lemma {:induction false} RemoveShrinks(q: Queue, id: OrderId)
    ensures |Remove(q, id)| <= |q|
  {
    if q != [] { RemoveShrinks(q[1..], id); }
  }

  lemma {:induction false} LifetimeShrinks(q: Queue, lifetime: RestingLifetime)
    ensures |WithLifetime(q, lifetime)| <= |q|
  {
    if q != [] { LifetimeShrinks(q[1..], lifetime); }
  }

  lemma {:induction false} AtPriceShrinks(q: Queue, price: int)
    ensures |AtPrice(q, price)| <= |q|
  {
    if q != [] { AtPriceShrinks(q[1..], price); }
  }

  // ---------- requests ----------

  lemma CancelSize(b: Book, id: OrderId)
    ensures Size(Cancel(b, id).0) <= Size(b)
  {
    hide Remove, Find, Ids;
    RemoveShrinks(b.On(b.SideOf(id)), id);
  }

  lemma SubmitLimitSize(b: Book, r: LimitOrderRequest)
    ensures Size(SubmitLimit(b, r).0) <= Size(b) + 1
  {
    hide SweepQueue, Insert, Ids;
    var s := Match(b, r.side, Some(r.price), r.quantity);
    SweepShrinks(r.side, Some(r.price), r.quantity, b.On(Opposite(r.side)));
    InsertGrows(r.side, b.On(r.side), RestingView(r.price, r.id, s.remaining, LifetimeOf(r.tif)));
  }

  /** A request adds at most one order. */
  lemma ApplySize(b: Book, r: Request)
    ensures Size(Apply(b, r).0) <= Size(b) + 1
  {
    hide SubmitLimit, Cancel, SweepQueue, Insert, Reduce, WithLifetime, AddLevels, LevelsOf, Ids, Find;
    match r
    case Limit(l) => SubmitLimitSize(b, l);
    case Market(m) => SweepShrinks(m.side, None, m.quantity, b.On(Opposite(m.side)));
    case Withdraw(c) => CancelSize(b, c.id);
    case Amend(m) =>
      CancelSize(b, m.id);
      if b.Lookup(m.id).Some? { SubmitLimitSize(Cancel(b, m.id).0, Resubmission(b, m, b.Lookup(m.id).value)); }
    case EndSession =>
      LifetimeShrinks(b.bids, GoodTillCancel);
      LifetimeShrinks(b.asks, GoodTillCancel);
    case Add(id, price, quantity, side) =>
      InsertGrows(side, b.On(side), RestingView(price, id, quantity, GoodTillCancel));
    case Take(id, shares) =>
      CancelSize(b, id);
      ReduceKeepsPlaces(b.On(b.SideOf(id)), id, shares);
    case Delete(id) => CancelSize(b, id);
    case Replace(originalId, newId, newPrice, newQuantity) =>
      CancelSize(b, originalId);
      var gone, side := Cancel(b, originalId).0, b.SideOf(originalId);
      InsertGrows(side, gone.On(side), RestingView(newPrice, newId, newQuantity, GoodTillCancel));
  }

  // ---------- quantities ----------

  ghost predicate Small(q: Queue) {
    forall r :: r in q ==> r.quantity <= INT32_MAX
  }

  /** No resting quantity exceeds the signed 32-bit range. */
  ghost predicate SmallBook(b: Book) {
    Small(b.bids) && Small(b.asks)
  }

  lemma {:induction false} SweepSmall(taker: Side, limit: Option<int>, want: int, q: Queue)
    requires Small(q) && Positive(q)
    ensures var s := SweepQueue(taker, limit, want, q); Small(s.left) && s.remaining <= want
    decreases |q|
  {
    if want > 0 && q != [] && Crosses(taker, limit, q[0].price) {
      assert q[0] in q && forall r :: r in q[1..] ==> r in q;
      if q[0].quantity <= want {
        TailKeeps(taker, q);
        SweepSmall(taker, limit, want - q[0].quantity, q[1..]);
      }
    }
  }

  lemma {:induction false} RemoveSmall(q: Queue, id: OrderId)
    requires Small(q)
    ensures Small(Remove(q, id))
  {
    if q != [] {
      assert q[0] in q && forall r :: r in q[1..] ==> r in q;
      RemoveSmall(q[1..], id);
    }
  }

  lemma {:induction false} ReduceSmall(q: Queue, id: OrderId, n: nat)
    requires Small(q)
    ensures Small(Reduce(q, id, n))
  {
    if q != [] {
      assert q[0] in q && forall r :: r in q[1..] ==> r in q;
      ReduceSmall(q[1..], id, n);
    }
  }

  lemma RestSmall(b: Book, side: Side, r: RestingView)
    requires SmallBook(b) && r.quantity <= INT32_MAX
    ensures SmallBook(Rest(b, side, r))
  {
    hide Insert;
    InsertMembers(side, b.On(side), r);
  }

  lemma CancelSmall(b: Book, id: OrderId)
    requires SmallBook(b)
    ensures SmallBook(Cancel(b, id).0)
  {
    hide Small, Find, Remove, Ids;
    RemoveSmall(b.On(b.SideOf(id)), id);
  }

  lemma SubmitLimitSmall(b: Book, l: LimitOrderRequest)
    requires SmallBook(b) && b.WellFormed()
    ensures SmallBook(SubmitLimit(b, l).0)
  {
    hide SweepQueue, Insert, Ids, Book.Ordered, Positive, Small, LooksLiquid;
    SweepSmall(l.side, Some(l.price), l.quantity, b.On(Opposite(l.side)));
    var s := Match(b, l.side, Some(l.price), l.quantity);
    var matched := b.With(Opposite(l.side), s.left);
    RestSmall(matched, l.side, RestingView(l.price, l.id, s.remaining, LifetimeOf(l.tif)));
  }

  lemma ApplySmall(b: Book, r: Request)
    requires SmallBook(b) && b.WellFormed() && Ordinary(r)
    ensures SmallBook(Apply(b, r).0)
  {
    hide SubmitLimit, Cancel, SweepQueue, Insert, Reduce, WithLifetime, AddLevels, LevelsOf, Ids, Find, Book.Ordered;
    match r
    case Limit(l) => SubmitLimitSmall(b, l);
    case Market(m) => SweepSmall(m.side, None, m.quantity, b.On(Opposite(m.side)));
    case Withdraw(c) => CancelSmall(b, c.id);
    case Amend(m) => AmendSmall(b, m);
    case EndSession =>
      LifetimeMembers(b.bids, GoodTillCancel);
      LifetimeMembers(b.asks, GoodTillCancel);
    case Add(id, price, quantity, side) => RestSmall(b, side, RestingView(price, id, quantity, GoodTillCancel));
    case Take(id, shares) =>
      CancelSmall(b, id);
      ReduceSmall(b.On(b.SideOf(id)), id, shares);
    case Delete(id) => CancelSmall(b, id);
    case Replace(originalId, newId, newPrice, newQuantity) =>
      CancelSmall(b, originalId);
      var r := RestingView(newPrice, newId, newQuantity, GoodTillCancel);
      RestSmall(Cancel(b, originalId).0, b.SideOf(originalId), r);
  }

  lemma AmendSmall(b: Book, m: ModifyOrderRequest)
    requires SmallBook(b) && b.WellFormed()
    ensures SmallBook(Modify(b, m).0)
  {
    hide SubmitLimit, Cancel, Find, Ids, Book.Ordered, Positive, SmallBook;
    CancelSmall(b, m.id);
    CancelKeeps(b, m.id);
    if b.Lookup(m.id).Some? { SubmitLimitSmall(Cancel(b, m.id).0, Resubmission(b, m, b.Lookup(m.id).value)); }
  }

  // ---------- what fits ----------

  lemma RoomBySize(b: Book, side: Side, price: int)
    requires Size(b) < UINT32_MAX
    ensures Room(b, side, price)
  {
    hide AtPrice;
    AtPriceShrinks(b.On(side), price);
  }

  lemma OrdinaryLimitFits(b: Book, l: LimitOrderRequest)
    requires b.WellFormed() && SmallBook(b) && Size(b) < UINT32_MAX && Ordinary(Limit(l))
    ensures Admissible(b, l)
  {
    hide SweepQueue, MatchFits, Ids, Room, LooksLiquid;
    RoomBySize(b, l.side, l.price);
    PositiveMatchFits(l.side, Some(l.price), l.quantity, b.On(Opposite(l.side)));
  }

  lemma OrdinaryFits(b: Book, r: Request)
    requires b.WellFormed() && SmallBook(b) && Size(b) < UINT32_MAX && Ordinary(r)
    ensures Fits(b, r)
  {
    hide Admissible, Room, MatchFits, Cancel, Ids, Find;
    match r
    case Limit(l) => OrdinaryLimitFits(b, l);
    case Market(m) => PositiveMatchFits(m.side, None, m.quantity, b.On(Opposite(m.side)));
    case Amend(m) =>
      if b.InBand(m.newPrice) && b.Lookup(m.id).Some? && m.newQuantity > 0 {
        hide Book.Ordered, Positive, SmallBook;
        CancelKeeps(b, m.id);
        CancelSmall(b, m.id);
        CancelSize(b, m.id);
        OrdinaryLimitFits(Cancel(b, m.id).0, Resubmission(b, m, b.Lookup(m.id).value));
      }
    case Add(id, price, quantity, side) => RoomBySize(b, side, price);
    case Replace(originalId, newId, newPrice, newQuantity) =>
      CancelSize(b, originalId);
      RoomBySize(Cancel(b, originalId).0, b.SideOf(originalId), newPrice);
    case _ =>
  }

  lemma OrdinaryIsSensible(r: Request)
    requires Ordinary(r)
    ensures Sensible(r)
  {
  }

  /** A run of ordinary requests fits the engine whenever resting orders and requests together number less than 2^32. */
  lemma {:induction false} OrdinaryRunFits(b: Book, rs: seq<Request>)
    requires b.WellFormed() && SmallBook(b) && Size(b) + |rs| <= UINT32_MAX
    requires forall i :: 0 <= i < |rs| ==> Ordinary(rs[i])
    ensures RunFits(b, rs)
    decreases |rs|
  {
    hide Apply, Fits, Ordinary, Size, Book.Ordered, Positive, SmallBook;
    if rs != [] {
      OrdinaryFits(b, rs[0]);
      OrdinaryIsSensible(rs[0]);
      ApplyKeeps(b, rs[0]);
      ApplySize(b, rs[0]);
      ApplySmall(b, rs[0]);
      OrdinaryRunFits(Apply(b, rs[0]).0, rs[1..]);
    }
  }
}
