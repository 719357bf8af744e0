/** Conservation of shares: what clients are told accounts for every share that rests in the book. */
module Ledger {
  import opened Types
  import opened PriceTime
  import opened QueueLemmas
  import opened Places
  import opened BookSpec
  import opened Matching
  import opened OrderKinds
  import opened SessionTheorems
  import opened Requests

  function Volume(b: Book): int {
    Shares(b.bids) + Shares(b.asks)
  }

  function Open(b: Book, id: OrderId): int {
    match b.Lookup(id)
    case None => 0
    case Some(r) => r.quantity
  }

  /** Shares a submission adds to the book, less those it takes from its makers. */
  function NetOf(s: SubmissionResult): int {
    RestedShares(s) - Executed(s.executions)
  }

  /** Shares a request moves into the book, less those it moves out. They are what the response reports, but for a
      replayed deletion or replacement, which answers only yes or no and removes the open quantity of its order, and for
      a session end, whose share report may have wrapped: it removes what expires. */
  function Flow(b: Book, r: Request, response: Response): int {
    match response
    case Submitted(s) => NetOf(s)
    case Withdrawn(c) => -c.quantityCancelled
    case Amended(m) =>
      (match m.resubmission case None => 0 case Some(s) => NetOf(s))
      - (if m.status.Canceled? || m.status.Resubmitted? then m.originalQuantity else 0)
    case SessionEnded(_) => -Expiring(b)
    case Replayed(applied) =>
      if !applied then 0
      else
        match r
        case Add(_, _, quantity, _) => quantity
        case Take(_, shares) => -(shares as int)
        case Delete(id) => -Open(b, id)
        case Replace(originalId, _, _, newQuantity) => newQuantity - Open(b, originalId)
        case _ => 0
  }

  // ---------- single steps ----------

  lemma {:induction false} InsertShares(side: Side, q: Queue, r: RestingView)
    ensures Shares(Insert(side, q, r)) == Shares(q) + r.quantity
  {
    if q == [] || Better(side, r.price, q[0].price) {
      assert ([r] + q)[1..] == q;
    } else {
      InsertShares(side, q[1..], r);
      assert ([q[0]] + Insert(side, q[1..], r))[1..] == Insert(side, q[1..], r);
    }
  }

  lemma {:induction false} RemoveShares(q: Queue, id: OrderId)
    ensures Shares(Remove(q, id)) == Shares(q) - match Find(q, id) case None => 0 case Some(r) => r.quantity
  {
    if q != [] && q[0].id != id {
      RemoveShares(q[1..], id);
      assert ([q[0]] + Remove(q[1..], id))[1..] == Remove(q[1..], id);
    }
  }

  lemma {:induction false} ReduceShares(q: Queue, id: OrderId, n: int)
    ensures Shares(Reduce(q, id, n)) == Shares(q) - if Find(q, id).Some? then n else 0
  {
    if q != [] {
      if q[0].id == id {
        assert ([q[0].(quantity := q[0].quantity - n)] + q[1..])[1..] == q[1..];
      } else {
        ReduceShares(q[1..], id, n);
        assert ([q[0]] + Reduce(q[1..], id, n))[1..] == Reduce(q[1..], id, n);
      }
    }
  }

  lemma {:induction false} LifetimesSplitShares(q: Queue)
    ensures Shares(q) == Shares(WithLifetime(q, GoodTillCancel)) + Shares(WithLifetime(q, DayOnly))
  {
    if q != [] {
      LifetimesSplitShares(q[1..]);
      assert q == [q[0]] + q[1..];
      DayCons(q[0], q[1..]);
      SharesConcat(if q[0].lifetime == GoodTillCancel then [q[0]] else [], WithLifetime(q[1..], GoodTillCancel));
      SharesOne(q[0]);
    }
  }

  lemma CancelBalances(b: Book, id: OrderId)
    ensures Volume(Cancel(b, id).0) == Volume(b) - Cancel(b, id).1.quantityCancelled
    ensures Cancel(b, id).1.quantityCancelled == Open(b, id)
  {
    RemoveShares(b.On(b.SideOf(id)), id);
  }

  lemma MatchBalances(b: Book, side: Side, limit: Option<int>, quantity: int)
    ensures var m := Match(b, side, limit, quantity);
            Volume(b.With(Opposite(side), m.left)) == Volume(b) - Executed(m.fills)
  {
    SweepMovesShares(side, limit, quantity, b.On(Opposite(side)));
  }

  lemma SubmitLimitBalances(b: Book, r: LimitOrderRequest)
    ensures Volume(SubmitLimit(b, r).0) == Volume(b) + NetOf(SubmitLimit(b, r).1)
  {
    hide SweepQueue, Shares;
    if !b.Holds(r.id) && b.InBand(r.price) {
      MatchBalances(b, r.side, Some(r.price), r.quantity);
      var s := Match(b, r.side, Some(r.price), r.quantity);
      if r.tif.Gtc? || r.tif.Day? {
        SweepConserves(r.side, Some(r.price), r.quantity, b.On(Opposite(r.side)));
        InsertShares(r.side, b.On(r.side), RestingView(r.price, r.id, s.remaining, LifetimeOf(r.tif)));
      }
    }
  }

  lemma SubmitMarketBalances(b: Book, m: MarketOrderRequest)
    ensures Volume(SubmitMarket(b, m).0) == Volume(b) + NetOf(SubmitMarket(b, m).1)
  {
    MatchBalances(b, m.side, None, m.quantity);
  }

  lemma ModifyBalances(b: Book, m: ModifyOrderRequest)
    ensures Volume(Modify(b, m).0) == Volume(b) + Flow(b, Amend(m), Amended(Modify(b, m).1))
  {
    hide SubmitLimit, Cancel, Shares;
    CancelBalances(b, m.id);
    if b.InBand(m.newPrice) && b.Lookup(m.id).Some? && m.newQuantity > 0 {
      SubmitLimitBalances(Cancel(b, m.id).0, Resubmission(b, m, b.Lookup(m.id).value));
    }
  }

  lemma SessionEndBalances(b: Book)
    ensures Volume(SessionEnd(b).0) == Volume(b) - Expiring(b)
  {
    hide Shares, WithLifetime, AddLevels, LevelsOf;
    LifetimesSplitShares(b.bids);
    LifetimesSplitShares(b.asks);
  }

  lemma {:induction false} RemoveAddsNoIds(q: Queue, id: OrderId)
    ensures Ids(Remove(q, id)) <= Ids(q)
  {
    hide Ids;
    if q != [] {
      assert q == [q[0]] + q[1..];
      IdsCons(q[0], q[1..]);
      IdsCons(q[0], Remove(q[1..], id));
      RemoveAddsNoIds(q[1..], id);
    } else {
      assert Remove(q, id) == q;
    }
  }

  lemma ReplayBalances(b: Book, r: Request)
    requires r.Add? || r.Take? || r.Delete? || r.Replace?
    ensures Volume(Apply(b, r).0) == Volume(b) + Flow(b, r, Apply(b, r).1)
  {
    hide Shares, Cancel, Ids, Insert, Remove;
    match r
    case Add(id, price, quantity, side) =>
      InsertShares(side, b.On(side), RestingView(price, id, quantity, GoodTillCancel));
    case Take(id, shares) =>
      CancelBalances(b, id);
      ReduceShares(b.On(b.SideOf(id)), id, shares);
    case Delete(id) => CancelBalances(b, id);
    case Replace(originalId, newId, newPrice, newQuantity) =>
      ReplaceBalances(b, originalId, newId, newPrice, newQuantity);
  }

  lemma ReplaceBalances(b: Book, originalId: OrderId, newId: OrderId, newPrice: int, newQuantity: int)
    ensures var (after, applied) := ReplayReplace(b, originalId, newId, newPrice, newQuantity);
            Volume(after) == Volume(b) + if applied then newQuantity - Open(b, originalId) else 0
  {
    hide Shares, Ids, Insert, Remove, Find;
    var side, gone := b.SideOf(originalId), ReplayDelete(b, originalId).0;
    CancelBalances(b, originalId);
    RemoveAddsNoIds(b.bids, originalId);
    RemoveAddsNoIds(b.asks, originalId);
    InsertShares(side, gone.On(side), RestingView(newPrice, newId, newQuantity, GoodTillCancel));
  }

  /** One request changes the resting volume by exactly its flow, in any book and with any quantities. */
  lemma ApplyBalances(b: Book, r: Request)
    ensures Volume(Apply(b, r).0) == Volume(b) + Flow(b, r, Apply(b, r).1)
  {
    hide SubmitLimit, SubmitMarket, Modify, SessionEnd, Cancel, Shares;
    match r
    case Limit(l) => SubmitLimitBalances(b, l);
    case Market(m) => SubmitMarketBalances(b, m);
    case Withdraw(c) => CancelBalances(b, c.id);
    case Amend(m) => ModifyBalances(b, m);
    case EndSession => SessionEndBalances(b);
    case _ => ReplayBalances(b, r);
  }

  // ---------- runs ----------

  function TotalFlow(b: Book, rs: seq<Request>): int
    decreases |rs|
  {
    if rs == [] then 0
    else Flow(b, rs[0], Apply(b, rs[0]).1) + TotalFlow(Apply(b, rs[0]).0, rs[1..])
  }

  /** Over every run, whatever the book and the quantities, the resting volume is what it was, plus what was rested,
      less what makers filled, what was cancelled, reduced or replaced, and what expired. */
  lemma {:induction false} RunsBalance(b: Book, rs: seq<Request>)
    ensures Volume(Run(b, rs)) == Volume(b) + TotalFlow(b, rs)
    decreases |rs|
  {
    if rs != [] {
      hide Apply, Flow, Volume;
      ApplyBalances(b, rs[0]);
      RunsBalance(Apply(b, rs[0]).0, rs[1..]);
    }
  }
}
