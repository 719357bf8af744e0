/** Whole sequences of replayed changes: the book is nothing but a map from ids to visible orders, plus the places the
    orders keep in their queues. */
module ReplayRuns {
  import opened Types
  import opened PriceTime
  import opened BookSpec
  import opened BookLemmas
  import opened Requests
  import opened ReplayTheorems
  import opened Places

  type Snap = map<OrderId, Visible>

  predicate IsReplay(r: Request) {
    r.Add? || r.Take? || r.Delete? || r.Replace?
  }

  /** A replayed change to the map alone. */
  function MapApply(lo: int, hi: int, m: Snap, r: Request): (Snap, bool) {
    match r
    case Add(id, price, quantity, side) =>
      if quantity == 0 || id in m || !(lo <= price <= hi) then (m, false)
      else (m[id := Visible(side, price, quantity, GoodTillCancel)], true)
    case Take(id, shares) =>
      if shares == 0 || id !in m || shares > m[id].remaining then (m, false)
      else if shares == m[id].remaining then (m - {id}, true)
      else (m[id := m[id].(remaining := m[id].remaining - shares)], true)
    case Delete(id) =>
      (m - {id}, id in m)
    case Replace(originalId, newId, newPrice, newQuantity) =>
      if newQuantity == 0 || !(lo <= newPrice <= hi) || newId in m || originalId !in m then (m, false)
      else ((m - {originalId})[newId := Visible(m[originalId].side, newPrice, newQuantity, GoodTillCancel)], true)
    case _ => (m, false)
  }

  function MapRun(lo: int, hi: int, m: Snap, rs: seq<Request>): Snap
    decreases |rs|
  {
    if rs == [] then m else MapRun(lo, hi, MapApply(lo, hi, m, rs[0]).0, rs[1..])
  }

  function MapAnswers(lo: int, hi: int, m: Snap, rs: seq<Request>): seq<bool>
    decreases |rs|
  {
    if rs == [] then [] else [MapApply(lo, hi, m, rs[0]).1] + MapAnswers(lo, hi, MapApply(lo, hi, m, rs[0]).0, rs[1..])
  }

  function Answers(responses: seq<Response>): seq<bool>
  {
    if responses == [] then []
    else [responses[0].Replayed? && responses[0].applied] + Answers(responses[1..])
  }

  lemma ReplayKeepsUnique(b: Book, r: Request)
    requires b.UniqueIds() && IsReplay(r)
    ensures Apply(b, r).0.UniqueIds()
    ensures Apply(b, r).0.minPrice == b.minPrice && Apply(b, r).0.maxPrice == b.maxPrice
  {
    hide Book.UniqueIds, Find, Remove, Reduce, Insert, Ids;
    match r
    case Add(id, price, quantity, side) =>
      if !b.Holds(id) { RestKeepsUnique(b, side, RestingView(price, id, quantity, GoodTillCancel)); }
    case Take(id, shares) => ReplayReduceKeepsUnique(b, id, shares);
    case Delete(id) => CancelKeepsUnique(b, id);
    case Replace(originalId, newId, newPrice, newQuantity) =>
      ReplayReplaceKeepsUnique(b, originalId, newId, newPrice, newQuantity);
  }

  lemma ApplyIsMapApply(b: Book, r: Request)
    requires b.UniqueIds() && IsReplay(r)
    ensures Apply(b, r).1 == Replayed(MapApply(b.minPrice, b.maxPrice, Snapshot(b), r).1)
    ensures Snapshot(Apply(b, r).0) == MapApply(b.minPrice, b.maxPrice, Snapshot(b), r).0
  {
    hide Book.UniqueIds, Snapshot, ReplayAdd, ReplayReduce, ReplayDelete, ReplayReplace;
    match r
    case Add(id, price, quantity, side) => AddIsMapUpdate(b, id, price, quantity, side);
    case Take(id, shares) => ReduceIsMapUpdate(b, id, shares);
    case Delete(id) => DeleteIsMapRemoval(b, id);
    case Replace(originalId, newId, newPrice, newQuantity) =>
      ReplaceIsAtomic(b, originalId, newId, newPrice, newQuantity);
  }

  /** Over any sequence of replayed changes, what the book shows and every answer it gives are those of the map. */
  lemma {:induction false} ReplayIsMapRun(b: Book, rs: seq<Request>)
    requires b.UniqueIds() && forall i :: 0 <= i < |rs| ==> IsReplay(rs[i])
    ensures Snapshot(Run(b, rs)) == MapRun(b.minPrice, b.maxPrice, Snapshot(b), rs)
    ensures Answers(Responses(b, rs)) == MapAnswers(b.minPrice, b.maxPrice, Snapshot(b), rs)
    decreases |rs|
  {
    hide Apply, MapApply, Book.UniqueIds, Snapshot;
    if rs != [] {
      var after := Apply(b, rs[0]).0;
      ApplyIsMapApply(b, rs[0]);
      ReplayKeepsUnique(b, rs[0]);
      ReplayIsMapRun(after, rs[1..]);
      var responses := Responses(b, rs);
      assert responses[0] == Apply(b, rs[0]).1 && responses[1..] == Responses(after, rs[1..]);
    }
  }

  /** An order leaves the visible book exactly when it is fully reduced, deleted or replaced. */
  lemma LeavesExactlyWhen(b: Book, r: Request, id: OrderId)
    requires b.UniqueIds() && IsReplay(r) && b.Holds(id)
    ensures !Apply(b, r).0.Holds(id)
       <==> || (r.Take? && r.takeId == id && r.shares != 0 && r.shares == Snapshot(b)[id].remaining)
            || (r.Delete? && r.deleteId == id)
            || (r.Replace? && r.originalId == id && Apply(b, r).1.applied)
  {
    hide Book.UniqueIds, Apply, Snapshot, Book.Holds, Shown;
    ApplyIsMapApply(b, r);
    SnapshotHolds(b);
    SnapshotHolds(Apply(b, r).0);
  }

  // ---------- places in the queue ----------

  /** A replayed change never reorders the orders that were there before and still are. */
  lemma ReplayKeepsPlaces(b: Book, r: Request, side: Side, x: OrderId, y: OrderId)
    requires b.UniqueIds() && IsReplay(r)
    requires b.Holds(x) && b.Holds(y) && Apply(b, r).0.Holds(x) && Apply(b, r).0.Holds(y)
    ensures Ahead(Apply(b, r).0.On(side), x, y) <==> Ahead(b.On(side), x, y)
  {
    hide Book.UniqueIds, Ahead, Insert, Remove, Reduce, Ids, Find, AtPrice, Snapshot;
    match r
    case Add(id, price, quantity, makers) =>
      if Apply(b, r).1.applied {
        InsertKeepsOrder(makers, b.On(makers), RestingView(price, id, quantity, GoodTillCancel), x, y);
      }
    case Take(id, shares) => TakeKeepsPlaces(b, id, shares, side, x, y);
    case Delete(id) => DeleteKeepsPlaces(b, id, side, x, y);
    case Replace(originalId, newId, newPrice, newQuantity) =>
      ReplaceIsAtomic(b, originalId, newId, newPrice, newQuantity);
      if Apply(b, r).1.applied {
        ReplaceKeepsPlaces(b, r, side, x, y);
      }
  }

  lemma DeleteKeepsPlaces(b: Book, id: OrderId, side: Side, x: OrderId, y: OrderId)
    requires b.UniqueIds()
    requires ReplayDelete(b, id).0.Holds(x) && ReplayDelete(b, id).0.Holds(y)
    ensures Ahead(ReplayDelete(b, id).0.On(side), x, y) <==> Ahead(b.On(side), x, y)
  {
    hide Book.UniqueIds, Ahead, Remove, Ids, Find;
    CancelKeepsUnique(b, id);
    RemoveKeepsOrder(b.On(b.SideOf(id)), id, x, y);
  }

  lemma TakeKeepsPlaces(b: Book, id: OrderId, n: int, side: Side, x: OrderId, y: OrderId)
    requires b.UniqueIds()
    requires ReplayReduce(b, id, n).0.Holds(x) && ReplayReduce(b, id, n).0.Holds(y)
    ensures Ahead(ReplayReduce(b, id, n).0.On(side), x, y) <==> Ahead(b.On(side), x, y)
  {
    hide Book.UniqueIds, Ahead, Reduce, Ids, Find, ReplayDelete, Book.Holds;
    if b.Lookup(id).Some? && n == b.Lookup(id).value.quantity && n != 0 {
      DeleteKeepsPlaces(b, id, side, x, y);
    }
    ReduceKeepsOrder(b.On(b.SideOf(id)), id, n, x, y);
  }

  lemma ReplaceKeepsPlaces(b: Book, r: Request, side: Side, x: OrderId, y: OrderId)
    requires b.UniqueIds() && r.Replace? && Apply(b, r).1.applied
    requires b.Holds(x) && b.Holds(y) && Apply(b, r).0.Holds(x) && Apply(b, r).0.Holds(y)
    ensures Ahead(Apply(b, r).0.On(side), x, y) <==> Ahead(b.On(side), x, y)
  {
    hide Book.UniqueIds, Ahead, Insert, Remove, Cancel, Ids, Find, AtPrice, Snapshot, Shown, Book.Holds;
    var gone := Cancel(b, r.originalId).0;
    ReplaceIsAtomic(b, r.originalId, r.newId, r.newPrice, r.newQuantity);
    SnapshotHolds(b);
    SnapshotHolds(Apply(b, r).0);
    SnapshotHolds(gone);
    CancelShows(b, r.originalId);
    var makers := Snapshot(b)[r.originalId].side;
    InsertKeepsOrder(makers, gone.On(makers), RestingView(r.newPrice, r.newId, r.newQuantity, GoodTillCancel), x, y);
    DeleteKeepsPlaces(b, r.originalId, side, x, y);
  }

  /** The order is in the book before, between and after the requests. */
  predicate HeldThroughout(b: Book, rs: seq<Request>, id: OrderId)
    decreases |rs|
  {
    b.Holds(id) && (rs == [] || HeldThroughout(Apply(b, rs[0]).0, rs[1..], id))
  }

  /** Over any sequence of replayed changes, orders that stay keep their places relative to each other. */
  lemma {:induction false} ReplayRunKeepsPlaces(b: Book, rs: seq<Request>, side: Side, x: OrderId, y: OrderId)
    requires b.UniqueIds() && forall i :: 0 <= i < |rs| ==> IsReplay(rs[i])
    requires HeldThroughout(b, rs, x) && HeldThroughout(b, rs, y)
    ensures Ahead(Run(b, rs).On(side), x, y) <==> Ahead(b.On(side), x, y)
    decreases |rs|
  {
    hide Apply, Book.UniqueIds, Book.Holds, Ahead;
    if rs != [] {
      var after := Apply(b, rs[0]).0;
      assert after.Holds(x) && after.Holds(y);
      ReplayKeepsPlaces(b, rs[0], side, x, y);
      ReplayKeepsUnique(b, rs[0]);
      ReplayRunKeepsPlaces(after, rs[1..], side, x, y);
    }
  }
}
