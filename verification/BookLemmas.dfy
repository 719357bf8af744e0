/** First facts about the abstract book. */
module BookLemmas {
  import opened Types
  import opened PriceTime
  import opened QueueLemmas
  import opened Places
  import opened BookSpec

  lemma LookupHeld(b: Book, id: OrderId)
    ensures b.Lookup(id).Some? <==> b.Holds(id)
    ensures b.Lookup(id).Some? ==> b.Lookup(id).value in b.On(b.SideOf(id)) && b.Lookup(id).value.id == id
  {
    FindAbsent(b.bids, id);
    FindAbsent(b.asks, id);
  }

  lemma {:induction false} RemoveIds(q: Queue, id: OrderId)
    requires DistinctIds(q)
    ensures Ids(Remove(q, id)) == Ids(q) - {id}
    ensures forall r :: r in Remove(q, id) <==> r in q && r.id != id
  {
    if q != [] {
      assert q == [q[0]] + q[1..];
      if q[0].id == id {
        forall r | r in q[1..] ensures r.id != id {
          var i :| 0 <= i < |q[1..]| && q[1..][i] == r;
          assert q[i + 1] == r;
        }
      } else {
        assert DistinctIds(q[1..]);
        RemoveIds(q[1..], id);
        assert forall r :: r in Remove(q, id) <==> r == q[0] || r in Remove(q[1..], id);
      }
    }
  }

  /** After a cancellation the id is free again. */
  lemma CancelFreesId(b: Book, id: OrderId)
    requires b.UniqueIds()
    ensures !Cancel(b, id).0.Holds(id)
    ensures Cancel(b, id).0.minPrice == b.minPrice && Cancel(b, id).0.maxPrice == b.maxPrice
  {
    LookupHeld(b, id);
    RemoveIds(b.bids, id);
    RemoveIds(b.asks, id);
  }

  lemma CancelReports(b: Book, id: OrderId)
    ensures b.Lookup(id).None? ==> Cancel(b, id) == (b, CancelResult(0, CancelStatus.NotFound))
    ensures b.Lookup(id).Some? ==> Cancel(b, id).1 == CancelResult(b.Lookup(id).value.quantity, CancelStatus.Canceled)
  {
  }

  // ---------- unique ids, whatever the quantities ----------

  lemma {:induction false} InsertKeepsDistinct(side: Side, q: Queue, r: RestingView)
    requires DistinctIds(q) && r.id !in Ids(q)
    ensures DistinctIds(Insert(side, q, r)) && Ids(Insert(side, q, r)) == Ids(q) + {r.id}
  {
    hide DistinctIds, Ids;
    if q == [] || Better(side, r.price, q[0].price) {
      ConsDistinct(r, q);
    } else {
      assert q == [q[0]] + q[1..];
      IdsCons(q[0], q[1..]);
      HeadIdIsAlone(q);
      InsertKeepsDistinct(side, q[1..], r);
      ConsDistinct(q[0], Insert(side, q[1..], r));
    }
  }

  lemma {:induction false} RemoveKeepsDistinct(q: Queue, id: OrderId)
    requires DistinctIds(q)
    ensures DistinctIds(Remove(q, id)) && Ids(Remove(q, id)) == Ids(q) - {id}
  {
    RemoveIds(q, id);
    if q != [] {
      hide DistinctIds, Ids;
      HeadIdIsAlone(q);
      if q[0].id != id {
        RemoveKeepsDistinct(q[1..], id);
        ConsDistinct(q[0], Remove(q[1..], id));
      }
    }
  }

  lemma ReduceKeepsDistinct(q: Queue, id: OrderId, n: int)
    ensures Ids(Reduce(q, id, n)) == Ids(q)
    ensures DistinctIds(q) ==> DistinctIds(Reduce(q, id, n))
  {
    ReduceKeepsPlaces(q, id, n);
    var after := Reduce(q, id, n);
    forall x | x in Ids(after) ensures x in Ids(q) {
      var i :| 0 <= i < |after| && after[i].id == x;
      assert q[i] in q;
    }
    forall x | x in Ids(q) ensures x in Ids(after) {
      var i :| 0 <= i < |q| && q[i].id == x;
      assert after[i] in after;
    }
  }

  lemma RestKeepsUnique(b: Book, side: Side, r: RestingView)
    requires b.UniqueIds() && !b.Holds(r.id)
    ensures Rest(b, side, r).UniqueIds()
    ensures Ids(Rest(b, side, r).On(side)) == Ids(b.On(side)) + {r.id}
    ensures forall x :: Rest(b, side, r).Holds(x) <==> b.Holds(x) || x == r.id
  {
    hide DistinctIds, Ids, Insert;
    InsertKeepsDistinct(side, b.On(side), r);
  }

  lemma CancelKeepsUnique(b: Book, id: OrderId)
    requires b.UniqueIds()
    ensures Cancel(b, id).0.UniqueIds()
    ensures Cancel(b, id).0.minPrice == b.minPrice && Cancel(b, id).0.maxPrice == b.maxPrice
    ensures forall x :: Cancel(b, id).0.Holds(x) <==> b.Holds(x) && x != id
  {
    LookupHeld(b, id);
    hide DistinctIds, Ids, Remove, Find;
    RemoveKeepsDistinct(b.bids, id);
    RemoveKeepsDistinct(b.asks, id);
  }

  lemma ReplayReduceKeepsUnique(b: Book, id: OrderId, n: int)
    requires b.UniqueIds()
    ensures ReplayReduce(b, id, n).0.UniqueIds()
  {
    hide DistinctIds, Ids, Remove, Find, Reduce;
    CancelKeepsUnique(b, id);
    ReduceKeepsDistinct(b.bids, id, n);
    ReduceKeepsDistinct(b.asks, id, n);
  }

  lemma ReplayReplaceKeepsUnique(b: Book, originalId: OrderId, newId: OrderId, newPrice: int, newQuantity: int)
    requires b.UniqueIds()
    ensures ReplayReplace(b, originalId, newId, newPrice, newQuantity).0.UniqueIds()
  {
    hide Book.UniqueIds, Cancel, Rest, Find, Ids;
    CancelKeepsUnique(b, originalId);
    var gone, side := ReplayDelete(b, originalId).0, b.SideOf(originalId);
    if !gone.Holds(newId) {
      RestKeepsUnique(gone, side, RestingView(newPrice, newId, newQuantity, GoodTillCancel));
    }
  }

  // ---------- looking up after a change ----------

  lemma {:induction false} FindInsert(side: Side, q: Queue, r: RestingView, id: OrderId)
    requires r.id !in Ids(q)
    ensures Find(Insert(side, q, r), id) == if id == r.id then Some(r) else Find(q, id)
  {
    if q == [] || Better(side, r.price, q[0].price) {
      assert ([r] + q)[1..] == q;
    } else {
      assert q == [q[0]] + q[1..];
      assert q[0].id in Ids(q) && Ids(q[1..]) <= Ids(q);
      FindInsert(side, q[1..], r, id);
      assert ([q[0]] + Insert(side, q[1..], r))[1..] == Insert(side, q[1..], r);
    }
  }

  lemma {:induction false} FindRemove(q: Queue, gone: OrderId, id: OrderId)
    requires DistinctIds(q)
    ensures Find(Remove(q, gone), id) == if id == gone then None else Find(q, id)
  {
    if q != [] {
      HeadIdIsAlone(q);
      if q[0].id == gone {
        if id == gone { FindAbsent(q[1..], id); }
      } else {
        FindRemove(q[1..], gone, id);
        assert ([q[0]] + Remove(q[1..], gone))[1..] == Remove(q[1..], gone);
      }
    }
  }

  lemma {:induction false} FindReduce(q: Queue, reduced: OrderId, n: int, id: OrderId)
    ensures Find(Reduce(q, reduced, n), id)
         == match Find(q, id)
            case None => None
            case Some(r) => if id == reduced then Some(r.(quantity := r.quantity - n)) else Some(r)
  {
    if q != [] {
      if q[0].id == reduced {
        assert ([q[0].(quantity := q[0].quantity - n)] + q[1..])[1..] == q[1..];
        if id != reduced { FindAbsent(q[1..], id); }
      } else {
        FindReduce(q[1..], reduced, n, id);
        assert ([q[0]] + Reduce(q[1..], reduced, n))[1..] == Reduce(q[1..], reduced, n);
      }
    }
  }
}
