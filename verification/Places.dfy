/** Who stands in front of whom in a queue, and which changes leave that alone. */
module Places {
  import opened Types
  import opened PriceTime
  import opened QueueLemmas

  /** x stands in front of y. */
  ghost predicate Ahead(q: Queue, x: OrderId, y: OrderId) {
    exists i, j :: 0 <= i < j < |q| && q[i].id == x && q[j].id == y
  }

  lemma AheadCons(r: RestingView, q: Queue, x: OrderId, y: OrderId)
    ensures Ahead([r] + q, x, y) <==> (r.id == x && y in Ids(q)) || Ahead(q, x, y)
  {
    var all := [r] + q;
    if Ahead(all, x, y) {
      var i, j :| 0 <= i < j < |all| && all[i].id == x && all[j].id == y;
      assert all[j] == q[j - 1] && q[j - 1] in q;
      if i > 0 { assert all[i] == q[i - 1]; }
    }
    if r.id == x && y in Ids(q) {
      var j :| 0 <= j < |q| && q[j].id == y;
      assert all[0].id == x && all[j + 1].id == y;
    }
    if Ahead(q, x, y) {
      var i, j :| 0 <= i < j < |q| && q[i].id == x && q[j].id == y;
      assert all[i + 1].id == x && all[j + 1].id == y;
    }
  }

  lemma {:induction false} InsertKeepsOrder(side: Side, q: Queue, r: RestingView, x: OrderId, y: OrderId)
    requires x != r.id && y != r.id
    ensures Ahead(Insert(side, q, r), x, y) <==> Ahead(q, x, y)
    ensures y in Ids(Insert(side, q, r)) <==> y in Ids(q)
  {
    if q == [] || Better(side, r.price, q[0].price) {
      AheadCons(r, q, x, y);
    } else {
      InsertKeepsOrder(side, q[1..], r, x, y);
      AheadCons(q[0], Insert(side, q[1..], r), x, y);
      AheadCons(q[0], q[1..], x, y);
      assert q == [q[0]] + q[1..];
    }
  }

  lemma {:induction false} RemoveKeepsOrder(q: Queue, gone: OrderId, x: OrderId, y: OrderId)
    requires x != gone && y != gone
    ensures Ahead(Remove(q, gone), x, y) <==> Ahead(q, x, y)
    ensures y in Ids(Remove(q, gone)) <==> y in Ids(q)
  {
    if q != [] {
      AheadCons(q[0], q[1..], x, y);
      assert q == [q[0]] + q[1..];
      if q[0].id != gone {
        RemoveKeepsOrder(q[1..], gone, x, y);
        AheadCons(q[0], Remove(q[1..], gone), x, y);
      }
    }
  }

  /** A reduction moves nobody: every position still holds the same order at the same price. */
  lemma {:induction false} ReduceKeepsPlaces(q: Queue, id: OrderId, n: int)
    ensures |Reduce(q, id, n)| == |q|
    ensures forall i :: 0 <= i < |q| ==> Reduce(q, id, n)[i].id == q[i].id && Reduce(q, id, n)[i].price == q[i].price
  {
    if q != [] && q[0].id != id {
      ReduceKeepsPlaces(q[1..], id, n);
    }
  }

  lemma ReduceKeepsOrder(q: Queue, id: OrderId, n: int, x: OrderId, y: OrderId)
    ensures Ahead(Reduce(q, id, n), x, y) <==> Ahead(q, x, y)
  {
    ReduceKeepsPlaces(q, id, n);
    var after := Reduce(q, id, n);
    if Ahead(q, x, y) {
      var i, j :| 0 <= i < j < |q| && q[i].id == x && q[j].id == y;
      assert after[i].id == x && after[j].id == y;
    }
    if Ahead(after, x, y) {
      var i, j :| 0 <= i < j < |after| && after[i].id == x && after[j].id == y;
      assert q[i].id == x && q[j].id == y;
    }
  }

  lemma AheadMembers(q: Queue, x: OrderId, y: OrderId)
    ensures Ahead(q, x, y) ==> x in Ids(q) && y in Ids(q)
  {
    if Ahead(q, x, y) {
      var i, j :| 0 <= i < j < |q| && q[i].id == x && q[j].id == y;
      assert q[i] in q && q[j] in q;
    }
  }

  lemma HeadIdIsAlone(q: Queue)
    requires DistinctIds(q) && q != []
    ensures q[0].id !in Ids(q[1..]) && DistinctIds(q[1..])
  {
  }

  lemma LifetimeIds(q: Queue, lifetime: RestingLifetime)
    ensures Ids(WithLifetime(q, lifetime)) <= Ids(q)
  {
    LifetimeMembers(q, lifetime);
  }

  lemma IdsCons(r: RestingView, q: Queue)
    ensures Ids([r] + q) == {r.id} + Ids(q)
  {
  }

  /** Keeping only the orders of one lifetime keeps their places. */
  lemma {:induction false} LifetimeKeepsOrder(q: Queue, lifetime: RestingLifetime, x: OrderId, y: OrderId)
    requires DistinctIds(q) && x in Ids(WithLifetime(q, lifetime)) && y in Ids(WithLifetime(q, lifetime))
    ensures Ahead(WithLifetime(q, lifetime), x, y) <==> Ahead(q, x, y)
  {
    hide Ahead, Ids, DistinctIds;
    if q == [] {
      assert WithLifetime(q, lifetime) == q;
    } else {
      var rest := WithLifetime(q[1..], lifetime);
      HeadIdIsAlone(q);
      LifetimeIds(q[1..], lifetime);
      assert q == [q[0]] + q[1..];
      IdsCons(q[0], rest);
      AheadCons(q[0], q[1..], x, y);
      AheadCons(q[0], rest, x, y);
      AheadMembers(q[1..], x, y);
      AheadMembers(rest, x, y);
      assert [] + rest == rest;
      if x in Ids(rest) && y in Ids(rest) {
        LifetimeKeepsOrder(q[1..], lifetime, x, y);
      }
    }
  }

  /** A sweep takes orders off the front; those it leaves keep their places. */
  lemma {:induction false} SweepKeepsOrder(taker: Side, limit: Option<int>, want: int, q: Queue, x: OrderId, y: OrderId)
    requires DistinctIds(q)
    ensures var left := SweepQueue(taker, limit, want, q).left;
            && DistinctIds(left) && Ids(left) <= Ids(q)
            && (x in Ids(left) && y in Ids(left) ==> (Ahead(left, x, y) <==> Ahead(q, x, y)))
    decreases |q|
  {
    hide Ahead, Ids, DistinctIds;
    if want > 0 && q != [] && Crosses(taker, limit, q[0].price) {
      HeadIdIsAlone(q);
      assert q == [q[0]] + q[1..];
      IdsCons(q[0], q[1..]);
      AheadCons(q[0], q[1..], x, y);
      if q[0].quantity > want {
        var part := q[0].(quantity := q[0].quantity - want);
        IdsCons(part, q[1..]);
        AheadCons(part, q[1..], x, y);
        ConsDistinct(part, q[1..]);
      } else {
        SweepKeepsOrder(taker, limit, want - q[0].quantity, q[1..], x, y);
      }
    }
  }

  lemma ConsDistinct(r: RestingView, q: Queue)
    requires DistinctIds(q) && r.id !in Ids(q)
    ensures DistinctIds([r] + q) && Ids([r] + q) == {r.id} + Ids(q)
  {
    var all := [r] + q;
    forall i, j | 0 <= i < j < |all| ensures all[i].id != all[j].id {
      assert all[j] == q[j - 1] && q[j - 1] in q;
    }
  }

  lemma {:induction false} LifetimeKeepsDistinct(q: Queue, lifetime: RestingLifetime)
    requires DistinctIds(q)
    ensures DistinctIds(WithLifetime(q, lifetime))
  {
    hide Ids, DistinctIds;
    if q == [] {
      assert WithLifetime(q, lifetime) == q;
    } else {
      var rest := WithLifetime(q[1..], lifetime);
      HeadIdIsAlone(q);
      LifetimeIds(q[1..], lifetime);
      LifetimeKeepsDistinct(q[1..], lifetime);
      ConsDistinct(q[0], rest);
      assert [] + rest == rest;
    }
  }
}
