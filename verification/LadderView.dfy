/** A dense array of price levels read as one price-time queue. Views are indexed by price - minPrice. */
module LadderView {
  import opened Types
  import opened PriceTime
  import opened QueueLemmas
  import opened Chains

  type Views = seq<Queue>

  /** Best level first: asks from the lowest price up, bids from the highest price down. */
  function Flatten(side: Side, views: Views): Queue {
    if views == [] then []
    else if side.Sell? then views[0] + Flatten(side, views[1..])
    else Flatten(side, views[1..]) + views[0]
  }

  function Ahead(side: Side, views: Views, i: nat): Queue
    requires i < |views|
  {
    if side.Sell? then Flatten(side, views[..i]) else Flatten(side, views[i + 1..])
  }

  function Behind(side: Side, views: Views, i: nat): Queue
    requires i < |views|
  {
    if side.Sell? then Flatten(side, views[i + 1..]) else Flatten(side, views[..i])
  }

  ghost predicate Priced(views: Views, minPrice: int) {
    forall i, j :: 0 <= i < |views| && 0 <= j < |views[i]| ==> views[i][j].price == minPrice + i
  }

  /** The cached best price is the best non-empty level, and null only when there is none. */
  ghost predicate BestIs(side: Side, minPrice: int, views: Views, best: Option<int>) {
    match best
    case None => forall i :: 0 <= i < |views| ==> views[i] == []
    case Some(p) =>
      && 0 <= p - minPrice < |views| && views[p - minPrice] != []
      && forall i :: 0 <= i < |views| && Better(side, minPrice + i, p) ==> views[i] == []
  }

  ghost predicate NoneBetter(side: Side, minPrice: int, views: Views, price: int) {
    forall j :: 0 <= j < |views| && Better(side, minPrice + j, price) ==> views[j] == []
  }

  /** Where a scan that starts at `start` and only ever moves to worse prices ends. */
  ghost predicate ScanFrom(side: Side, minPrice: int, views: Views, start: int, best: Option<int>) {
    match best
    case None => forall i :: 0 <= i < |views| && !Better(side, minPrice + i, start) ==> views[i] == []
    case Some(p) =>
      && 0 <= p - minPrice < |views| && views[p - minPrice] != [] && !Better(side, p, start)
      && forall i :: 0 <= i < |views| && !Better(side, minPrice + i, start) && Better(side, minPrice + i, p)
                     ==> views[i] == []
  }

  function Top(q: Queue): Option<int> {
    if q == [] then None else Some(q[0].price)
  }

  // ---------- splitting a flattened ladder at a level ----------

  lemma {:induction false} FlattenConcat(side: Side, a: Views, b: Views)
    ensures Flatten(side, a + b)
         == if side.Sell? then Flatten(side, a) + Flatten(side, b) else Flatten(side, b) + Flatten(side, a)
  {
    if a == [] {
      assert a + b == b;
    } else {
      FlattenConcat(side, a[1..], b);
      assert (a + b)[0] == a[0] && (a + b)[1..] == a[1..] + b;
      ConcatAssoc(a[0], Flatten(side, a[1..]), Flatten(side, b));
      ConcatAssoc(Flatten(side, b), Flatten(side, a[1..]), a[0]);
    }
  }

  lemma FlattenOne(side: Side, v: Queue)
    ensures Flatten(side, [v]) == v
  {
  }

  lemma FlattenSplit(side: Side, views: Views, i: nat)
    requires i < |views|
    ensures Flatten(side, views) == Ahead(side, views, i) + views[i] + Behind(side, views, i)
  {
    assert views == views[..i] + ([views[i]] + views[i + 1..]);
    FlattenConcat(side, views[..i], [views[i]] + views[i + 1..]);
    FlattenConcat(side, [views[i]], views[i + 1..]);
    FlattenOne(side, views[i]);
    ConcatAssoc(Ahead(side, views, i), views[i], Behind(side, views, i));
  }

  /** Changing one level changes the queue only between what is ahead of it and what is behind. */
  lemma FlattenUpdate(side: Side, views: Views, i: nat, v: Queue)
    requires i < |views|
    ensures Flatten(side, views[i := v]) == Ahead(side, views, i) + v + Behind(side, views, i)
  {
    FlattenSplit(side, views[i := v], i);
    assert views[i := v][..i] == views[..i];
    assert views[i := v][i + 1..] == views[i + 1..];
  }

  lemma {:induction false} FlattenEmpty(side: Side, views: Views)
    ensures Flatten(side, views) == [] <==> forall i :: 0 <= i < |views| ==> views[i] == []
  {
    if views != [] {
      FlattenEmpty(side, views[1..]);
      assert forall i :: 1 <= i < |views| ==> views[i] == views[1..][i - 1];
    }
  }

  lemma {:induction false} FlattenMember(side: Side, views: Views, r: RestingView)
    ensures r in Flatten(side, views) <==> exists i :: 0 <= i < |views| && r in views[i]
  {
    if views != [] {
      FlattenMember(side, views[1..], r);
      assert forall i :: 1 <= i < |views| ==> views[i] == views[1..][i - 1];
      if r in Flatten(side, views[1..]) {
        var i :| 0 <= i < |views[1..]| && r in views[1..][i];
        assert r in views[i + 1];
      }
    }
  }

  lemma NeighboursByPrice(side: Side, views: Views, minPrice: int, i: nat)
    requires Priced(views, minPrice) && i < |views|
    ensures forall r :: r in Ahead(side, views, i) ==> Better(side, r.price, minPrice + i)
    ensures forall r :: r in Behind(side, views, i) ==> Better(side, minPrice + i, r.price)
  {
    forall r | r in Flatten(side, views[..i]) ensures r.price < minPrice + i {
      FlattenMember(side, views[..i], r);
      var j :| 0 <= j < i && r in views[..i][j];
      assert r in views[j];
    }
    forall r | r in Flatten(side, views[i + 1..]) ensures r.price > minPrice + i {
      FlattenMember(side, views[i + 1..], r);
      var j :| 0 <= j < |views| - i - 1 && r in views[i + 1..][j];
      assert r in views[i + 1 + j];
    }
  }

  // ---------- the cached best price ----------

  lemma NothingAhead(side: Side, views: Views, minPrice: int, i: nat)
    requires i < |views|
    requires forall j :: 0 <= j < |views| && Better(side, minPrice + j, minPrice + i) ==> views[j] == []
    ensures Ahead(side, views, i) == []
    ensures Flatten(side, views) == views[i] + Behind(side, views, i)
  {
    hide Flatten;
    FlattenSplit(side, views, i);
    if side.Buy? {
      AllEmpty(side, views[i + 1..], views, i + 1);
    } else {
      AllEmpty(side, views[..i], views, 0);
    }
  }

  lemma AllEmpty(side: Side, part: Views, views: Views, from: nat)
    requires from + |part| <= |views| && part == views[from..from + |part|]
    requires forall j :: from <= j < from + |part| ==> views[j] == []
    ensures Flatten(side, part) == []
  {
    FlattenEmpty(side, part);
    forall j | 0 <= j < |part| ensures part[j] == [] {
      assert part[j] == views[from + j];
    }
  }

  lemma BestIsTop(side: Side, minPrice: int, views: Views, best: Option<int>)
    requires BestIs(side, minPrice, views, best) && Priced(views, minPrice)
    ensures best == Top(Flatten(side, views))
  {
    hide Flatten, Behind;
    match best
    case None => FlattenEmpty(side, views);
    case Some(p) => NothingAhead(side, views, minPrice, p - minPrice);
  }

  lemma {:induction false} ScanFindsBest(side: Side, minPrice: int, views: Views, start: int, best: Option<int>)
    requires ScanFrom(side, minPrice, views, start, best)
    requires NoneBetter(side, minPrice, views, start)
    ensures BestIs(side, minPrice, views, best)
  {
  }

  // ---------- ladder updates as queue updates ----------

  /** Working on the front of the best level is working on the front of the queue. */
  lemma FrontOfBest(side: Side, views: Views, minPrice: int, p: int, v: Queue)
    requires BestIs(side, minPrice, views, Some(p))
    ensures views[p - minPrice] != [] && Flatten(side, views) != []
    ensures Flatten(side, views)[0] == views[p - minPrice][0]
    ensures Flatten(side, views[p - minPrice := v + views[p - minPrice][1..]]) == v + Flatten(side, views)[1..]
  {
    var i := p - minPrice;
    NothingAhead(side, views, minPrice, i);
    FlattenUpdate(side, views, i, v + views[i][1..]);
    ConcatAssoc(v, views[i][1..], Behind(side, views, i));
    assert Flatten(side, views)[1..] == views[i][1..] + Behind(side, views, i);
  }

  lemma AppendIsInsert(side: Side, views: Views, minPrice: int, i: nat, r: RestingView)
    requires Priced(views, minPrice) && i < |views| && r.price == minPrice + i
    ensures Flatten(side, views[i := views[i] + [r]]) == Insert(side, Flatten(side, views), r)
  {
    FlattenSplit(side, views, i);
    FlattenUpdate(side, views, i, views[i] + [r]);
    NeighboursByPrice(side, views, minPrice, i);
    var front := Ahead(side, views, i) + views[i];
    forall a | a in front ensures !Better(side, r.price, a.price) {
      if a in views[i] { var j :| 0 <= j < |views[i]| && views[i][j] == a; }
    }
    InsertBetween(side, front, Behind(side, views, i), r);
    ConcatAssoc(Ahead(side, views, i), views[i], [r]);
  }

  lemma RemoveFromLevel(side: Side, views: Views, i: nat, k: nat)
    requires i < |views| && k < |views[i]| && DistinctIds(Flatten(side, views))
    ensures Flatten(side, views[i := Without(views[i], k)]) == Remove(Flatten(side, views), views[i][k].id)
  {
    var a, b := Ahead(side, views, i) + views[i][..k], views[i][k + 1..] + Behind(side, views, i);
    SplitAt(side, views, i, k);
    FlattenUpdate(side, views, i, Without(views[i], k));
    assert Ahead(side, views, i) + Without(views[i], k) + Behind(side, views, i) == a + b;
    RemoveBetween(a, views[i][k], b);
  }

  lemma ReduceInLevel(side: Side, views: Views, i: nat, k: nat, n: int)
    requires i < |views| && k < |views[i]| && DistinctIds(Flatten(side, views))
    ensures var r := views[i][k];
            Flatten(side, views[i := views[i][k := r.(quantity := r.quantity - n)]])
                == Reduce(Flatten(side, views), r.id, n)
  {
    var r := views[i][k];
    var less := r.(quantity := r.quantity - n);
    var a, b := Ahead(side, views, i) + views[i][..k], views[i][k + 1..] + Behind(side, views, i);
    SplitAt(side, views, i, k);
    FlattenUpdate(side, views, i, views[i][k := less]);
    assert Ahead(side, views, i) + views[i][k := less] + Behind(side, views, i) == a + [less] + b;
    ReduceBetween(a, r, b, n);
  }

  lemma SplitAt(side: Side, views: Views, i: nat, k: nat)
    requires i < |views| && k < |views[i]|
    ensures Flatten(side, views)
         == (Ahead(side, views, i) + views[i][..k]) + [views[i][k]] + (views[i][k + 1..] + Behind(side, views, i))
  {
    hide Flatten, Ahead, Behind;
    var v := views[i];
    FlattenSplit(side, views, i);
    assert v == v[..k] + [v[k]] + v[k + 1..];
    Regroup(Ahead(side, views, i), v[..k], [v[k]], v[k + 1..], Behind(side, views, i));
  }

  lemma Regroup<T>(a: seq<T>, b: seq<T>, c: seq<T>, d: seq<T>, e: seq<T>)
    ensures a + (b + c + d) + e == (a + b) + c + (d + e)
  {
  }

  /** Pruning level by level prunes the queue. */
  lemma {:induction false} FlattenLifetime(side: Side, views: Views, kept: Views, lifetime: RestingLifetime)
    requires |kept| == |views|
    requires forall i :: 0 <= i < |views| ==> kept[i] == WithLifetime(views[i], lifetime)
    ensures Flatten(side, kept) == WithLifetime(Flatten(side, views), lifetime)
  {
    if views != [] {
      FlattenLifetime(side, views[1..], kept[1..], lifetime);
      if side.Sell? {
        WithLifetimeConcat(views[0], Flatten(side, views[1..]), lifetime);
      } else {
        WithLifetimeConcat(Flatten(side, views[1..]), views[0], lifetime);
      }
    }
  }

  // ---------- ids ----------

  lemma DistinctConcat(a: Queue, b: Queue)
    requires DistinctIds(a) && DistinctIds(b) && Ids(a) !! Ids(b)
    ensures DistinctIds(a + b)
  {
    forall i, j | 0 <= i < |a| && 0 <= j < |b| ensures a[i].id != b[j].id {
      assert a[i].id in Ids(a) && b[j].id in Ids(b);
    }
  }

  lemma FlattenIds(side: Side, views: Views, id: OrderId)
    ensures id in Ids(Flatten(side, views)) <==> exists i :: 0 <= i < |views| && id in Ids(views[i])
  {
    if id in Ids(Flatten(side, views)) {
      var r :| r in Flatten(side, views) && r.id == id;
      FlattenMember(side, views, r);
      var i :| 0 <= i < |views| && r in views[i];
      assert id in Ids(views[i]);
    }
    if i :| 0 <= i < |views| && id in Ids(views[i]) {
      var r :| r in views[i] && r.id == id;
      FlattenMember(side, views, r);
    }
  }

  lemma {:induction false} FlattenDistinct(side: Side, views: Views)
    requires forall i :: 0 <= i < |views| ==> DistinctIds(views[i])
    requires forall i, j :: 0 <= i < j < |views| ==> Ids(views[i]) !! Ids(views[j])
    ensures DistinctIds(Flatten(side, views))
  {
    if views != [] {
      var rest := views[1..];
      hide DistinctIds, Ids;
      assert forall i :: 0 <= i < |rest| ==> rest[i] == views[i + 1];
      FlattenDistinct(side, rest);
      forall id | id in Ids(views[0]) ensures id !in Ids(Flatten(side, rest)) {
        FlattenIds(side, rest, id);
      }
      DistinctConcat(views[0], Flatten(side, rest));
      DistinctConcat(Flatten(side, rest), views[0]);
    }
  }
}
