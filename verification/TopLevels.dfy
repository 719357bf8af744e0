/** The occupied price levels of a queue, and the ladder's listing of them. */
module TopLevels {
  import opened Types
  import opened PriceTime
  import opened QueueLemmas
  import opened LadderView
  import opened LadderScans

  function OtherPrices(q: Queue, price: int): (rest: Queue)
    ensures |rest| <= |q|
  {
    if q == [] then []
    else (if q[0].price == price then [] else [q[0]]) + OtherPrices(q[1..], price)
  }

  lemma {:induction false} OtherPricesMembers(q: Queue, price: int)
    ensures forall r :: r in OtherPrices(q, price) <==> r in q && r.price != price
  {
    if q != [] {
      OtherPricesMembers(q[1..], price);
      assert q == [q[0]] + q[1..];
    }
  }

  /** Each price of the queue once, in the order they first occur, with the shares there are at it. */
  function Occupied(q: Queue): seq<PriceVolume>
    decreases |q|
  {
    if q == [] then []
    else [(q[0].price, ShownVolume(AtPrice(q, q[0].price)))] + Occupied(OtherPrices(q[1..], q[0].price))
  }

  // ---------- the ladder lists the occupied prices of its queue ----------

  lemma {:induction false} OtherPricesConcat(a: Queue, b: Queue, price: int)
    ensures OtherPrices(a + b, price) == OtherPrices(a, price) + OtherPrices(b, price)
  {
    if a == [] {
      assert a + b == b;
    } else {
      OtherPricesConcat(a[1..], b, price);
      assert (a + b)[0] == a[0] && (a + b)[1..] == a[1..] + b;
      ConcatAssoc(if a[0].price == price then [] else [a[0]], OtherPrices(a[1..], price), OtherPrices(b, price));
    }
  }

  lemma {:induction false} OtherPricesAll(q: Queue, price: int)
    requires forall r :: r in q ==> r.price != price
    ensures OtherPrices(q, price) == q
  {
    if q != [] {
      assert q[0] in q;
      OtherPricesAll(q[1..], price);
    }
  }

  lemma {:induction false} OtherPricesNone(q: Queue, price: int)
    requires forall r :: r in q ==> r.price == price
    ensures OtherPrices(q, price) == []
  {
    if q != [] {
      assert q[0] in q;
      OtherPricesNone(q[1..], price);
    }
  }

  ghost predicate NoSharedPrice(a: Queue, b: Queue) {
    forall x, y :: x in a && y in b ==> x.price != y.price
  }

  /** Parts of a queue with no price in common are listed one after the other. */
  lemma {:induction false} OccupiedConcat(a: Queue, b: Queue)
    requires NoSharedPrice(a, b)
    ensures Occupied(a + b) == Occupied(a) + Occupied(b)
    decreases |a|
  {
    if a == [] {
      assert a + b == b;
    } else {
      hide AtPrice, OtherPrices, ShownVolume;
      var price, rest := a[0].price, OtherPrices(a[1..], a[0].price);
      assert (a + b)[0] == a[0] && (a + b)[1..] == a[1..] + b;
      assert a[0] in a;
      AtPriceConcat(a, b, price);
      AtPriceNone(b, price);
      OtherPricesConcat(a[1..], b, price);
      OtherPricesAll(b, price);
      OtherPricesMembers(a[1..], price);
      forall x, y | x in rest && y in b ensures x.price != y.price {
        assert x in a;
      }
      OccupiedConcat(rest, b);
      assert AtPrice(a, price) + [] == AtPrice(a, price);
      ConcatAssoc([(price, ShownVolume(AtPrice(a, price)))], Occupied(rest), Occupied(b));
    }
  }

  lemma OccupiedLevel(v: Queue, price: int)
    requires forall r :: r in v ==> r.price == price
    ensures Occupied(v) == LevelSummary(price, v)
  {
    if v != [] {
      assert v[0] in v;
      AtPriceAll(v, price);
      OtherPricesNone(v[1..], price);
    }
  }

  lemma LevelPrices(side: Side, views: Views, minPrice: int)
    requires Priced(views, minPrice) && views != []
    ensures Priced(views[1..], minPrice + 1)
    ensures forall r :: r in views[0] ==> r.price == minPrice
    ensures forall r :: r in Flatten(side, views[1..]) ==> r.price > minPrice
  {
    var rest := views[1..];
    assert forall i :: 0 <= i < |rest| ==> rest[i] == views[i + 1];
    PartPrices(side, views, minPrice, 1, |views|);
    assert views[1..|views|] == rest;
  }

  lemma {:induction false} SummaryIsOccupied(side: Side, minPrice: int, views: Views)
    requires Priced(views, minPrice)
    ensures Summary(side, minPrice, views) == Occupied(Flatten(side, views))
    decreases |views|
  {
    hide Occupied, Priced;
    if views == [] {
      NothingOccupied();
    } else {
      LevelPrices(side, views, minPrice);
      SummaryIsOccupied(side, minPrice + 1, views[1..]);
      OccupiedLevel(views[0], minPrice);
      if side.Sell? {
        OccupiedConcat(views[0], Flatten(side, views[1..]));
      } else {
        OccupiedConcat(Flatten(side, views[1..]), views[0]);
      }
    }
  }

  lemma NothingOccupied()
    ensures Occupied([]) == []
  {
  }

  // ---------- what the list says ----------

  /** An entry is a price at which there are orders, with exactly their shares, and every such price has its entry. */
  lemma {:induction false} OccupiedEntries(q: Queue, price: int, volume: int)
    ensures (price, volume) in Occupied(q) <==> AtPrice(q, price) != [] && volume == ShownVolume(AtPrice(q, price))
    decreases |q|
  {
    if q != [] {
      var first := q[0].price;
      var rest := OtherPrices(q[1..], first);
      OccupiedEntries(rest, price, volume);
      var entry := (first, ShownVolume(AtPrice(q, first)));
      assert (price, volume) in Occupied(q) <==> (price, volume) == entry || (price, volume) in Occupied(rest);
      if price != first {
        AtOtherPrice(q[1..], first, price);
        assert [] + AtPrice(q[1..], price) == AtPrice(q[1..], price);
      } else {
        OtherPricesMembers(q[1..], first);
        AtPriceNone(rest, first);
      }
    }
  }

  lemma {:induction false} AtOtherPrice(q: Queue, dropped: int, price: int)
    requires price != dropped
    ensures AtPrice(OtherPrices(q, dropped), price) == AtPrice(q, price)
  {
    if q != [] {
      AtOtherPrice(q[1..], dropped, price);
      var rest := OtherPrices(q[1..], dropped);
      assert [] + rest == rest && ([q[0]] + rest)[1..] == rest;
      assert [] + AtPrice(q[1..], price) == AtPrice(q[1..], price);
    }
  }

  /** A queue in price-time order is listed strictly best price first. */
  lemma {:induction false} OccupiedBestFirst(side: Side, q: Queue)
    requires Sorted(side, q)
    ensures var list := Occupied(q); forall i, j :: 0 <= i < j < |list| ==> Better(side, list[i].0, list[j].0)
    decreases |q|
  {
    if q != [] {
      var rest := OtherPrices(q[1..], q[0].price);
      OtherPricesSorted(side, q[1..], q[0].price);
      OccupiedBestFirst(side, rest);
      var later := Occupied(rest);
      OtherPricesMembers(q[1..], q[0].price);
      forall j | 0 <= j < |later| ensures Better(side, q[0].price, later[j].0) {
        OccupiedEntries(rest, later[j].0, later[j].1);
        var r := AtPriceWitness(rest, later[j].0);
        var k :| 1 <= k < |q| && q[k] == r;
      }
    }
  }

  lemma {:induction false} AtPriceWitness(q: Queue, price: int) returns (r: RestingView)
    requires AtPrice(q, price) != []
    ensures r in q && r.price == price
  {
    if q[0].price == price {
      r := q[0];
    } else {
      r := AtPriceWitness(q[1..], price);
    }
  }

  lemma {:induction false} OtherPricesSorted(side: Side, q: Queue, price: int)
    requires Sorted(side, q)
    ensures Sorted(side, OtherPrices(q, price))
  {
    if q != [] {
      OtherPricesSorted(side, q[1..], price);
      OtherPricesMembers(q[1..], price);
      forall r | r in OtherPrices(q[1..], price) ensures !Better(side, r.price, q[0].price) {
        var k :| 1 <= k < |q| && q[k] == r;
      }
    }
  }
}
