/** The liquidity scan: a running 64-bit total over the levels an order crosses, best first, that stops when it
    suffices. */
module LiquidityScan {
  import opened Types
  import opened PriceTime
  import opened QueueLemmas
  import opened LadderView
  import opened LadderScans
  import opened TopLevels

  /** Whether the total, wrapping at each addition, reaches what is required at one of the levels. */
  predicate ScanEnough(levels: seq<PriceVolume>, total: int, required: int)
    decreases |levels|
  {
    levels != []
    && var sum := WrapU64(total + levels[0].1);
       sum >= required || ScanEnough(levels[1..], sum, required)
  }

  /** What the scan says of an order of side `taker`. The signed quantity it requires is compared as an unsigned one. */
  predicate LooksLiquid(taker: Side, limit: Option<int>, q: Queue, required: int) {
    ScanEnough(Occupied(Crossing(taker, limit, q)), 0, WrapU64(required))
  }

  // ---------- one level more ----------

  lemma ScanSkips(rest: seq<PriceVolume>, price: int, total: int, required: int)
    ensures ScanEnough(LevelSummary(price, []) + rest, total, required) == ScanEnough(rest, total, required)
  {
    assert [] + rest == rest;
  }

  lemma ScanStep(rest: seq<PriceVolume>, price: int, v: Queue, total: int, required: int)
    requires v != []
    ensures var sum := WrapU64(total + ShownVolume(v));
            ScanEnough(LevelSummary(price, v) + rest, total, required)
            <==> sum >= required || ScanEnough(rest, sum, required)
  {
    assert ([(price, ShownVolume(v))] + rest)[1..] == rest;
  }

  /** The best of a range of bids is its last level. */
  lemma SummaryTop(minPrice: int, views: Views, lo: nat, i: nat)
    requires lo <= i < |views|
    ensures SummaryOf(Buy, minPrice, views, lo, i + 1)
         == LevelSummary(minPrice + i, views[i]) + SummaryOf(Buy, minPrice, views, lo, i)
  {
    hide Summary, LevelSummary;
    assert views[lo..i + 1] == views[lo..i] + [views[i]];
    SummaryConcat(Buy, minPrice + lo, views[lo..i], [views[i]]);
    SummaryOne(Buy, minPrice + i, views[i]);
  }

  /** The best of a range of asks is its first level. */
  lemma SummaryBottom(minPrice: int, views: Views, i: nat, hi: nat)
    requires i < hi <= |views|
    ensures SummaryOf(Sell, minPrice, views, i, hi)
         == LevelSummary(minPrice + i, views[i]) + SummaryOf(Sell, minPrice, views, i + 1, hi)
  {
    assert views[i..hi][1..] == views[i + 1..hi];
  }

  /** A range of levels lists the occupied prices of its orders. */
  lemma RangeIsOccupied(side: Side, minPrice: int, views: Views, lo: nat, hi: nat)
    requires Priced(views, minPrice) && lo <= hi <= |views|
    ensures SummaryOf(side, minPrice, views, lo, hi) == Occupied(Flatten(side, views[lo..hi]))
  {
    hide Summary, Occupied, Flatten;
    var part: Views := views[lo..hi];
    forall i, j | 0 <= i < |part| && 0 <= j < |part[i]| ensures part[i][j].price == minPrice + lo + i {
      assert part[i] == views[lo + i];
    }
    SummaryIsOccupied(side, minPrice + lo, part);
  }

  // ---------- what the scan decides ----------

  /** What every level of a real book satisfies: 32-bit quantities, and fewer than 2^32 orders at a price. */
  ghost predicate Bounded(q: Queue) {
    && (forall i :: 0 <= i < |q| ==> IsInt32(q[i].quantity))
    && (forall price :: |AtPrice(q, price)| <= UINT32_MAX)
  }

  lemma {:induction false} AtPriceMembers(q: Queue, price: int)
    ensures forall r :: r in AtPrice(q, price) ==> r in q
  {
    if q != [] {
      AtPriceMembers(q[1..], price);
      assert q == [q[0]] + q[1..];
    }
  }

  lemma {:induction false} PriceApart(q: Queue, price: int)
    ensures Shares(q) == Shares(AtPrice(q, price)) + Shares(OtherPrices(q, price))
  {
    if q != [] {
      PriceApart(q[1..], price);
      var at, other := AtPrice(q[1..], price), OtherPrices(q[1..], price);
      if q[0].price == price {
        assert ([q[0]] + at)[1..] == at && [] + other == other;
      } else {
        assert ([q[0]] + other)[1..] == other && [] + at == at;
      }
    }
  }

  lemma {:induction false} OtherPricesCounts(q: Queue, dropped: int, price: int)
    ensures |AtPrice(OtherPrices(q, dropped), price)| <= |AtPrice(q, price)|
  {
    if q != [] {
      OtherPricesCounts(q[1..], dropped, price);
      var rest := OtherPrices(q[1..], dropped);
      assert [] + rest == rest && ([q[0]] + rest)[1..] == rest;
    }
  }

  lemma FirstLevel(q: Queue)
    requires q != [] && Positive(q) && Bounded(q)
    ensures var v, rest := AtPrice(q, q[0].price), OtherPrices(q[1..], q[0].price);
            && v != [] && 0 <= Shares(v) < TWO_TO_63 && ShownVolume(v) == Shares(v)
            && Shares(q) == Shares(v) + Shares(rest)
            && Positive(rest) && Bounded(rest) && Shares(rest) >= 0
  {
    hide Shares, AtPrice, OtherPrices, WrapU64, Positive, Bounded;
    var price := q[0].price;
    FirstApart(q);
    PriceApart(q, price);
    AtPriceMembers(q, price);
    LevelIsBounded(q, AtPrice(q, price), price);
    OtherPricesMembers(q, price);
    PartIsBounded(q, OtherPrices(q, price));
    PositiveShares(OtherPrices(q, price));
    forall p ensures |AtPrice(OtherPrices(q, price), p)| <= |AtPrice(q, p)| { OtherPricesCounts(q, price, p); }
    CountsBounded(q, OtherPrices(q, price));
  }

  lemma PartIsBounded(q: Queue, part: Queue)
    requires Positive(q) && Bounded(q) && forall r :: r in part ==> r in q
    ensures Positive(part) && forall i :: 0 <= i < |part| ==> IsInt32(part[i].quantity)
  {
    forall i | 0 <= i < |part| ensures 0 < part[i].quantity && IsInt32(part[i].quantity) {
      assert part[i] in q;
      var k :| 0 <= k < |q| && q[k] == part[i];
    }
  }

  lemma CountsBounded(q: Queue, part: Queue)
    requires Bounded(q) && forall i :: 0 <= i < |part| ==> IsInt32(part[i].quantity)
    requires forall p :: |AtPrice(part, p)| <= |AtPrice(q, p)|
    ensures Bounded(part)
  {
  }

  lemma LevelIsBounded(q: Queue, v: Queue, price: int)
    requires Positive(q) && Bounded(q) && v == AtPrice(q, price) && forall r :: r in v ==> r in q
    ensures 0 <= Shares(v) < TWO_TO_63 && ShownVolume(v) == Shares(v)
  {
    hide Shares, AtPrice;
    PartIsBounded(q, v);
    PositiveShares(v);
    SharesBound(v);
  }

  /** Over positive orders the running total never wraps: the scan compares the shares of all of them. */
  lemma {:induction false} ScanAddsUp(q: Queue, total: int, required: int)
    requires Positive(q) && Bounded(q) && 0 <= total < required <= INT32_MAX
    ensures ScanEnough(Occupied(q), total, required) <==> total + Shares(q) >= required
    decreases |q|
  {
    hide Positive, Bounded, AtPrice, Shares, OtherPrices, ShownVolume;
    if q == [] {
      NoShares();
    } else {
      FirstLevel(q);
      var v, rest := AtPrice(q, q[0].price), OtherPrices(q[1..], q[0].price);
      var list := Occupied(q);
      assert list[0].1 == Shares(v) && list[1..] == Occupied(rest);
      var sum := total + Shares(v);
      if sum < required { ScanAddsUp(rest, sum, required); }
    }
  }

  lemma NoShares()
    ensures Shares([]) == 0
  {
  }

  lemma {:induction false} CrossingPart(taker: Side, limit: Option<int>, q: Queue, price: int)
    ensures forall r :: r in Crossing(taker, limit, q) ==> r in q
    ensures |AtPrice(Crossing(taker, limit, q), price)| <= |AtPrice(q, price)|
  {
    if q != [] {
      CrossingPart(taker, limit, q[1..], price);
      var rest := Crossing(taker, limit, q[1..]);
      assert q == [q[0]] + q[1..];
      assert [] + rest == rest && ([q[0]] + rest)[1..] == rest;
    }
  }

  /** The scan says there is enough exactly when the crossing orders, together, have the shares. */
  lemma LiquidIsMarketable(taker: Side, limit: Option<int>, q: Queue, required: int)
    requires Positive(q) && Bounded(q) && 0 < required <= INT32_MAX
    ensures LooksLiquid(taker, limit, q, required) <==> Marketable(taker, limit, q) >= required
  {
    var c := Crossing(taker, limit, q);
    forall i | 0 <= i < |c| ensures c[i].quantity > 0 && IsInt32(c[i].quantity) {
      CrossingPart(taker, limit, q, 0);
      assert c[i] in q;
      var k :| 0 <= k < |q| && q[k] == c[i];
    }
    forall p ensures |AtPrice(c, p)| <= UINT32_MAX {
      CrossingPart(taker, limit, q, p);
    }
    ScanAddsUp(c, 0, required);
  }

  lemma {:induction false} PositiveShares(q: Queue)
    requires Positive(q)
    ensures Shares(q) >= 0
  {
    if q != [] { PositiveShares(q[1..]); }
  }

  // ---------- what the scan decides, whatever the quantities ----------

  /** The first k orders of a sorted queue are all the orders of some levels. */
  predicate LevelEnd(q: Queue, k: int) {
    0 < k <= |q| && (k < |q| ==> q[k].price != q[k - 1].price)
  }

  /** The best levels, however many, show a running total that suffices. */
  ghost predicate ShowsEnough(q: Queue, total: int, required: int) {
    exists k :: LevelEnd(q, k) && WrapU64(total + Shares(q[..k])) >= required
  }

  /** In a sorted queue the orders at a price that nothing is better than come first. */
  lemma {:induction false} BestLevelFirst(side: Side, q: Queue, price: int)
    requires Sorted(side, q) && forall r :: r in q ==> !Better(side, r.price, price)
    ensures q == AtPrice(q, price) + OtherPrices(q, price)
  {
    hide Sorted, Better;
    if q != [] {
      var at, other := AtPrice(q[1..], price), OtherPrices(q[1..], price);
      SortedTail(side, q);
      assert q == [q[0]] + q[1..];
      if q[0].price == price {
        BestLevelFirst(side, q[1..], price);
        assert [] + other == other;
        ConcatAssoc([q[0]], at, other);
      } else {
        NoneAtPrice(side, q, price);
        AtPriceNone(q, price);
        OtherPricesAll(q, price);
        assert [] + q == q;
      }
    }
  }

  lemma {:induction false} PricesAt(q: Queue, price: int)
    ensures forall r :: r in AtPrice(q, price) ==> r.price == price
  {
    if q != [] { PricesAt(q[1..], price); }
  }

  lemma NoneAtPrice(side: Side, q: Queue, price: int)
    requires Sorted(side, q) && q != [] && q[0].price != price && !Better(side, q[0].price, price)
    ensures forall r :: r in q ==> r.price != price
  {
    forall r | r in q ensures r.price != price {
      var i :| 0 <= i < |q| && q[i] == r;
      assert i == 0 || !Better(side, q[i].price, q[0].price);
    }
  }

  lemma SharesOfParts(v: Queue, rest: Queue)
    ensures forall k :: 0 <= k <= |rest| ==> Shares((v + rest)[..|v| + k]) == Shares(v) + Shares(rest[..k])
  {
    forall k | 0 <= k <= |rest| ensures Shares((v + rest)[..|v| + k]) == Shares(v) + Shares(rest[..k]) {
      assert (v + rest)[..|v| + k] == v + rest[..k];
      SharesConcat(v, rest[..k]);
    }
  }

  /** The first level, and then the others. */
  lemma ShowsLevelByLevel(v: Queue, rest: Queue, price: int, total: int, required: int)
    requires v != [] && forall i :: 0 <= i < |v| ==> v[i].price == price
    requires forall i :: 0 <= i < |rest| ==> rest[i].price != price
    ensures var sum := WrapU64(total + ShownVolume(v));
            ShowsEnough(v + rest, total, required) <==> sum >= required || ShowsEnough(rest, sum, required)
  {
    hide Shares, WrapU64, ShownVolume, LevelEnd;
    var q, n, sum := v + rest, |v|, WrapU64(total + ShownVolume(v));
    LevelEnds(v, rest, price);
    LevelEndInside();
    RunningTotals(v, rest, total);
    if ShowsEnough(q, total, required) {
      var k :| LevelEnd(q, k) && WrapU64(total + Shares(q[..k])) >= required;
      assert q[..n + (k - n)] == q[..k];
      assert if k > n then LevelEnd(rest, k - n) else q[..n + 0] == q[..k];
    }
    if sum >= required { assert q[..n + 0] == q[..n]; }
    if ShowsEnough(rest, sum, required) {
      var k :| LevelEnd(rest, k) && WrapU64(sum + Shares(rest[..k])) >= required;
      assert LevelEnd(q, n + k);
    }
  }

  lemma LevelEndInside()
    ensures forall q: Queue, k :: LevelEnd(q, k) ==> 0 < k <= |q|
  {
  }

  /** The running total at the end of some level is that of the levels behind the first, carried on from there. */
  lemma RunningTotals(v: Queue, rest: Queue, total: int)
    ensures var sum := WrapU64(total + ShownVolume(v));
            && WrapU64(total + Shares((v + rest)[..|v| + 0])) == sum
            && forall k :: 0 <= k <= |rest| ==>
                 WrapU64(total + Shares((v + rest)[..|v| + k])) == WrapU64(sum + Shares(rest[..k]))
  {
    hide Shares, WrapU64, ShownVolume;
    SharesOfParts(v, rest);
    SharesOfNothing(rest);
    SumCarriesOn(v, total, 0);
    forall k | 0 <= k <= |rest|
      ensures WrapU64(total + Shares((v + rest)[..|v| + k]))
           == WrapU64(WrapU64(total + ShownVolume(v)) + Shares(rest[..k]))
    {
      SumCarriesOn(v, total, Shares(rest[..k]));
    }
  }

  lemma LevelEnds(v: Queue, rest: Queue, price: int)
    requires v != [] && forall i :: 0 <= i < |v| ==> v[i].price == price
    requires forall i :: 0 <= i < |rest| ==> rest[i].price != price
    ensures LevelEnd(v + rest, |v|) && forall k :: LevelEnd(v + rest, k) ==> k >= |v|
    ensures forall k :: LevelEnd(v + rest, |v| + k) && k > 0 <==> LevelEnd(rest, k)
  {
    var q := v + rest;
    assert forall i :: 0 <= i < |v| ==> q[i] == v[i];
    forall k ensures LevelEnd(q, |v| + k) && k > 0 <==> LevelEnd(rest, k) {
      if 0 < k < |rest| { assert q[|v| + k] == rest[k] && q[|v| + k - 1] == rest[k - 1]; }
    }
  }

  lemma SharesOfNothing(q: Queue)
    ensures Shares(q[..0]) == 0
  {
  }

  lemma SumCarriesOn(v: Queue, total: int, x: int)
    ensures WrapU64(WrapU64(total + ShownVolume(v)) + x) == WrapU64(total + (Shares(v) + x))
    ensures WrapU64(total + ShownVolume(v)) == WrapU64(total + Shares(v))
  {
    hide Shares;
    WrapU64Adds(Shares(v), total);
    WrapU64Adds(total + Shares(v), x);
  }

  /** The scan finds enough exactly when the best levels, for some number of them, have a sum that reads as enough in
      64 unsigned bits. */
  lemma {:induction false} ScanEnoughExactlyWhen(side: Side, q: Queue, total: int, required: int)
    requires Sorted(side, q)
    ensures ScanEnough(Occupied(q), total, required) <==> ShowsEnough(q, total, required)
    decreases |q|
  {
    hide Shares, WrapU64, ShowsEnough, AtPrice, OtherPrices, ShownVolume;
    if q == [] {
      NothingShows(total, required);
    } else {
      var price := q[0].price;
      FirstPriceIsBest(side, q);
      OtherPricesMembers(q, price);
      BestLevelFirst(side, q, price);
      PricesAt(q, price);
      FirstApart(q);
      var v, rest := AtPrice(q, price), OtherPrices(q[1..], price);
      forall i | 0 <= i < |v| ensures v[i].price == price { assert v[i] in v; }
      forall i | 0 <= i < |rest| ensures rest[i].price != price { assert rest[i] in rest; }
      ShowsLevelByLevel(v, rest, price, total, required);
      OtherPricesSorted(side, q, price);
      ScanEnoughExactlyWhen(side, rest, WrapU64(total + ShownVolume(v)), required);
      var list := Occupied(q);
      assert list[0].1 == ShownVolume(v) && list[1..] == Occupied(rest);
    }
  }

  lemma NothingShows(total: int, required: int)
    ensures !ShowsEnough([], total, required)
  {
  }

  lemma FirstPriceIsBest(side: Side, q: Queue)
    requires Sorted(side, q) && q != []
    ensures forall r :: r in q ==> !Better(side, r.price, q[0].price)
  {
  }

  lemma FirstApart(q: Queue)
    requires q != []
    ensures AtPrice(q, q[0].price) != [] && OtherPrices(q, q[0].price) == OtherPrices(q[1..], q[0].price)
  {
    assert OtherPrices(q, q[0].price) == [] + OtherPrices(q[1..], q[0].price);
  }

  lemma {:induction false} CrossingSorted(taker: Side, limit: Option<int>, side: Side, q: Queue)
    requires Sorted(side, q)
    ensures Sorted(side, Crossing(taker, limit, q))
  {
    hide Sorted, Better, Crosses;
    if q != [] {
      var rest := Crossing(taker, limit, q[1..]);
      SortedTail(side, q);
      CrossingSorted(taker, limit, side, q[1..]);
      CrossingPart(taker, limit, q[1..], 0);
      SortedCons(side, q[0], rest);
      assert [] + rest == rest;
    }
  }

  /** So does the scan of the book. */
  lemma LooksLiquidExactlyWhen(taker: Side, limit: Option<int>, q: Queue, required: int)
    requires Sorted(Opposite(taker), q)
    ensures LooksLiquid(taker, limit, q, required)
            <==> ShowsEnough(Crossing(taker, limit, q), 0, WrapU64(required))
  {
    hide Sorted, ScanEnough, ShowsEnough, Crossing;
    CrossingSorted(taker, limit, Opposite(taker), q);
    ScanEnoughExactlyWhen(Opposite(taker), Crossing(taker, limit, q), 0, WrapU64(required));
  }
}
