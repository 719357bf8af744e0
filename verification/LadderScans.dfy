/** What the ladder's scans add up: marketable volume, occupied levels, session-end totals. */
module LadderScans {
  import opened Types
  import opened PriceTime
  import opened QueueLemmas
  import opened LadderView

  // ---------- marketable volume ----------

  /** The shares an order of side `taker` could trade at its limit or better. */
  function Marketable(taker: Side, limit: Option<int>, q: Queue): int {
    Shares(Crossing(taker, limit, q))
  }

  /** The first orders of a queue, however many it takes, have the shares wanted. */
  ghost predicate Reaches(q: Queue, want: int) {
    exists k :: 0 <= k <= |q| && Shares(q[..k]) >= want
  }

  lemma {:induction false} CrossingConcat(taker: Side, limit: Option<int>, a: Queue, b: Queue)
    ensures Crossing(taker, limit, a + b) == Crossing(taker, limit, a) + Crossing(taker, limit, b)
  {
    if a == [] {
      assert a + b == b;
    } else {
      CrossingConcat(taker, limit, a[1..], b);
      assert (a + b)[0] == a[0] && (a + b)[1..] == a[1..] + b;
      ConcatAssoc(if Crosses(taker, limit, a[0].price) then [a[0]] else [],
                  Crossing(taker, limit, a[1..]), Crossing(taker, limit, b));
    }
  }

  lemma {:induction false} CrossingAll(taker: Side, limit: Option<int>, q: Queue)
    requires forall r :: r in q ==> Crosses(taker, limit, r.price)
    ensures Crossing(taker, limit, q) == q
  {
    if q != [] {
      assert q[0] in q;
      CrossingAll(taker, limit, q[1..]);
    }
  }

  lemma {:induction false} CrossingNone(taker: Side, limit: Option<int>, q: Queue)
    requires forall r :: r in q ==> !Crosses(taker, limit, r.price)
    ensures Crossing(taker, limit, q) == []
  {
    if q != [] {
      assert q[0] in q;
      CrossingNone(taker, limit, q[1..]);
    }
  }

  lemma PartPrices(side: Side, views: Views, minPrice: int, lo: nat, hi: nat)
    requires Priced(views, minPrice) && lo <= hi <= |views|
    ensures forall r :: r in Flatten(side, views[lo..hi]) ==> minPrice + lo <= r.price < minPrice + hi
  {
    forall r | r in Flatten(side, views[lo..hi]) ensures minPrice + lo <= r.price < minPrice + hi {
      FlattenMember(side, views[lo..hi], r);
      var i :| 0 <= i < hi - lo && r in views[lo..hi][i];
      assert r in views[lo + i];
    }
  }

  /** Splitting a queue into orders that trade and orders that do not. */
  lemma CrossingSplit(taker: Side, limit: int, near: Queue, far: Queue)
    requires forall r :: r in near ==> Crosses(taker, Some(limit), r.price)
    requires forall r :: r in far ==> !Crosses(taker, Some(limit), r.price)
    ensures Crossing(taker, Some(limit), near + far) == near
  {
    CrossingConcat(taker, Some(limit), near, far);
    CrossingAll(taker, Some(limit), near);
    CrossingNone(taker, Some(limit), far);
  }

  /** The asks a buyer can trade with are those of the levels up to the limit. */
  lemma CrossingAsks(views: Views, minPrice: int, k: nat)
    requires Priced(views, minPrice) && k < |views|
    ensures Crossing(Buy, Some(minPrice + k), Flatten(Sell, views)) == Flatten(Sell, views[0..k + 1])
  {
    hide Flatten, Crossing, Priced;
    var low, high := views[0..k + 1], views[k + 1..|views|];
    assert views == low + high;
    FlattenConcat(Sell, low, high);
    PartPrices(Sell, views, minPrice, 0, k + 1);
    PartPrices(Sell, views, minPrice, k + 1, |views|);
    CrossingSplit(Buy, minPrice + k, Flatten(Sell, low), Flatten(Sell, high));
  }

  /** The bids a seller can trade with are those of the levels down to the limit. */
  lemma CrossingBids(views: Views, minPrice: int, k: nat)
    requires Priced(views, minPrice) && k < |views|
    ensures Crossing(Sell, Some(minPrice + k), Flatten(Buy, views)) == Flatten(Buy, views[k..|views|])
  {
    hide Flatten, Crossing, Priced;
    var low, high := views[0..k], views[k..|views|];
    assert views == low + high;
    FlattenConcat(Buy, low, high);
    PartPrices(Buy, views, minPrice, 0, k);
    PartPrices(Buy, views, minPrice, k, |views|);
    CrossingSplit(Sell, minPrice + k, Flatten(Buy, high), Flatten(Buy, low));
  }

  lemma BetterLevelsAreEmpty(side: Side, views: Views, minPrice: int, b: nat)
    requires b < |views| && BestIs(side, minPrice, views, Some(minPrice + b))
    ensures forall i :: (if side.Sell? then 0 <= i < b else b < i < |views|) ==> views[i] == []
  {
    forall i | if side.Sell? then 0 <= i < b else b < i < |views| ensures views[i] == [] {
      assert Better(side, minPrice + i, minPrice + b);
    }
  }

  /** Levels better than the cached best are empty, so the asks a buyer can trade with start there. */
  lemma CrossingAsksFromBest(views: Views, minPrice: int, b: nat, k: nat)
    requires Priced(views, minPrice) && b <= k < |views|
    requires BestIs(Sell, minPrice, views, Some(minPrice + b))
    ensures Crossing(Buy, Some(minPrice + k), Flatten(Sell, views)) == Flatten(Sell, views[b..k + 1])
  {
    hide Flatten, Crossing, Priced, BestIs;
    BetterLevelsAreEmpty(Sell, views, minPrice, b);
    CrossingAsks(views, minPrice, k);
    assert views[0..k + 1] == views[0..b] + views[b..k + 1];
    FlattenConcat(Sell, views[0..b], views[b..k + 1]);
    AllEmpty(Sell, views[0..b], views, 0);
    assert [] + Flatten(Sell, views[b..k + 1]) == Flatten(Sell, views[b..k + 1]);
  }

  lemma CrossingBidsFromBest(views: Views, minPrice: int, b: nat, k: nat)
    requires Priced(views, minPrice) && k <= b < |views|
    requires BestIs(Buy, minPrice, views, Some(minPrice + b))
    ensures Crossing(Sell, Some(minPrice + k), Flatten(Buy, views)) == Flatten(Buy, views[k..b + 1])
  {
    hide Flatten, Crossing, Priced, BestIs;
    BetterLevelsAreEmpty(Buy, views, minPrice, b);
    CrossingBids(views, minPrice, k);
    assert views[k..|views|] == views[k..b + 1] + views[b + 1..|views|];
    FlattenConcat(Buy, views[k..b + 1], views[b + 1..|views|]);
    AllEmpty(Buy, views[b + 1..|views|], views, b + 1);
    assert [] + Flatten(Buy, views[k..b + 1]) == Flatten(Buy, views[k..b + 1]);
  }

  /** Where the limit is better than the cached best there is nothing to trade with. */
  lemma NothingCrosses(side: Side, views: Views, minPrice: int, best: Option<int>, limit: int)
    requires Priced(views, minPrice) && BestIs(side, minPrice, views, best)
    requires best.Some? ==> Better(side, limit, best.value)
    ensures Crossing(Opposite(side), Some(limit), Flatten(side, views)) == []
  {
    forall r | r in Flatten(side, views) ensures !Crosses(Opposite(side), Some(limit), r.price) {
      FlattenMember(side, views, r);
      var i :| 0 <= i < |views| && r in views[i];
      assert r.price == minPrice + i by { var j :| 0 <= j < |views[i]| && views[i][j] == r; }
      assert views[i] != [];
      if best.Some? && Better(side, minPrice + i, best.value) { assert false; }
    }
    CrossingNone(Opposite(side), Some(limit), Flatten(side, views));
  }

  // ---------- occupied levels ----------

  type PriceVolume = (int, int)

  /** The volume a level shows: its shares in unsigned 64 bits. */
  function ShownVolume(v: Queue): int {
    WrapU64(Shares(v))
  }

  function LevelSummary(price: int, v: Queue): seq<PriceVolume> {
    if v == [] then [] else [(price, ShownVolume(v))]
  }

  /** Price and volume of every occupied level, best first. */
  function Summary(side: Side, minPrice: int, views: Views): seq<PriceVolume>
    decreases |views|
  {
    if views == [] then []
    else if side.Sell? then LevelSummary(minPrice, views[0]) + Summary(side, minPrice + 1, views[1..])
    else Summary(side, minPrice + 1, views[1..]) + LevelSummary(minPrice, views[0])
  }

  function Prefix<T>(s: seq<T>, n: nat): seq<T> {
    if |s| <= n then s else s[..n]
  }

  lemma {:induction false} SummaryConcat(side: Side, minPrice: int, a: Views, b: Views)
    ensures Summary(side, minPrice, a + b)
         == (if side.Sell? then Summary(side, minPrice, a) + Summary(side, minPrice + |a|, b)
             else Summary(side, minPrice + |a|, b) + Summary(side, minPrice, a))
    decreases |a|
  {
    if a == [] {
      assert a + b == b;
    } else {
      SummaryConcat(side, minPrice + 1, a[1..], b);
      assert (a + b)[0] == a[0] && (a + b)[1..] == a[1..] + b;
      ConcatAssoc(LevelSummary(minPrice, a[0]), Summary(side, minPrice + 1, a[1..]), Summary(side, minPrice + |a|, b));
      ConcatAssoc(Summary(side, minPrice + |a|, b), Summary(side, minPrice + 1, a[1..]), LevelSummary(minPrice, a[0]));
    }
  }

  lemma SummaryOne(side: Side, price: int, v: Queue)
    ensures Summary(side, price, [v]) == LevelSummary(price, v)
  {
  }

  /** The occupied levels from index lo up to, not including, hi. */
  function SummaryOf(side: Side, minPrice: int, views: Views, lo: nat, hi: nat): seq<PriceVolume>
    requires lo <= hi <= |views|
  {
    Summary(side, minPrice + lo, views[lo..hi])
  }

  lemma SummaryUp(minPrice: int, views: Views, lo: nat, hi: nat)
    requires lo <= hi < |views|
    ensures SummaryOf(Sell, minPrice, views, lo, hi + 1)
         == SummaryOf(Sell, minPrice, views, lo, hi) + LevelSummary(minPrice + hi, views[hi])
  {
    hide Summary, LevelSummary;
    assert views[lo..hi + 1] == views[lo..hi] + [views[hi]];
    SummaryConcat(Sell, minPrice + lo, views[lo..hi], [views[hi]]);
    SummaryOne(Sell, minPrice + hi, views[hi]);
  }

  lemma SummaryDown(minPrice: int, views: Views, lo: nat, hi: nat)
    requires lo < hi <= |views|
    ensures SummaryOf(Buy, minPrice, views, lo, hi)
         == SummaryOf(Buy, minPrice, views, lo + 1, hi) + LevelSummary(minPrice + lo, views[lo])
  {
    assert views[lo..hi][1..] == views[lo + 1..hi];
  }

  lemma {:induction false} SummaryOfEmpty(side: Side, minPrice: int, views: Views, lo: nat, hi: nat)
    requires lo <= hi <= |views|
    requires forall i :: lo <= i < hi ==> views[i] == []
    ensures SummaryOf(side, minPrice, views, lo, hi) == []
    decreases hi - lo
  {
    if lo < hi {
      assert views[lo..hi][1..] == views[lo + 1..hi];
      SummaryOfEmpty(side, minPrice, views, lo + 1, hi);
    }
  }

  lemma SummarySplit(side: Side, minPrice: int, views: Views, i: nat)
    requires i <= |views|
    ensures var low, high := SummaryOf(side, minPrice, views, 0, i), SummaryOf(side, minPrice, views, i, |views|);
            Summary(side, minPrice, views) == if side.Sell? then low + high else high + low
  {
    hide Summary;
    assert views == views[0..i] + views[i..|views|];
    SummaryConcat(side, minPrice, views[0..i], views[i..|views|]);
  }

  /** Nothing is skipped by listing the occupied levels from the cached best on. */
  lemma SummaryFromBest(side: Side, minPrice: int, views: Views, b: nat)
    requires b < |views| && BestIs(side, minPrice, views, Some(minPrice + b))
    ensures Summary(side, minPrice, views)
         == (if side.Sell? then SummaryOf(side, minPrice, views, b, |views|)
             else SummaryOf(side, minPrice, views, 0, b + 1))
  {
    hide Summary, BestIs;
    BetterLevelsAreEmpty(side, views, minPrice, b);
    if side.Sell? {
      SummarySplit(side, minPrice, views, b);
      SummaryOfEmpty(side, minPrice, views, 0, b);
    } else {
      SummarySplit(side, minPrice, views, b + 1);
      SummaryOfEmpty(side, minPrice, views, b + 1, |views|);
    }
  }

  lemma SummaryGrows(side: Side, minPrice: int, views: Views, i: nat)
    requires i < |views|
    ensures |SummaryOf(side, minPrice, views, 0, i + 1)|
         == |SummaryOf(side, minPrice, views, 0, i)| + (if views[i] == [] then 0 else 1)
  {
    hide Summary;
    assert views[0..i + 1] == views[0..i] + [views[i]];
    SummaryConcat(side, minPrice, views[0..i], [views[i]]);
    SummaryOne(side, minPrice + i, views[i]);
  }

  /** The bids listed from `hi` down to `i` begin the list of all bids from `hi` down. */
  lemma SummaryPart(minPrice: int, views: Views, i: nat, hi: nat)
    requires i <= hi <= |views|
    ensures exists rest :: SummaryOf(Buy, minPrice, views, 0, hi) == SummaryOf(Buy, minPrice, views, i, hi) + rest
  {
    hide Summary;
    assert views[0..hi] == views[0..i] + views[i..hi];
    SummaryConcat(Buy, minPrice, views[0..i], views[i..hi]);
    assert SummaryOf(Buy, minPrice, views, 0, hi)
        == SummaryOf(Buy, minPrice, views, i, hi) + SummaryOf(Buy, minPrice, views, 0, i);
  }

  lemma SummaryRest(minPrice: int, views: Views, lo: nat, i: nat)
    requires lo <= i <= |views|
    ensures SummaryOf(Sell, minPrice, views, lo, |views|)
         == SummaryOf(Sell, minPrice, views, lo, i) + SummaryOf(Sell, minPrice, views, i, |views|)
    ensures i == |views| ==> SummaryOf(Sell, minPrice, views, i, |views|) == []
  {
    SummaryOfEmpty(Sell, minPrice, views, |views|, |views|);
    hide Summary;
    assert views[lo..|views|] == views[lo..i] + views[i..|views|];
    SummaryConcat(Sell, minPrice + lo, views[lo..i], views[i..|views|]);
  }

  // ---------- price order ----------

  lemma SortedConcat(side: Side, a: Queue, b: Queue)
    requires Sorted(side, a) && Sorted(side, b)
    requires forall x, y :: x in a && y in b ==> !Better(side, y.price, x.price)
    ensures Sorted(side, a + b)
  {
  }

  lemma SamePriceSorted(side: Side, q: Queue, price: int)
    requires forall i :: 0 <= i < |q| ==> q[i].price == price
    ensures Sorted(side, q)
    ensures forall r :: r in q ==> r.price == price
  {
  }

  lemma {:induction false} FlattenSorted(side: Side, views: Views, minPrice: int)
    requires Priced(views, minPrice)
    ensures Sorted(side, Flatten(side, views))
    ensures InRange(Flatten(side, views), minPrice, minPrice + |views| - 1)
    decreases |views|
  {
    if views != [] {
      var rest := views[1..];
      assert Priced(rest, minPrice + 1) by {
        forall i, j | 0 <= i < |rest| && 0 <= j < |rest[i]| ensures rest[i][j].price == minPrice + 1 + i {
          assert rest[i] == views[i + 1];
        }
      }
      FlattenSorted(side, rest, minPrice + 1);
      SamePriceSorted(side, views[0], minPrice);
      PartPrices(side, views, minPrice, 1, |views|);
      assert views[1..|views|] == rest;
      if side.Sell? {
        SortedConcat(side, views[0], Flatten(side, rest));
      } else {
        SortedConcat(side, Flatten(side, rest), views[0]);
      }
    }
  }

  // ---------- one level of a queue ----------

  lemma {:induction false} AtPriceConcat(a: Queue, b: Queue, price: int)
    ensures AtPrice(a + b, price) == AtPrice(a, price) + AtPrice(b, price)
  {
    if a == [] {
      assert a + b == b;
    } else {
      AtPriceConcat(a[1..], b, price);
      assert (a + b)[0] == a[0] && (a + b)[1..] == a[1..] + b;
      ConcatAssoc(if a[0].price == price then [a[0]] else [], AtPrice(a[1..], price), AtPrice(b, price));
    }
  }

  lemma {:induction false} AtPriceAll(q: Queue, price: int)
    requires forall r :: r in q ==> r.price == price
    ensures AtPrice(q, price) == q
  {
    if q != [] {
      assert q[0] in q;
      AtPriceAll(q[1..], price);
    }
  }

  lemma {:induction false} AtPriceNone(q: Queue, price: int)
    requires forall r :: r in q ==> r.price != price
    ensures AtPrice(q, price) == []
  {
    if q != [] {
      assert q[0] in q;
      AtPriceNone(q[1..], price);
    }
  }

  /** The orders of a queue at one price are those of that price level, in the same order. */
  lemma LevelOfQueue(side: Side, views: Views, minPrice: int, i: nat)
    requires Priced(views, minPrice) && i < |views|
    ensures AtPrice(Flatten(side, views), minPrice + i) == views[i]
  {
    hide AtPrice, Flatten;
    var ahead, behind := Ahead(side, views, i), Behind(side, views, i);
    FlattenSplit(side, views, i);
    NeighboursByPrice(side, views, minPrice, i);
    SamePriceSorted(side, views[i], minPrice + i);
    AtPriceConcat(ahead + views[i], behind, minPrice + i);
    AtPriceConcat(ahead, views[i], minPrice + i);
    AtPriceNone(ahead, minPrice + i);
    AtPriceAll(views[i], minPrice + i);
    AtPriceNone(behind, minPrice + i);
    assert [] + views[i] + [] == views[i];
  }

  lemma BestAfterInsert(side: Side, minPrice: int, views: Views, best: Option<int>, i: nat, r: RestingView)
    requires BestIs(side, minPrice, views, best) && i < |views|
    ensures BestIs(side, minPrice, views[i := views[i] + [r]],
                   if best.None? || Better(side, minPrice + i, best.value) then Some(minPrice + i) else best)
  {
  }
}
