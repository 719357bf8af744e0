/** What session end reports, against what it removes. */
module SessionTheorems {
  import opened Types
  import opened PriceTime
  import opened QueueLemmas
  import opened Places
  import opened BookSpec
  import opened Matching

  // ---------- totals over levels ----------

  function DayShares(levels: seq<Queue>): int
    decreases |levels|
  {
    if levels == [] then 0
    else DayShares(levels[..|levels| - 1]) + Shares(WithLifetime(levels[|levels| - 1], DayOnly))
  }

  function DayOrders(levels: seq<Queue>): nat
    decreases |levels|
  {
    if levels == [] then 0
    else DayOrders(levels[..|levels| - 1]) + |WithLifetime(levels[|levels| - 1], DayOnly)|
  }

  /** Levels occupied by DAY orders only. */
  function Emptied(levels: seq<Queue>): set<nat> {
    set i | 0 <= i < |levels| && levels[i] != [] && WithLifetime(levels[i], GoodTillCancel) == []
  }

  /** Each level's expiring shares fit the signed 32-bit total they are counted in. */
  ghost predicate SharesFit(levels: seq<Queue>) {
    forall i :: 0 <= i < |levels| ==> Shares(WithLifetime(levels[i], DayOnly)) <= INT32_MAX
  }

  ghost predicate NonNegativeLevels(levels: seq<Queue>) {
    forall i :: 0 <= i < |levels| ==> Shares(WithLifetime(levels[i], DayOnly)) >= 0
  }

  /** The shares the 32-bit level totals lose. */
  function Lost(levels: seq<Queue>): int
    decreases |levels|
  {
    if levels == [] then 0
    else
      var day := Shares(WithLifetime(levels[|levels| - 1], DayOnly));
      Lost(levels[..|levels| - 1]) + day - WrapI32(day)
  }

  lemma {:induction false} OrdersAreCounted(t: PruneResult, levels: seq<Queue>)
    ensures AddLevels(t, levels).ordersPruned == t.ordersPruned + DayOrders(levels)
    decreases |levels|
  {
    if levels != [] {
      hide Shares, WrapI32, WrapU64;
      OrdersAreCounted(t, levels[..|levels| - 1]);
      var last := levels[|levels| - 1];
      assert last == [] ==> WithLifetime(last, DayOnly) == [];
    }
  }

  lemma {:induction false} EmptiedLevelsAreCounted(t: PruneResult, levels: seq<Queue>)
    requires t.levelsErased < TWO_TO_32
    ensures AddLevels(t, levels).levelsErased == (t.levelsErased + |Emptied(levels)|) % TWO_TO_32
    decreases |levels|
  {
    if levels == [] {
      assert Emptied(levels) == {};
    } else {
      hide Shares, WrapI32, WrapU64, WithLifetime, Emptied;
      EmptiedLevelsAreCounted(t, levels[..|levels| - 1]);
      EmptiedStep(levels);
      More(t.levelsErased + |Emptied(levels[..|levels| - 1])|, 1);
    }
  }

  lemma More(n: nat, m: nat)
    ensures (n % TWO_TO_32 + m) % TWO_TO_32 == (n + m) % TWO_TO_32
  {
  }

  lemma EmptiedStep(levels: seq<Queue>)
    requires levels != []
    ensures var front, last := levels[..|levels| - 1], levels[|levels| - 1];
            var emptied := last != [] && WithLifetime(last, GoodTillCancel) == [];
            |Emptied(levels)| == |Emptied(front)| + if emptied then 1 else 0
  {
    hide WithLifetime;
    var n := |levels| - 1;
    var front := levels[..n];
    assert forall i :: 0 <= i < n ==> front[i] == levels[i];
    if levels[n] != [] && WithLifetime(levels[n], GoodTillCancel) == [] {
      assert Emptied(levels) == Emptied(front) + {n};
    } else {
      assert Emptied(levels) == Emptied(front);
    }
  }

  lemma WrapLoses(x: int)
    requires x >= 0
    ensures 0 <= x - WrapI32(x) <= 2 * x
    ensures x - WrapI32(x) == 0 <==> x <= INT32_MAX
    ensures (x - WrapI32(x)) % TWO_TO_32 == 0
  {
  }

  lemma {:induction false} LostIsNothingWhenFitting(levels: seq<Queue>)
    requires NonNegativeLevels(levels)
    ensures 0 <= Lost(levels) <= 2 * DayShares(levels)
    ensures Lost(levels) == 0 <==> SharesFit(levels)
    decreases |levels|
  {
    if levels != [] {
      hide Shares, WrapI32, WithLifetime;
      var front, last := levels[..|levels| - 1], |levels| - 1;
      LostIsNothingWhenFitting(front);
      WrapLoses(Shares(WithLifetime(levels[last], DayOnly)));
      assert forall i :: 0 <= i < last ==> front[i] == levels[i];
    }
  }

  lemma {:induction false} SharesAreCounted(t: PruneResult, levels: seq<Queue>)
    requires 0 <= t.sharesErased < TWO_TO_64
    ensures AddLevels(t, levels).sharesErased == WrapU64(t.sharesErased + DayShares(levels) - Lost(levels))
    ensures 0 <= AddLevels(t, levels).sharesErased < TWO_TO_64
    decreases |levels|
  {
    if levels == [] {
    } else {
      var front, last := levels[..|levels| - 1], |levels| - 1;
      SharesAreCounted(t, front);
      hide Shares, WrapI32, WithLifetime, WrapU64;
      if levels[last] == [] {
        NothingLost(levels[last]);
      } else {
        var day := Shares(WithLifetime(levels[last], DayOnly));
        WrapU64Adds(t.sharesErased + DayShares(front) - Lost(front), WrapI32(day));
      }
    }
  }

  lemma NothingLost(level: Queue)
    ensures level == [] ==> Shares(WithLifetime(level, DayOnly)) == 0 && WrapI32(0) == 0
  {
  }

  // ---------- the levels of a queue hold its orders ----------

  /** Putting an order in front of a queue adds it to the level of its price and to no other. */
  lemma {:induction false} LevelsCons(r: RestingView, q: Queue, lo: int, n: nat)
    ensures var with, without := LevelsOf([r] + q, lo, lo + n - 1), LevelsOf(q, lo, lo + n - 1);
            var counts := r.lifetime == DayOnly && lo <= r.price < lo + n;
            && DayShares(with) == DayShares(without) + (if counts then r.quantity else 0)
            && DayOrders(with) == DayOrders(without) + (if counts then 1 else 0)
  {
    hide AtPrice, WithLifetime, Shares, LevelsOf;
    LastLevel([r] + q, lo, n);
    LastLevel(q, lo, n);
    if n > 0 {
      LevelsCons(r, q, lo, n - 1);
      assert ([r] + q)[1..] == q;
      AtPriceStep([r] + q, lo + n - 1);
      DayCons(r, AtPrice(q, lo + n - 1));
    }
  }

  /** The levels of a band are those of the band without its highest price, and the level at that price. */
  lemma LastLevel(q: Queue, lo: int, n: nat)
    ensures var levels := LevelsOf(q, lo, lo + n - 1);
            && |levels| == n
            && (n > 0 ==> levels[..n - 1] == LevelsOf(q, lo, lo + n - 2) && levels[n - 1] == AtPrice(q, lo + n - 1))
  {
  }

  lemma DayCons(r: RestingView, q: Queue)
    ensures WithLifetime([r] + q, DayOnly) == (if r.lifetime == DayOnly then [r] else []) + WithLifetime(q, DayOnly)
    ensures Shares(WithLifetime([r] + q, DayOnly))
         == (if r.lifetime == DayOnly then r.quantity else 0) + Shares(WithLifetime(q, DayOnly))
  {
    assert ([r] + q)[1..] == q;
    SharesConcat(if r.lifetime == DayOnly then [r] else [], WithLifetime(q, DayOnly));
    SharesOne(r);
  }

  lemma AtPriceStep(q: Queue, price: int)
    requires q != []
    ensures AtPrice(q, price) == if q[0].price == price then [q[0]] + AtPrice(q[1..], price) else AtPrice(q[1..], price)
  {
  }

  lemma {:induction false} LevelsHoldTheQueue(q: Queue, lo: int, hi: int)
    requires lo <= hi && InRange(q, lo, hi)
    ensures DayShares(LevelsOf(q, lo, hi)) == Shares(WithLifetime(q, DayOnly))
    ensures DayOrders(LevelsOf(q, lo, hi)) == |WithLifetime(q, DayOnly)|
  {
    if q == [] {
      EmptyLevels(lo, hi - lo + 1);
    } else {
      LevelsHoldTheQueue(q[1..], lo, hi);
      LevelsCons(q[0], q[1..], lo, hi - lo + 1);
      DayCons(q[0], q[1..]);
      assert q == [q[0]] + q[1..];
    }
  }

  lemma EmptyExpires(level: Queue)
    ensures level == [] ==> WithLifetime(level, DayOnly) == [] && Shares(WithLifetime(level, DayOnly)) == 0
  {
  }

  lemma {:induction false} EmptyLevels(lo: int, n: nat)
    ensures DayShares(LevelsOf([], lo, lo + n - 1)) == 0 && DayOrders(LevelsOf([], lo, lo + n - 1)) == 0
  {
    if n > 0 {
      EmptyLevels(lo, n - 1);
      var levels := LevelsOf([], lo, lo + n - 1);
      assert levels[..n - 1] == LevelsOf([], lo, lo + n - 2);
      assert levels[n - 1] == AtPrice([], lo + n - 1) == [];
      EmptyExpires(levels[n - 1]);
    }
  }

  lemma {:induction false} LevelSharesNonNegative(q: Queue, price: int)
    requires Positive(q)
    ensures Shares(WithLifetime(AtPrice(q, price), DayOnly)) >= 0 && Shares(WithLifetime(q, DayOnly)) >= 0
  {
    if q != [] {
      TailKeeps(Buy, q);
      LevelSharesNonNegative(q[1..], price);
      assert q == [q[0]] + q[1..];
      AtPriceStep(q, price);
      DayCons(q[0], AtPrice(q[1..], price));
      DayCons(q[0], q[1..]);
    }
  }

  // ---------- session end ----------

  /** The expiring shares of the whole book. */
  function Expiring(b: Book): int {
    Shares(WithLifetime(b.bids, DayOnly)) + Shares(WithLifetime(b.asks, DayOnly))
  }

  ghost predicate EveryLevelFits(b: Book) {
    SharesFit(LevelsOf(b.bids, b.minPrice, b.maxPrice)) && SharesFit(LevelsOf(b.asks, b.minPrice, b.maxPrice))
  }

  lemma LevelAt(q: Queue, lo: int, hi: int, i: nat)
    requires i < |LevelsOf(q, lo, hi)|
    ensures LevelsOf(q, lo, hi)[i] == AtPrice(q, lo + i)
  {
  }

  lemma NonNegativeSide(q: Queue, lo: int, hi: int)
    requires Positive(q)
    ensures NonNegativeLevels(LevelsOf(q, lo, hi))
  {
    var levels := LevelsOf(q, lo, hi);
    hide Shares, WithLifetime, AtPrice, Positive, LevelsOf;
    forall i | 0 <= i < |levels| ensures Shares(WithLifetime(levels[i], DayOnly)) >= 0 {
      LevelAt(q, lo, hi, i);
      LevelSharesNonNegative(q, lo + i);
    }
  }

  /** Shares the signed level totals of the whole book lose. */
  function LostShares(b: Book): int {
    Lost(LevelsOf(b.bids, b.minPrice, b.maxPrice)) + Lost(LevelsOf(b.asks, b.minPrice, b.maxPrice))
  }

  /** Levels the session end empties. */
  function EmptiedLevels(b: Book): nat {
    |Emptied(LevelsOf(b.bids, b.minPrice, b.maxPrice))| + |Emptied(LevelsOf(b.asks, b.minPrice, b.maxPrice))|
  }

  /** What a session end reports, whatever quantities rest in the book. */
  lemma SessionReportIs(b: Book)
    requires b.Ordered() && b.minPrice <= b.maxPrice
    ensures var report := SessionEnd(b).1;
            && report.ordersPruned == |WithLifetime(b.bids, DayOnly)| + |WithLifetime(b.asks, DayOnly)|
            && report.levelsErased == EmptiedLevels(b) % TWO_TO_32
            && report.sharesErased == WrapU64(Expiring(b) - LostShares(b))
  {
    hide LevelsOf, WithLifetime, Shares, AddLevels, Emptied, Lost, DayShares, DayOrders, WrapU64;
    hide Book.UniqueIds, Sorted;
    LevelsHoldTheQueue(b.bids, b.minPrice, b.maxPrice);
    LevelsHoldTheQueue(b.asks, b.minPrice, b.maxPrice);
    LevelsReport(LevelsOf(b.bids, b.minPrice, b.maxPrice), LevelsOf(b.asks, b.minPrice, b.maxPrice));
  }

  lemma LevelsReport(bids: seq<Queue>, asks: seq<Queue>)
    ensures var report := AddLevels(AddLevels(PruneResult(0, 0, 0), bids), asks);
            && report.ordersPruned == DayOrders(bids) + DayOrders(asks)
            && report.levelsErased == (|Emptied(bids)| + |Emptied(asks)|) % TWO_TO_32
            && report.sharesErased == WrapU64(DayShares(bids) + DayShares(asks) - (Lost(bids) + Lost(asks)))
  {
    hide AddLevels, Emptied, Lost, DayShares, DayOrders, WrapU64;
    var zero := PruneResult(0, 0, 0);
    OrdersAreCounted(zero, bids);
    OrdersAreCounted(AddLevels(zero, bids), asks);
    EmptiedLevelsAreCounted(zero, bids);
    EmptiedLevelsAreCounted(AddLevels(zero, bids), asks);
    More(|Emptied(bids)|, |Emptied(asks)|);
    SharesAreCounted(zero, bids);
    SharesAreCounted(AddLevels(zero, bids), asks);
    WrapU64Adds(DayShares(bids) - Lost(bids), DayShares(asks) - Lost(asks));
  }

  /** The number of orders is always reported exactly, the number of emptied levels exactly when it has 32 bits. Shares
      are reported exactly if and only if their number has 64 bits and no level expires more than a signed 32-bit total
      can count, or what the level totals lose is exactly 2^64; below 2^63 expiring shares that cannot happen. */
  lemma SessionReportIsExactWhenLevelsFit(b: Book)
    requires b.WellFormed() && b.minPrice <= b.maxPrice
    ensures var report := SessionEnd(b).1;
            && report.ordersPruned == |WithLifetime(b.bids, DayOnly)| + |WithLifetime(b.asks, DayOnly)|
            && (report.levelsErased == EmptiedLevels(b) <==> EmptiedLevels(b) < TWO_TO_32)
            && (report.sharesErased == Expiring(b)
                <==> Expiring(b) < TWO_TO_64 && (EveryLevelFits(b) || LostShares(b) == TWO_TO_64))
            && (Expiring(b) < TWO_TO_63 ==> (report.sharesErased == Expiring(b) <==> EveryLevelFits(b)))
  {
    var bids, asks := LevelsOf(b.bids, b.minPrice, b.maxPrice), LevelsOf(b.asks, b.minPrice, b.maxPrice);
    hide LevelsOf, WithLifetime, Shares, AddLevels, SessionEnd, Emptied, Lost, DayShares, SharesFit, WrapU64;
    SessionReportIs(b);
    LevelsHoldTheQueue(b.bids, b.minPrice, b.maxPrice);
    LevelsHoldTheQueue(b.asks, b.minPrice, b.maxPrice);
    NonNegativeSide(b.bids, b.minPrice, b.maxPrice);
    NonNegativeSide(b.asks, b.minPrice, b.maxPrice);
    LevelSharesNonNegative(b.bids, b.minPrice);
    LevelSharesNonNegative(b.asks, b.minPrice);
    LostIsNothingWhenFitting(bids);
    LostIsNothingWhenFitting(asks);
    WrappedIsExact(Expiring(b), LostShares(b));
  }

  lemma WrappedIsExact(total: int, lost: int)
    requires 0 <= lost <= 2 * total
    ensures WrapU64(total - lost) == total <==> total < TWO_TO_64 && (lost == 0 || lost == TWO_TO_64)
  {
  }

  /** One level with two orders of 2^31 - 1 shares: the report says less was erased than was. */
  lemma OverfullLevelIsMisreported()
    ensures var big := RestingView(10, 1, INT32_MAX, DayOnly);
            var b := Book(10, 10, [big] + [big.(id := 2)], []);
            b.WellFormed() && Expiring(b) == 2 * INT32_MAX && SessionEnd(b).1.sharesErased != Expiring(b)
  {
    var big := RestingView(10, 1, INT32_MAX, DayOnly);
    var other := big.(id := 2);
    var q := [big] + [other];
    var b := Book(10, 10, q, []);
    DayCons(big, [other]);
    DayCons(other, []);
    AtPriceStep(q, 10);
    AtPriceStep([other], 10);
    assert [other] + [] == [other] && q[1..] == [other];
    assert LevelsOf(q, 10, 10) == [q];
    assert Expiring(b) == 2 * INT32_MAX;
    SessionReportIsExactWhenLevelsFit(b);
    assert !SharesFit([q]) by { assert [q][0] == q; }
  }

  lemma {:induction false} KeptHasNoDay(q: Queue)
    ensures WithLifetime(WithLifetime(q, GoodTillCancel), DayOnly) == []
    ensures WithLifetime(WithLifetime(q, GoodTillCancel), GoodTillCancel) == WithLifetime(q, GoodTillCancel)
  {
    if q != [] {
      KeptHasNoDay(q[1..]);
      if q[0].lifetime == GoodTillCancel {
        assert WithLifetime(q, GoodTillCancel)[1..] == WithLifetime(q[1..], GoodTillCancel);
      } else {
        assert WithLifetime(q, GoodTillCancel) == WithLifetime(q[1..], GoodTillCancel);
      }
    }
  }

  lemma {:induction false} NoDayNoReport(t: PruneResult, levels: seq<Queue>)
    requires 0 <= t.sharesErased < TWO_TO_64
    requires forall i :: 0 <= i < |levels| ==>
              && WithLifetime(levels[i], DayOnly) == []
              && (levels[i] != [] ==> WithLifetime(levels[i], GoodTillCancel) != [])
    ensures AddLevels(t, levels) == t
    decreases |levels|
  {
    if levels != [] {
      NoDayNoReport(t, levels[..|levels| - 1]);
      assert levels[|levels| - 1] == levels[|levels| - 1];
      assert Shares([]) == 0;
    }
  }

  lemma {:induction false} NoDayAtPrice(q: Queue, price: int)
    requires WithLifetime(q, DayOnly) == []
    ensures WithLifetime(AtPrice(q, price), DayOnly) == []
    ensures WithLifetime(AtPrice(q, price), GoodTillCancel) == AtPrice(q, price)
  {
    if q != [] {
      assert q == [q[0]] + q[1..];
      DayCons(q[0], q[1..]);
      assert WithLifetime(q[1..], DayOnly) == [];
      NoDayAtPrice(q[1..], price);
      AtPriceStep(q, price);
      var rest := AtPrice(q[1..], price);
      DayCons(q[0], rest);
      assert ([q[0]] + rest)[1..] == rest;
    }
  }

  /** A second session end finds nothing to do and reports zeros. */
  lemma SecondSessionEndIsIdle(b: Book)
    ensures var after := SessionEnd(b).0; SessionEnd(after) == (after, PruneResult(0, 0, 0))
  {
    var after := SessionEnd(b).0;
    KeptHasNoDay(b.bids);
    KeptHasNoDay(b.asks);
    IdleSide(PruneResult(0, 0, 0), after.bids, b.minPrice, b.maxPrice);
    IdleSide(PruneResult(0, 0, 0), after.asks, b.minPrice, b.maxPrice);
  }

  lemma IdleSide(t: PruneResult, q: Queue, lo: int, hi: int)
    requires 0 <= t.sharesErased < TWO_TO_64 && WithLifetime(q, DayOnly) == []
    ensures AddLevels(t, LevelsOf(q, lo, hi)) == t
  {
    var levels := LevelsOf(q, lo, hi);
    hide WithLifetime, AtPrice, LevelsOf;
    forall i | 0 <= i < |levels|
      ensures WithLifetime(levels[i], DayOnly) == []
      ensures levels[i] != [] ==> WithLifetime(levels[i], GoodTillCancel) != []
    {
      LevelAt(q, lo, hi, i);
      NoDayAtPrice(q, lo + i);
    }
    NoDayNoReport(t, levels);
  }

  // ---------- who goes and who stays ----------

  /** Exactly the DAY orders go; every order that stays is unchanged and keeps its place relative to the others. */
  lemma SessionEndRemovesExactlyDay(b: Book, side: Side)
    requires b.UniqueIds()
    ensures var after := SessionEnd(b).0;
            && (forall r :: r in after.On(side) <==> r in b.On(side) && r.lifetime == GoodTillCancel)
            && (forall x, y :: after.Holds(x) && after.Holds(y) ==>
                (Ahead(after.On(side), x, y) <==> Ahead(b.On(side), x, y)))
  {
    hide Ahead, Ids, WithLifetime, AddLevels, LevelsOf, DistinctIds, Sorted, Positive, InRange;
    var q := b.On(side);
    LifetimeMembers(q, GoodTillCancel);
    var after := SessionEnd(b).0;
    forall x, y | after.Holds(x) && after.Holds(y) ensures Ahead(after.On(side), x, y) <==> Ahead(q, x, y) {
      LifetimeIds(b.bids, GoodTillCancel);
      LifetimeIds(b.asks, GoodTillCancel);
      AheadMembers(q, x, y);
      AheadMembers(after.On(side), x, y);
      if x in Ids(after.On(side)) && y in Ids(after.On(side)) {
        LifetimeKeepsOrder(q, GoodTillCancel, x, y);
      }
    }
  }
}
