/** What the greedy sweep achieves, stated without reference to how it proceeds, and the invariant of a
    loop that performs it one resting order at a time. */
module Matching {
  import opened Types
  import opened PriceTime
  import opened QueueLemmas
  import opened LadderScans
  import opened LiquidityScan
  import opened BookSpec

  // ---------- a loop that sweeps ----------

  /** A loop has executed `fills` so far; sweeping what is left of the queue completes the sweep of q0. */
  ghost predicate SweepSoFar(taker: Side, limit: Option<int>, want: int, q0: Queue,
                             fills: seq<Execution>, filled: int, remaining: int, q: Queue)
  {
    var rest := SweepQueue(taker, limit, remaining, q);
    && filled == Executed(fills) && filled + remaining == want
    && SweepQueue(taker, limit, want, q0) == Sweep(fills + rest.fills, rest.left, rest.remaining)
  }

  lemma SweepBegins(taker: Side, limit: Option<int>, want: int, q: Queue)
    ensures SweepSoFar(taker, limit, want, q, [], 0, want, q)
  {
    assert [] + SweepQueue(taker, limit, want, q).fills == SweepQueue(taker, limit, want, q).fills;
  }

  lemma {:induction false} ExecutedConcat(a: seq<Execution>, b: seq<Execution>)
    ensures Executed(a + b) == Executed(a) + Executed(b)
  {
    if a == [] {
      assert a + b == b;
    } else {
      ExecutedConcat(a[1..], b);
      assert (a + b)[0] == a[0] && (a + b)[1..] == a[1..] + b;
    }
  }

  lemma ExecutedAppend(fills: seq<Execution>, e: Execution)
    ensures Executed(fills + [e]) == Executed(fills) + e.executed
  {
    ExecutedConcat(fills, [e]);
  }

  lemma SweepTakes(taker: Side, limit: Option<int>, want: int, q0: Queue,
                   fills: seq<Execution>, filled: int, remaining: int, q: Queue)
    requires SweepSoFar(taker, limit, want, q0, fills, filled, remaining, q)
    requires 0 < remaining && q != [] && Crosses(taker, limit, q[0].price) && q[0].quantity <= remaining
    ensures SweepSoFar(taker, limit, want, q0, fills + [Execution(q[0].id, q[0].price, q[0].quantity)],
                       filled + q[0].quantity, remaining - q[0].quantity, q[1..])
  {
    var e := Execution(q[0].id, q[0].price, q[0].quantity);
    var rest := SweepQueue(taker, limit, remaining - q[0].quantity, q[1..]);
    ExecutedAppend(fills, e);
    ConcatAssoc(fills, [e], rest.fills);
  }

  lemma SweepEndsInside(taker: Side, limit: Option<int>, want: int, q0: Queue,
                        fills: seq<Execution>, filled: int, remaining: int, q: Queue)
    requires SweepSoFar(taker, limit, want, q0, fills, filled, remaining, q)
    requires 0 < remaining && q != [] && Crosses(taker, limit, q[0].price) && q[0].quantity > remaining
    ensures var all := fills + [Execution(q[0].id, q[0].price, remaining)];
            && SweepQueue(taker, limit, want, q0)
            == Sweep(all, [q[0].(quantity := q[0].quantity - remaining)] + q[1..], 0)
            && Executed(all) == filled + remaining
  {
    ExecutedAppend(fills, Execution(q[0].id, q[0].price, remaining));
  }

  lemma SweepStops(taker: Side, limit: Option<int>, want: int, q0: Queue,
                   fills: seq<Execution>, filled: int, remaining: int, q: Queue)
    requires SweepSoFar(taker, limit, want, q0, fills, filled, remaining, q)
    requires remaining <= 0 || q == [] || !Crosses(taker, limit, q[0].price)
    ensures SweepQueue(taker, limit, want, q0) == Sweep(fills, q, remaining) && Executed(fills) == filled
  {
    assert fills + [] == fills;
  }

  // ---------- machine arithmetic of a loop that sweeps ----------

  /** One maker taken whole, what remains is a signed 32-bit quantity and the sweep still fits. */
  lemma MatchFitsOn(taker: Side, limit: Option<int>, want: int, q: Queue)
    requires MatchFits(taker, limit, want, q)
    requires 0 < want && q != [] && Crosses(taker, limit, q[0].price) && q[0].quantity <= want
    ensures 0 <= want - q[0].quantity <= INT32_MAX && MatchFits(taker, limit, want - q[0].quantity, q[1..])
  {
  }

  /** With positive makers every sweep fits. */
  lemma {:induction false} PositiveMatchFits(taker: Side, limit: Option<int>, want: int, q: Queue)
    requires Positive(q) && want <= INT32_MAX
    ensures MatchFits(taker, limit, want, q)
    decreases |q|
  {
    if q != [] {
      TailKeeps(taker, q);
      PositiveMatchFits(taker, limit, want - q[0].quantity, q[1..]);
    }
  }

  /** No number of first orders below k has the shares wanted. */
  ghost predicate StaysShort(q: Queue, k: nat, want: int)
    requires k <= |q|
  {
    forall j :: 0 <= j < k ==> Shares(q[..j]) < want
  }

  /** However many orders it takes while shares are wanting, those that remain are a signed 32-bit quantity. */
  ghost predicate RemainsInt32(q: Queue, want: int) {
    forall k :: 0 <= k <= |q| && StaysShort(q, k, want) ==> want - Shares(q[..k]) <= INT32_MAX
  }

  /** Sums over the first orders, with one order in front of the rest. */
  lemma PrefixCons(r: RestingView, q: Queue)
    ensures forall k :: 0 <= k <= |q| ==> Shares(([r] + q)[..k + 1]) == r.quantity + Shares(q[..k])
  {
    forall k | 0 <= k <= |q| ensures Shares(([r] + q)[..k + 1]) == r.quantity + Shares(q[..k]) {
      assert ([r] + q)[..k + 1] == [r] + q[..k];
      SharesConcat([r], q[..k]);
      SharesOne(r);
    }
  }

  lemma RemainsInt32Cons(r: RestingView, q: Queue, want: int)
    requires 0 < want <= INT32_MAX
    ensures RemainsInt32([r] + q, want) <==> RemainsInt32(q, want - r.quantity)
  {
    hide Shares;
    var all, less := [r] + q, want - r.quantity;
    PrefixCons(r, q);
    NothingToSum(all);
    forall k | 0 <= k <= |q| ensures StaysShort(all, k + 1, want) <==> StaysShort(q, k, less) {
      if StaysShort(all, k + 1, want) {
        forall j | 0 <= j < k ensures Shares(q[..j]) < less { assert Shares(all[..j + 1]) < want; }
      }
      if StaysShort(q, k, less) {
        forall j | 0 <= j < k + 1 ensures Shares(all[..j]) < want { if j > 0 { assert Shares(q[..j - 1]) < less; } }
      }
    }
    if RemainsInt32(all, want) {
      forall k | 0 <= k <= |q| && StaysShort(q, k, less) ensures less - Shares(q[..k]) <= INT32_MAX {
        assert StaysShort(all, k + 1, want);
      }
    }
    if RemainsInt32(q, less) {
      forall k | 0 <= k <= |all| && StaysShort(all, k, want) ensures want - Shares(all[..k]) <= INT32_MAX {
        if k > 0 { assert StaysShort(q, k - 1, less); }
      }
    }
  }

  lemma NothingToSum(q: Queue)
    ensures Shares(q[..0]) == 0
  {
  }

  /** What remains stays a signed 32-bit quantity throughout the sweep exactly when it does for the sums of the first
      crossing makers, up to those that have the shares. */
  lemma {:induction false} MatchFitsExactlyWhen(taker: Side, limit: Option<int>, want: int, q: Queue)
    requires Sorted(Opposite(taker), q) && want <= INT32_MAX
    ensures MatchFits(taker, limit, want, q) <==> RemainsInt32(Crossing(taker, limit, q), want)
    decreases |q|
  {
    hide Shares, Sorted, RemainsInt32;
    var c := Crossing(taker, limit, q);
    if want <= 0 {
      NothingRemains(c, want);
    } else if q == [] {
      NothingCrosses(want);
    } else if !Crosses(taker, limit, q[0].price) {
      CrossingIsPrefix(taker, limit, q);
      NothingCrosses(want);
    } else {
      TailKeeps(Opposite(taker), q);
      var rest, less := Crossing(taker, limit, q[1..]), want - q[0].quantity;
      RemainsInt32Cons(q[0], rest, want);
      if less <= INT32_MAX {
        MatchFitsExactlyWhen(taker, limit, less, q[1..]);
        if less <= 0 { NothingRemains(rest, less); }
      } else {
        TooMuchRemains(rest, less);
      }
    }
  }

  lemma NothingCrosses(want: int)
    requires want <= INT32_MAX
    ensures RemainsInt32([], want)
  {
  }

  lemma NothingRemains(q: Queue, want: int)
    requires want <= 0
    ensures RemainsInt32(q, want)
  {
    forall k | 0 <= k <= |q| && StaysShort(q, k, want) ensures want - Shares(q[..k]) <= INT32_MAX {
      NothingToSum(q);
    }
  }

  lemma TooMuchRemains(q: Queue, want: int)
    requires want > INT32_MAX
    ensures !RemainsInt32(q, want)
  {
    NothingToSum(q);
    assert StaysShort(q, 0, want);
  }

  // ---------- how much trades ----------

  /** In a sorted queue nothing behind an order that does not cross crosses either. */
  lemma CrossingIsPrefix(taker: Side, limit: Option<int>, q: Queue)
    requires Sorted(Opposite(taker), q) && q != [] && !Crosses(taker, limit, q[0].price)
    ensures Crossing(taker, limit, q) == []
  {
    forall r | r in q ensures !Crosses(taker, limit, r.price) {
      var i :| 0 <= i < |q| && q[i] == r;
      assert i > 0 ==> !Better(Opposite(taker), q[i].price, q[0].price);
    }
    CrossingNone(taker, limit, q);
  }

  lemma TailKeeps(side: Side, q: Queue)
    requires q != []
    ensures Sorted(side, q) ==> Sorted(side, q[1..])
    ensures Positive(q) ==> Positive(q[1..])
    ensures DistinctIds(q) ==> DistinctIds(q[1..])
  {
  }

  lemma {:induction false} MarketableNonNegative(taker: Side, limit: Option<int>, q: Queue)
    requires Positive(q)
    ensures Marketable(taker, limit, q) >= 0
  {
    if q != [] {
      TailKeeps(taker, q);
      MarketableNonNegative(taker, limit, q[1..]);
      SharesConcat(if Crosses(taker, limit, q[0].price) then [q[0]] else [], Crossing(taker, limit, q[1..]));
    }
  }

  /** What was wanted is executed or remains, whatever the makers' quantities. */
  lemma {:induction false} SweepConserves(taker: Side, limit: Option<int>, want: int, q: Queue)
    ensures var s := SweepQueue(taker, limit, want, q); Executed(s.fills) + s.remaining == want
    decreases |q|
  {
    if want > 0 && q != [] && Crosses(taker, limit, q[0].price) {
      if q[0].quantity > want {
        ExecutedAppend([], Execution(q[0].id, q[0].price, want));
        assert [] + [Execution(q[0].id, q[0].price, want)] == [Execution(q[0].id, q[0].price, want)];
      } else {
        SweepConserves(taker, limit, want - q[0].quantity, q[1..]);
        var first := Execution(q[0].id, q[0].price, q[0].quantity);
        var rest := SweepQueue(taker, limit, want - q[0].quantity, q[1..]).fills;
        ExecutedConcat([first], rest);
        ExecutedAppend([], first);
        assert [] + [first] == [first];
      }
    }
  }

  /** A sweep trades exactly the smaller of what is wanted and what crosses, wherever in the queue it stands. */
  lemma {:induction false} SweepTradesAllItCan(taker: Side, limit: Option<int>, want: int, q: Queue)
    requires Sorted(Opposite(taker), q) && Positive(q) && 0 <= want
    ensures var s := SweepQueue(taker, limit, want, q);
            var available := Marketable(taker, limit, q);
            && Executed(s.fills) == (if want <= available then want else available)
            && s.remaining == want - Executed(s.fills)
  {
    MarketableNonNegative(taker, limit, q);
    if q == [] || want == 0 {
    } else if !Crosses(taker, limit, q[0].price) {
      CrossingIsPrefix(taker, limit, q);
    } else {
      TailKeeps(Opposite(taker), q);
      SharesConcat([q[0]], Crossing(taker, limit, q[1..]));
      SharesOne(q[0]);
      MarketableNonNegative(taker, limit, q[1..]);
      if q[0].quantity <= want {
        SweepTradesAllItCan(taker, limit, want - q[0].quantity, q[1..]);
        ExecutedConcat([Execution(q[0].id, q[0].price, q[0].quantity)],
                       SweepQueue(taker, limit, want - q[0].quantity, q[1..]).fills);
      }
    }
  }

  lemma ReachesCons(r: RestingView, q: Queue, want: int)
    requires want > 0
    ensures Reaches([r] + q, want) <==> Reaches(q, want - r.quantity)
  {
    hide Shares;
    var all := [r] + q;
    PrefixCons(r, q);
    NothingToSum(all);
    if Reaches(all, want) {
      var k :| 0 <= k <= |all| && Shares(all[..k]) >= want;
      assert Shares(q[..k - 1]) >= want - r.quantity;
    }
    if Reaches(q, want - r.quantity) {
      var k :| 0 <= k <= |q| && Shares(q[..k]) >= want - r.quantity;
      assert Shares(all[..k + 1]) >= want;
    }
  }

  lemma ReachesAtOnce(q: Queue, want: int)
    ensures want <= 0 ==> Reaches(q, want)
    ensures q == [] && want > 0 ==> !Reaches(q, want)
  {
    NothingToSum(q);
  }

  /** Whatever the quantities, a sweep fills its order exactly when that is not negative and the first crossing makers,
      however many it takes, have the shares. */
  lemma {:induction false} SweepFillsExactlyWhen(taker: Side, limit: Option<int>, want: int, q: Queue)
    requires Sorted(Opposite(taker), q)
    ensures SweepQueue(taker, limit, want, q).remaining == 0 <==> want >= 0 && Reaches(Crossing(taker, limit, q), want)
    decreases |q|
  {
    hide Reaches, Sorted;
    ReachesAtOnce(Crossing(taker, limit, q), want);
    if want > 0 && q != [] {
      if !Crosses(taker, limit, q[0].price) {
        CrossingIsPrefix(taker, limit, q);
      } else {
        TailKeeps(Opposite(taker), q);
        var rest, less := Crossing(taker, limit, q[1..]), want - q[0].quantity;
        ReachesCons(q[0], rest, want);
        ReachesAtOnce(rest, less);
        if less >= 0 { SweepFillsExactlyWhen(taker, limit, less, q[1..]); }
      }
    }
  }

  /** A fill-or-kill order whose scan has passed fills exactly when the same holds of it. */
  lemma FillOrKillFillsExactlyWhen(b: Book, r: LimitOrderRequest)
    requires b.Ordered() && SubmitFillOrKill(b, r).1.status.Filled?
    ensures SubmitFillOrKill(b, r).1.filled == r.quantity
            <==> r.quantity >= 0 && Reaches(Crossing(r.side, Some(r.price), b.On(Opposite(r.side))), r.quantity)
  {
    hide SweepQueue, Executed, Reaches, Crossing, LooksLiquid, Book.UniqueIds, InRange, Sorted;
    SweepFillsExactlyWhen(r.side, Some(r.price), r.quantity, b.On(Opposite(r.side)));
    SweepConserves(r.side, Some(r.price), r.quantity, b.On(Opposite(r.side)));
  }

  /** No sweep takes more than was wanted. */
  lemma {:induction false} SweepRemains(taker: Side, limit: Option<int>, want: int, q: Queue)
    requires want >= 0
    ensures SweepQueue(taker, limit, want, q).remaining >= 0
    decreases |q|
  {
    if want > 0 && q != [] && q[0].quantity <= want { SweepRemains(taker, limit, want - q[0].quantity, q[1..]); }
  }

  /** Once enough shares cross, a sweep leaves nothing wanting. */
  lemma EnoughIsFilled(b: Book, taker: Side, price: int, quantity: int)
    requires b.Ordered() && Positive(b.On(Opposite(taker))) && 0 < quantity
    requires Marketable(taker, Some(price), b.On(Opposite(taker))) >= quantity
    ensures Match(b, taker, Some(price), quantity).remaining == 0
  {
    SweepTradesAllItCan(taker, Some(price), quantity, b.On(Opposite(taker)));
  }
}
