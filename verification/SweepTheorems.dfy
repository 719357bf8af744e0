/** The greedy sweep against an independent definition of price-time priority. */
module SweepTheorems {
  import opened Types
  import opened PriceTime
  import opened QueueLemmas
  import opened LadderScans
  import opened Matching

  /** Price-time priority, stated as what a fair fill looks like: the makers are a prefix of the queue, in
      order, each crossing the limit; every maker but the last is taken whole; the untouched rest of the queue
      keeps its order; and no tradable share is left wanting. */
  ghost predicate FairFill(taker: Side, limit: Option<int>, want: int, q: Queue, fills: seq<Execution>, left: Queue) {
    && |fills| <= |q|
    && (forall i :: 0 <= i < |fills| ==> FillOf(taker, limit, q[i], fills[i]))
    && (forall i :: 0 <= i < |fills| - 1 ==> fills[i].executed == q[i].quantity)
    && left == Untouched(q, fills)
    && var available := Marketable(taker, limit, q);
       Executed(fills) == if want <= available then want else available
  }

  predicate FillOf(taker: Side, limit: Option<int>, maker: RestingView, fill: Execution) {
    && Crosses(taker, limit, maker.price)
    && fill.makerId == maker.id && fill.makerPrice == maker.price && 0 < fill.executed <= maker.quantity
  }

  /** The queue without the shares of these fills. */
  function Untouched(q: Queue, fills: seq<Execution>): Queue
    requires |fills| <= |q|
  {
    if fills == [] then q
    else
      var last := |fills| - 1;
      var rest := q[last].quantity - fills[last].executed;
      (if rest > 0 then [q[last].(quantity := rest)] else []) + q[|fills|..]
  }

  lemma {:induction false} NoSharesNoFills(taker: Side, limit: Option<int>, q: Queue, fills: seq<Execution>)
    requires |fills| <= |q| && forall i :: 0 <= i < |fills| ==> FillOf(taker, limit, q[i], fills[i])
    ensures Executed(fills) >= 0 && (fills != [] ==> Executed(fills) >= fills[0].executed > 0)
  {
    if fills != [] {
      assert FillOf(taker, limit, q[0], fills[0]);
      forall i | 0 <= i < |fills[1..]| ensures FillOf(taker, limit, q[1..][i], fills[1..][i]) {
        assert FillOf(taker, limit, q[i + 1], fills[i + 1]);
      }
      NoSharesNoFills(taker, limit, q[1..], fills[1..]);
    }
  }

  /** Taking the first order whole and filling the rest fairly is fair. */
  lemma FairPrepend(taker: Side, limit: Option<int>, want: int, q: Queue, fills: seq<Execution>, left: Queue)
    requires q != [] && Crosses(taker, limit, q[0].price) && 0 < q[0].quantity <= want
    requires FairFill(taker, limit, want - q[0].quantity, q[1..], fills, left)
    ensures FairFill(taker, limit, want, q, [Execution(q[0].id, q[0].price, q[0].quantity)] + fills, left)
  {
    hide Crossing, Shares;
    var first := Execution(q[0].id, q[0].price, q[0].quantity);
    var all := [first] + fills;
    MarketableStep(taker, limit, q);
    forall i | 0 <= i < |all|
      ensures FillOf(taker, limit, q[i], all[i]) && (i < |all| - 1 ==> all[i].executed == q[i].quantity)
    {
      if i > 0 { assert FillOf(taker, limit, q[1..][i - 1], fills[i - 1]); }
    }
    UntouchedPrepend(q, first, fills);
  }

  lemma UntouchedPrepend(q: Queue, first: Execution, fills: seq<Execution>)
    requires |fills| < |q| && first.executed == q[0].quantity
    ensures Untouched(q, [first] + fills) == Untouched(q[1..], fills)
  {
    var all := [first] + fills;
    DropTwice(q, |fills|);
    if fills == [] {
      assert all[0] == first;
    } else {
      var last := |fills| - 1;
      assert all[last + 1] == fills[last];
      assert q[1..][last] == q[last + 1];
    }
  }

  lemma DropTwice<T>(s: seq<T>, n: nat)
    requires n < |s|
    ensures s[1..][n..] == s[n + 1..]
  {
  }

  lemma FairStop(taker: Side, limit: Option<int>, want: int, q: Queue)
    requires Sorted(Opposite(taker), q) && Positive(q) && 0 <= want
    requires want == 0 || q == [] || !Crosses(taker, limit, q[0].price)
    ensures FairFill(taker, limit, want, q, [], q)
  {
    MarketableNonNegative(taker, limit, q);
    if want > 0 && q != [] { CrossingIsPrefix(taker, limit, q); }
  }

  lemma PartUntouched(q: Queue, e: Execution)
    requires q != [] && e.executed < q[0].quantity
    ensures Untouched(q, [e]) == [q[0].(quantity := q[0].quantity - e.executed)] + q[1..]
    ensures Executed([e]) == e.executed
  {
    assert [e][1..] == [];
  }

  lemma FairPart(taker: Side, limit: Option<int>, want: int, q: Queue)
    requires Positive(q) && q != [] && Crosses(taker, limit, q[0].price) && 0 < want < q[0].quantity
    ensures FairFill(taker, limit, want, q, [Execution(q[0].id, q[0].price, want)],
                     [q[0].(quantity := q[0].quantity - want)] + q[1..])
  {
    hide Crossing, Shares, Untouched, Executed;
    MarketableStep(taker, limit, q);
    TailKeeps(taker, q);
    MarketableNonNegative(taker, limit, q[1..]);
    PartUntouched(q, Execution(q[0].id, q[0].price, want));
  }

  /** The sweep is a fair fill. */
  lemma {:induction false} SweepIsFair(taker: Side, limit: Option<int>, want: int, q: Queue)
    requires Sorted(Opposite(taker), q) && Positive(q) && 0 <= want
    ensures var s := SweepQueue(taker, limit, want, q); FairFill(taker, limit, want, q, s.fills, s.left)
  {
    hide FairFill, Sorted;
    if want == 0 || q == [] || !Crosses(taker, limit, q[0].price) {
      FairStop(taker, limit, want, q);
    } else if q[0].quantity > want {
      FairPart(taker, limit, want, q);
    } else {
      TailKeeps(Opposite(taker), q);
      SweepIsFair(taker, limit, want - q[0].quantity, q[1..]);
      var t := SweepQueue(taker, limit, want - q[0].quantity, q[1..]);
      FairPrepend(taker, limit, want, q, t.fills, t.left);
    }
  }

  /** It is the only one: price-time priority and trading all that can trade leave no choice. */
  lemma {:induction false} FairFillIsUnique(taker: Side, limit: Option<int>, want: int, q: Queue, fills: seq<Execution>,
                                            left: Queue)
    requires Sorted(Opposite(taker), q) && Positive(q) && 0 <= want
    requires FairFill(taker, limit, want, q, fills, left)
    ensures fills == SweepQueue(taker, limit, want, q).fills && left == SweepQueue(taker, limit, want, q).left
    decreases |q|
  {
    hide FairFill, Sorted;
    if want == 0 || q == [] || !Crosses(taker, limit, q[0].price) {
      FairWithoutShares(taker, limit, want, q, fills, left);
    } else {
      TailKeeps(Opposite(taker), q);
      FirstFill(taker, limit, want, q, fills, left);
      if q[0].quantity <= want {
        TailIsFair(taker, limit, want, q, fills, left);
        FairFillIsUnique(taker, limit, want - q[0].quantity, q[1..], fills[1..], left);
        assert fills == [fills[0]] + fills[1..];
      }
    }
  }

  lemma FairWithoutShares(taker: Side, limit: Option<int>, want: int, q: Queue, fills: seq<Execution>, left: Queue)
    requires Positive(q) && 0 <= want && FairFill(taker, limit, want, q, fills, left)
    requires want == 0 || q == [] || !Crosses(taker, limit, q[0].price)
    ensures fills == [] && left == q
  {
    NoSharesNoFills(taker, limit, q, fills);
    MarketableNonNegative(taker, limit, q);
    assert fills == [] || FillOf(taker, limit, q[0], fills[0]);
  }

  /** What a fair fill must begin with when something can trade. */
  lemma FirstFill(taker: Side, limit: Option<int>, want: int, q: Queue, fills: seq<Execution>, left: Queue)
    requires Positive(q) && q != [] && 0 < want && Crosses(taker, limit, q[0].price)
    requires FairFill(taker, limit, want, q, fills, left)
    ensures fills != [] && fills[0].makerId == q[0].id && fills[0].makerPrice == q[0].price
    ensures q[0].quantity <= want ==> fills[0].executed == q[0].quantity
    ensures q[0].quantity > want ==>
              fills == [Execution(q[0].id, q[0].price, want)]
                  && left == [q[0].(quantity := q[0].quantity - want)] + q[1..]
  {
    hide Crossing, Shares;
    NoSharesNoFills(taker, limit, q, fills);
    TailKeeps(taker, q);
    MarketableStep(taker, limit, q);
    MarketableNonNegative(taker, limit, q[1..]);
    assert fills != [];
    assert FillOf(taker, limit, q[0], fills[0]);
    TailFills(taker, limit, q, fills);
    NoSharesNoFills(taker, limit, q[1..], fills[1..]);
    if q[0].quantity > want { OnlyOneFill(want, q, fills); }
  }

  lemma TailFills(taker: Side, limit: Option<int>, q: Queue, fills: seq<Execution>)
    requires 0 < |fills| <= |q| && forall i :: 0 <= i < |fills| ==> FillOf(taker, limit, q[i], fills[i])
    ensures forall i :: 0 <= i < |fills[1..]| ==> FillOf(taker, limit, q[1..][i], fills[1..][i])
  {
    forall i | 0 <= i < |fills[1..]| ensures FillOf(taker, limit, q[1..][i], fills[1..][i]) {
      assert FillOf(taker, limit, q[i + 1], fills[i + 1]);
    }
  }

  lemma MarketableStep(taker: Side, limit: Option<int>, q: Queue)
    requires q != [] && Crosses(taker, limit, q[0].price)
    ensures Marketable(taker, limit, q) == q[0].quantity + Marketable(taker, limit, q[1..])
  {
    SharesConcat([q[0]], Crossing(taker, limit, q[1..]));
    SharesOne(q[0]);
  }

  lemma OnlyOneFill(want: int, q: Queue, fills: seq<Execution>)
    requires 0 < |fills| <= |q| && q[0].quantity > want
    requires forall i :: 0 <= i < |fills| - 1 ==> fills[i].executed == q[i].quantity
    requires Executed(fills) == want && Executed(fills[1..]) >= 0
    ensures |fills| == 1 && fills[0].executed == want
  {
    var first := fills[0];
    assert Executed(fills) == first.executed + Executed(fills[1..]);
  }

  lemma TailIsFair(taker: Side, limit: Option<int>, want: int, q: Queue, fills: seq<Execution>, left: Queue)
    requires FairFill(taker, limit, want, q, fills, left) && fills != []
    requires Crosses(taker, limit, q[0].price) && fills[0].executed == q[0].quantity <= want
    ensures FairFill(taker, limit, want - q[0].quantity, q[1..], fills[1..], left)
  {
    hide Crossing, Shares, Untouched, FillOf;
    MarketableStep(taker, limit, q);
    TailFills(taker, limit, q, fills);
    UntouchedPrepend(q, fills[0], fills[1..]);
    assert fills == [fills[0]] + fills[1..];
    forall i | 0 <= i < |fills[1..]| - 1 ensures fills[1..][i].executed == q[1..][i].quantity {
      assert fills[i + 1].executed == q[i + 1].quantity;
    }
  }

  /** Makers are taken from the best price on: no execution is at a better price than an earlier one. */
  lemma MakerPricesNeverImprove(taker: Side, limit: Option<int>, want: int, q: Queue, i: nat, j: nat)
    requires Sorted(Opposite(taker), q) && Positive(q) && 0 <= want
    requires i < j < |SweepQueue(taker, limit, want, q).fills|
    ensures var fills := SweepQueue(taker, limit, want, q).fills;
            !Better(Opposite(taker), fills[j].makerPrice, fills[i].makerPrice)
  {
    SweepIsFair(taker, limit, want, q);
    var fills := SweepQueue(taker, limit, want, q).fills;
    assert FillOf(taker, limit, q[i], fills[i]) && FillOf(taker, limit, q[j], fills[j]);
  }

  /** Time priority: when an order trades, every order that stood ahead of it has left the book. */
  lemma NobodyIsOvertaken(taker: Side, limit: Option<int>, want: int, q: Queue, ahead: nat, maker: nat)
    requires Sorted(Opposite(taker), q) && Positive(q) && DistinctIds(q) && 0 <= want
    requires ahead < maker < |q|
    requires exists k :: 0 <= k < |SweepQueue(taker, limit, want, q).fills|
                         && SweepQueue(taker, limit, want, q).fills[k].makerId == q[maker].id
    ensures q[ahead].id !in Ids(SweepQueue(taker, limit, want, q).left)
  {
    SweepIsFair(taker, limit, want, q);
    var s := SweepQueue(taker, limit, want, q);
    var k :| 0 <= k < |s.fills| && s.fills[k].makerId == q[maker].id;
    assert FillOf(taker, limit, q[k], s.fills[k]);
    assert k == maker;
    forall r | r in s.left ensures r.id != q[ahead].id {
      LeftIsBehind(q, s.fills, r);
    }
  }

  lemma LeftIsBehind(q: Queue, fills: seq<Execution>, r: RestingView)
    requires 0 < |fills| <= |q| && r in Untouched(q, fills)
    ensures exists i :: |fills| - 1 <= i < |q| && q[i].id == r.id
  {
    if r in q[|fills|..] {
      var i :| 0 <= i < |q| - |fills| && q[|fills|..][i] == r;
      assert q[|fills| + i] == r;
    } else {
      assert r.id == q[|fills| - 1].id;
    }
  }
}
