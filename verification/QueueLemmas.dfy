/** Facts about the queue functions of PriceTime. */
module QueueLemmas {
  import opened Types
  import opened PriceTime

  lemma ConcatAssoc<T>(a: seq<T>, b: seq<T>, c: seq<T>)
    ensures a + (b + c) == (a + b) + c
  {
  }

  lemma {:induction false} SharesConcat(a: Queue, b: Queue)
    ensures Shares(a + b) == Shares(a) + Shares(b)
  {
    if a == [] {
      assert a + b == b;
    } else {
      SharesConcat(a[1..], b);
      assert (a + b)[1..] == a[1..] + b;
    }
  }

  lemma SharesOne(r: RestingView)
    ensures Shares([r]) == r.quantity
  {
  }

  lemma SharesAppend(a: Queue, r: RestingView)
    ensures Shares(a + [r]) == Shares(a) + r.quantity
  {
    SharesConcat(a, [r]);
  }

  /** Fewer than 2^32 orders of 32-bit quantities have fewer than 2^63 shares: unless it is negative, a level's volume
      does not wrap. */
  lemma SharesBound(q: Queue)
    requires |q| <= UINT32_MAX && forall i :: 0 <= i < |q| ==> IsInt32(q[i].quantity)
    ensures -TWO_TO_63 < Shares(q) < TWO_TO_63
    ensures WrapU64(Shares(q)) == Shares(q) <==> Shares(q) >= 0
  {
    SharesBetween(q);
  }

  lemma {:induction false} SharesBetween(q: Queue)
    requires forall i :: 0 <= i < |q| ==> IsInt32(q[i].quantity)
    ensures -|q| * TWO_TO_31 <= Shares(q) <= |q| * INT32_MAX
  {
    if q != [] { SharesBetween(q[1..]); }
  }

  lemma {:induction false} WithLifetimeConcat(a: Queue, b: Queue, lifetime: RestingLifetime)
    ensures WithLifetime(a + b, lifetime) == WithLifetime(a, lifetime) + WithLifetime(b, lifetime)
  {
    if a == [] {
      assert a + b == b;
    } else {
      WithLifetimeConcat(a[1..], b, lifetime);
      assert (a + b)[0] == a[0] && (a + b)[1..] == a[1..] + b;
      var first := if a[0].lifetime == lifetime then [a[0]] else [];
      ConcatAssoc(first, WithLifetime(a[1..], lifetime), WithLifetime(b, lifetime));
    }
  }

  lemma {:induction false} InsertBetween(side: Side, a: Queue, b: Queue, r: RestingView)
    requires forall x :: x in a ==> !Better(side, r.price, x.price)
    requires forall x :: x in b ==> Better(side, r.price, x.price)
    ensures Insert(side, a + b, r) == a + [r] + b
  {
    if a == [] {
      assert a + b == b;
      assert b != [] ==> b[0] in b;
    } else {
      assert a[0] in a;
      InsertBetween(side, a[1..], b, r);
      assert (a + b)[0] == a[0] && (a + b)[1..] == a[1..] + b;
      assert a + [r] + b == [a[0]] + (a[1..] + [r] + b);
    }
  }

  lemma {:induction false} RemoveBetween(a: Queue, r: RestingView, b: Queue)
    requires DistinctIds(a + [r] + b)
    ensures Remove(a + [r] + b, r.id) == a + b
  {
    if a == [] {
      assert a + [r] + b == [r] + b;
      assert a + b == b;
    } else {
      var q := a + [r] + b;
      assert q[0] == a[0] && q[|a|] == r;
      assert q[1..] == a[1..] + [r] + b;
      RemoveBetween(a[1..], r, b);
      assert a + b == [a[0]] + (a[1..] + b);
    }
  }

  lemma {:induction false} ReduceBetween(a: Queue, r: RestingView, b: Queue, n: int)
    requires DistinctIds(a + [r] + b)
    ensures Reduce(a + [r] + b, r.id, n) == a + [r.(quantity := r.quantity - n)] + b
  {
    var less := r.(quantity := r.quantity - n);
    if a == [] {
      assert a + [r] + b == [r] + b;
      assert a + [less] + b == [less] + b;
    } else {
      var q := a + [r] + b;
      assert q[0] == a[0] && q[|a|] == r;
      assert q[1..] == a[1..] + [r] + b;
      ReduceBetween(a[1..], r, b, n);
      assert a + [less] + b == [a[0]] + (a[1..] + [less] + b);
    }
  }

  lemma {:induction false} FindDistinct(q: Queue, r: RestingView)
    requires DistinctIds(q) && r in q
    ensures Find(q, r.id) == Some(r)
  {
    if q[0] != r {
      var i :| 1 <= i < |q| && q[i] == r;
      assert q[1..][i - 1] == r;
      FindDistinct(q[1..], r);
    }
  }

  lemma {:induction false} FindAbsent(q: Queue, id: OrderId)
    ensures Find(q, id).None? <==> id !in Ids(q)
    ensures Find(q, id).Some? ==> Find(q, id).value in q && Find(q, id).value.id == id
  {
    if q != [] {
      FindAbsent(q[1..], id);
      assert q == [q[0]] + q[1..];
    }
  }

  lemma SortedTail(side: Side, q: Queue)
    requires Sorted(side, q) && q != []
    ensures Sorted(side, q[1..]) && forall r :: r in q[1..] ==> !Better(side, r.price, q[0].price)
  {
  }

  lemma SortedCons(side: Side, r: RestingView, q: Queue)
    requires Sorted(side, q) && forall x :: x in q ==> !Better(side, x.price, r.price)
    ensures Sorted(side, [r] + q)
  {
    forall i | 0 <= i < |q| ensures !Better(side, q[i].price, r.price) { assert q[i] in q; }
  }

  lemma {:induction false} LifetimeMembers(q: Queue, lifetime: RestingLifetime)
    ensures forall r :: r in WithLifetime(q, lifetime) <==> r in q && r.lifetime == lifetime
  {
    if q != [] {
      LifetimeMembers(q[1..], lifetime);
      assert q == [q[0]] + q[1..];
    }
  }
}
