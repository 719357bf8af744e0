/** When fill-or-kill is all or nothing: the liquidity scan and the sweep behind it, over any quantities that
    may rest. */
module FillOrKill {
  import opened Types
  import opened PriceTime
  import opened QueueLemmas
  import opened LadderScans
  import opened TopLevels
  import opened LiquidityScan
  import opened Matching
  import opened BookSpec
  import opened BookInvariants
  import opened Requests

  // ---------- what is asserted ----------

  /** The makers a limit order may trade with. */
  function Makers(b: Book, r: LimitOrderRequest): Queue {
    Crossing(r.side, Some(r.price), b.On(Opposite(r.side)))
  }

  /** The scan says there is enough. */
  predicate ScanPasses(b: Book, r: LimitOrderRequest) {
    LooksLiquid(r.side, Some(r.price), b.On(Opposite(r.side)), r.quantity)
  }

  /** The assertion behind the loop that follows a passed scan: nothing remains. */
  predicate AssertionHolds(b: Book, r: LimitOrderRequest) {
    ScanPasses(b, r) ==> Match(b, r.side, Some(r.price), r.quantity).remaining == 0
  }

  /** Everything is filled, or nothing is and the book is as before. */
  ghost predicate AllOrNothing(b: Book, r: LimitOrderRequest) {
    var (after, result) := SubmitLimit(b, r);
    || (result.status == SubmitStatus.Filled && result.filled == r.quantity)
    || (after, result) == (b, SubmissionResult(r.quantity, 0, SubmitStatus.Killed, []))
  }

  /** A fill-or-kill order that is not rejected. */
  ghost predicate Accepted(b: Book, r: LimitOrderRequest) {
    r.tif == Fok && !b.Holds(r.id) && b.InBand(r.price)
  }

  // ---------- any book ----------

  /** The assertion holds, and fill-or-kill is all or nothing, exactly when the scan fails, or its quantity is not
      negative and the first crossing makers, however many it takes, have the shares. */
  lemma AllOrNothingExactlyWhen(b: Book, r: LimitOrderRequest)
    requires b.Ordered() && Accepted(b, r)
    ensures AssertionHolds(b, r) <==> ScanPasses(b, r) ==> r.quantity >= 0 && Reaches(Makers(b, r), r.quantity)
    ensures AllOrNothing(b, r) <==> AssertionHolds(b, r)
  {
    hide LooksLiquid, SweepQueue, Reaches, Crossing, Book.UniqueIds, InRange, Sorted;
    SweepFillsExactlyWhen(r.side, Some(r.price), r.quantity, b.On(Opposite(r.side)));
    SweepConserves(r.side, Some(r.price), r.quantity, b.On(Opposite(r.side)));
  }

  /** Once the scan passes, fill-or-kill does to the book what immediate-or-cancel does, with the same executions. */
  lemma PassedIsIoc(b: Book, r: LimitOrderRequest)
    requires Accepted(b, r) && ScanPasses(b, r)
    ensures var (after, result) := SubmitLimit(b, r);
            var (taken, ioc) := SubmitLimit(b, r.(tif := Ioc));
            && after == taken && result.executions == ioc.executions && result.filled == ioc.filled
            && (ioc.status == SubmitStatus.Filled <==> result.filled == r.quantity)
  {
    hide LooksLiquid, SweepQueue;
    SweepConserves(r.side, Some(r.price), r.quantity, b.On(Opposite(r.side)));
  }

  /** The best levels, for some number of them, have a negative sum. */
  ghost predicate Overdrawn(q: Queue) {
    exists k :: LevelEnd(q, k) && Shares(q[..k]) < 0
  }

  /** Seen in the makers' quantities: with fewer than 2^32 orders on a side, the assertion fails exactly when no number
      of first crossing makers has the shares, while the best levels, for some number of them, have a negative sum. */
  lemma AssertionFailsExactlyWhen(b: Book, r: LimitOrderRequest)
    requires b.Ordered() && Accepted(b, r) && r.quantity > 0
    requires Bounded(b.On(Opposite(r.side))) && |b.On(Opposite(r.side))| <= UINT32_MAX
    ensures !AssertionHolds(b, r) <==> !Reaches(Makers(b, r), r.quantity) && Overdrawn(Makers(b, r))
  {
    hide LooksLiquid, SweepQueue, Crossing, Book.UniqueIds, InRange, Sorted, Shares, WrapU64, ShowsEnough, LevelEnd;
    hide Reaches;
    var makers, c := b.On(Opposite(r.side)), Makers(b, r);
    AllOrNothingExactlyWhen(b, r);
    LooksLiquidExactlyWhen(r.side, Some(r.price), makers, r.quantity);
    CrossingBounded(r.side, Some(r.price), makers);
    ShowsEnoughExactlyWhen(c, r.quantity);
  }

  lemma {:induction false} CrossingBounded(taker: Side, limit: Option<int>, q: Queue)
    requires forall i :: 0 <= i < |q| ==> IsInt32(q[i].quantity)
    ensures var c := Crossing(taker, limit, q); |c| <= |q| && forall i :: 0 <= i < |c| ==> IsInt32(c[i].quantity)
  {
    if q != [] {
      CrossingBounded(taker, limit, q[1..]);
      var rest := Crossing(taker, limit, q[1..]);
      assert [] + rest == rest;
    }
  }

  /** Sums of fewer than 2^32 orders read as enough when they are, and when they are negative. */
  lemma ShowsEnoughExactlyWhen(q: Queue, want: int)
    requires |q| <= UINT32_MAX && forall i :: 0 <= i < |q| ==> IsInt32(q[i].quantity)
    requires 0 < want <= INT32_MAX
    ensures ShowsEnough(q, 0, want) && !Reaches(q, want) ==> Overdrawn(q)
    ensures Overdrawn(q) ==> ShowsEnough(q, 0, want)
  {
    hide Shares, WrapU64;
    if ShowsEnough(q, 0, want) {
      var k :| LevelEnd(q, k) && WrapU64(0 + Shares(q[..k])) >= want;
      PrefixReads(q, k, want);
    }
    if Overdrawn(q) {
      var k :| LevelEnd(q, k) && Shares(q[..k]) < 0;
      PrefixReads(q, k, want);
      assert WrapU64(0 + Shares(q[..k])) >= want;
    }
  }

  lemma PrefixReads(q: Queue, k: nat, want: int)
    requires k <= |q| <= UINT32_MAX && forall i :: 0 <= i < |q| ==> IsInt32(q[i].quantity)
    requires 0 < want <= INT32_MAX
    ensures WrapU64(Shares(q[..k])) >= want <==> Shares(q[..k]) >= want || Shares(q[..k]) < 0
  {
    hide Shares;
    SharesBound(q[..k]);
  }

  // ---------- sound books ----------

  /** Over positive makers a passed scan is always right. */
  lemma PassedScanIsRight(b: Book, r: LimitOrderRequest)
    requires b.WellFormed() && r.quantity > 0
    ensures AssertionHolds(b, r)
  {
    hide LooksLiquid, SweepQueue, Book.UniqueIds, InRange, Sorted, Crossing, Shares;
    if ScanPasses(b, r) {
      var makers, c := b.On(Opposite(r.side)), Makers(b, r);
      LooksLiquidExactlyWhen(r.side, Some(r.price), makers, r.quantity);
      var k :| LevelEnd(c, k) && WrapU64(0 + Shares(c[..k])) >= r.quantity;
      CrossingPositive(r.side, Some(r.price), makers);
      PositiveShares(c[..k]);
      SweepFillsExactlyWhen(r.side, Some(r.price), r.quantity, makers);
    }
  }

  lemma {:induction false} CrossingPositive(taker: Side, limit: Option<int>, q: Queue)
    requires Positive(q)
    ensures Positive(Crossing(taker, limit, q))
  {
    if q != [] {
      CrossingPositive(taker, limit, q[1..]);
      var rest := Crossing(taker, limit, q[1..]);
      assert [] + rest == rest;
    }
  }

  /** Over positive makers, fill-or-kill fills exactly when enough shares cross, and then does what immediate-or-cancel
      does; otherwise it leaves the book as it was. */
  lemma FillOrKillIsAllOrNothing(b: Book, r: LimitOrderRequest)
    requires b.WellFormed() && Bounded(b.On(Opposite(r.side))) && Accepted(b, r) && r.quantity > 0
    ensures var (after, result) := SubmitLimit(b, r);
            var available := Marketable(r.side, Some(r.price), b.On(Opposite(r.side)));
            if available >= r.quantity then
              && result.status == SubmitStatus.Filled && result.filled == r.quantity
              && (after, result) == SubmitLimit(b, r.(tif := Ioc))
            else
              after == b && result == SubmissionResult(r.quantity, 0, SubmitStatus.Killed, [])
  {
    hide Bounded, LooksLiquid, Marketable;
    LiquidIsMarketable(r.side, Some(r.price), b.On(Opposite(r.side)), r.quantity);
    SweepTradesAllItCan(r.side, Some(r.price), r.quantity, b.On(Opposite(r.side)));
  }

  // ---------- a negative maker ----------

  /** A resting ask of -5 shares, which a single request leaves in an empty book, shows a volume of 2^64 - 5: the scan
      for a fill-or-kill buy of 3 finds enough, the sweep takes the negative maker and ends with 8 shares remaining, and
      the assertion behind the loop fails. */
  lemma NegativeMakerFoolsTheScan()
    ensures var asks := [RestingView(10, 1, -5, GoodTillCancel)];
            var b, r := Book(1, 20, [], asks), LimitOrderRequest(2, 10, 3, Buy, Fok);
            && Apply(EmptyBook(1, 20), Limit(LimitOrderRequest(1, 10, -5, Sell, Gtc))).0 == b
            && ScanPasses(b, r) && !AssertionHolds(b, r)
            && SweepQueue(Buy, Some(10), 3, asks) == Sweep([Execution(1, 10, -5)], [], 8)
  {
  }
}
