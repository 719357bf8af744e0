/** Unsigned share counts of messages as signed quantities of the book: which counts do what their messages mean. */
module ShareCounts {
  import opened Types
  import opened PriceTime
  import opened BookSpec
  import opened Requests
  import opened OrderKinds
  import opened ReplayTheorems
  import opened ReplayRuns
  import opened RunSizes
  import opened ReplayReport
  import opened ItchWire
  import opened ItchFraming
  import opened ItchAnyInput
  import opened ItchReplayEngine

  /** The share count of an order message; a deletion has none. */
  function SharesOf(m: Message): U32
    requires IsOrderMessage(m)
  {
    match m
    case AddOrder(_, _, _, _, _, shares, _, _) => shares
    case AddOrderWithMpid(_, _, _, _, _, shares, _, _, _) => shares
    case OrderExecuted(_, _, _, _, shares, _) => shares
    case OrderExecutedWithPrice(_, _, _, _, shares, _, _, _) => shares
    case OrderCancel(_, _, _, _, shares) => shares
    case OrderDelete(_, _, _, _) => 0
    case OrderReplace(_, _, _, _, _, shares, _) => shares
  }

  predicate FitsSigned(m: Message) {
    IsOrderMessage(m) ==> SharesOf(m) < TWO_TO_31
  }

  lemma SignedShares(shares: U32)
    ensures WrapI32(shares) > 0 <==> 0 < shares < TWO_TO_31
    ensures WrapI32(shares) >= 0 <==> shares < TWO_TO_31
    ensures WrapI32(shares) == 0 <==> shares == 0
  {
  }

  // ---------- one message ----------

  /** An execution or cancellation that is applied leaves its order gone or with fewer shares exactly when its share
      count is below 2^31. */
  lemma TakesSharesExactlyWhenSigned(b: Book, m: Message)
    requires m.OrderExecuted? || m.OrderExecutedWithPrice? || m.OrderCancel?
    requires b.WellFormed() && Apply(b, RequestOf(m)).1 == Replayed(true)
    ensures var was, now := b.Lookup(m.orderReferenceNumber), Apply(b, RequestOf(m)).0.Lookup(m.orderReferenceNumber);
            && was.Some?
            && (now.None? || now.value.quantity < was.value.quantity <==> SharesOf(m) < TWO_TO_31)
  {
    hide Book.WellFormed, Book.Lookup, ReplayReduce, WrapI32;
    SignedShares(SharesOf(m));
    ZeroIsRefused(b, m.orderReferenceNumber);
    ReduceShrinksExactlyWhenPositive(b, m.orderReferenceNumber, WrapI32(SharesOf(m)));
  }

  lemma ZeroIsRefused(b: Book, id: OrderId)
    ensures !ReplayReduce(b, id, 0).1
  {
  }

  /** An add or a replacement that is applied keeps the book sound exactly when its share count is below 2^31. */
  lemma RestsSoundlyExactlyWhenSigned(b: Book, m: Message)
    requires m.AddOrder? || m.AddOrderWithMpid? || m.OrderReplace?
    requires b.WellFormed() && Apply(b, RequestOf(m)).1 == Replayed(true)
    ensures Apply(b, RequestOf(m)).0.WellFormed() <==> SharesOf(m) < TWO_TO_31
  {
    hide Book.WellFormed, WrapI32, Rest, Cancel, Ids, Find;
    var n := WrapI32(SharesOf(m));
    SignedShares(SharesOf(m));
    if m.OrderReplace? {
      var was, now := m.originalOrderReferenceNumber, m.newOrderReferenceNumber;
      ReplayReplaceKeepsSoundExactlyWhenPositive(b, was, now, m.price, n);
    } else {
      var side := SideOfIndicator(m.buySellIndicator);
      ReplayAddKeepsSoundExactlyWhenPositive(b, m.orderReferenceNumber, m.price, n, side);
    }
  }

  /** One resting order of 5 shares, and an execution of 2^32 - 1: it is counted as applied, and the order
      has 6 shares. */
  lemma HugeExecutionEnlarges()
    ensures var before := Book(1, 100, [RestingView(50, 1, 5, GoodTillCancel)], []);
            var after := Book(1, 100, [RestingView(50, 1, 6, GoodTillCancel)], []);
            var none := Counts(0, 0, 0, 0, 0, 0);
            && before.WellFormed() && after.WellFormed()
            && AfterMessage(EngineState([], Some(7), none, before), OrderExecuted(7, 0, 0, 1, 0xFFFF_FFFF, 0))
               == EngineState([], Some(7), none.(executions := 1), after)
  {
    hide SubmitLimit, SubmitMarket, Cancel, Modify, SessionEnd, ReplayAdd, ReplayDelete, ReplayReplace;
    var r := RestingView(50, 1, 5, GoodTillCancel);
    var b := Book(1, 100, [r], []);
    assert r in b.bids && 1 in Ids(b.bids);
    assert b.Lookup(1) == Some(r);
    assert WrapI32(0xFFFF_FFFF) == -1;
    assert [r][1..] == [];
    assert Reduce([r], 1, -1) == [r.(quantity := 6)] + [];
  }

  // ---------- whole replays ----------

  lemma {:induction false} RelevantIsPart(symbol: Bytes, target: Option<U16>, ms: seq<Message>)
    ensures |Relevant(symbol, target, ms)| <= |ms|
    ensures forall m :: m in Relevant(symbol, target, ms) ==> m in ms
    decreases |ms|
  {
    hide Concerns, Retarget;
    if ms != [] { RelevantIsPart(symbol, Retarget(symbol, target, ms[0]), ms[1..]); }
  }

  lemma SignedIsOrdinary(m: Message)
    requires IsOrderMessage(m) && FitsSigned(m)
    ensures Ordinary(RequestOf(m))
  {
    SignedShares(SharesOf(m));
  }

  /** Share counts below 2^31 in all order messages, and fewer than 2^32 orders and messages together, are enough for
      the machine integers of a whole replay. */
  lemma SignedSharesFit(e: EngineState, ms: seq<Message>)
    requires e.book.WellFormed() && SmallBook(e.book) && Size(e.book) + |ms| <= UINT32_MAX
    requires forall m :: m in ms ==> FitsSigned(m)
    ensures MessagesFit(e, ms)
  {
    hide Book.WellFormed, Relevant, MessagesFit, RunFits, RequestsOf, RequestOf, FitsSigned, Ordinary, Size;
    hide AfterMessages, Run, SmallBook;
    var relevant := Relevant(e.symbol, e.target, ms);
    RelevantIsPart(e.symbol, e.target, ms);
    EngineIsRun(e, ms);
    RequestsLength(relevant);
    var rs := RequestsOf(relevant);
    forall i | 0 <= i < |rs| ensures Ordinary(rs[i]) {
      assert relevant[i] in relevant;
      RequestAt(relevant, i);
      SignedIsOrdinary(relevant[i]);
    }
    OrdinaryRunFits(e.book, rs);
  }

  lemma RequestAt(ms: seq<Message>, i: nat)
    requires i < |ms| && forall m :: m in ms ==> IsOrderMessage(m)
    ensures i < |RequestsOf(ms)| && RequestsOf(ms)[i] == RequestOf(ms[i])
  {
  }

  /** A file dispatches no more messages than it has frames, and one that its end cuts short; every one of them is a
      frame's or that one. */
  lemma MessagesOfFile(bytes: Bytes, stop: Option<U64>)
    ensures var ms := FileParsed(bytes, stop).messages;
            && |ms| <= |Frames(bytes)| + 1
            && forall m :: m in ms ==> Known(m) in Frames(bytes) || m in TailParsed(Tail(bytes), stop).messages
  {
    hide Frames, Tail, TailParsed, Dispatched;
    var frames, tail := Frames(bytes), TailParsed(Tail(bytes), stop);
    var ms := Dispatched(frames, stop, tail).messages;
    CutShort(Tail(bytes), stop);
    DispatchesAtMost(frames, stop, tail);
  }

  lemma CutShort(tail: Bytes, stop: Option<U64>)
    requires !StartsWithFrame(tail)
    ensures |TailParsed(tail, stop).messages| <= 1
  {
  }

  lemma {:induction false} DispatchesAtMost(fs: seq<Frame>, stop: Option<U64>, tail: Parsed)
    ensures var ms := Dispatched(fs, stop, tail).messages;
            && |ms| <= |fs| + |tail.messages|
            && forall m :: m in ms ==> Known(m) in fs || m in tail.messages
    decreases |fs|
  {
    if fs != [] {
      DispatchesAtMost(fs[1..], stop, tail);
      assert fs == [fs[0]] + fs[1..];
    }
  }

  lemma SignedFileFits(symbol: Bytes, minPrice: int, maxPrice: int, bytes: Bytes, stop: Option<U64>)
    requires |Frames(bytes)| < UINT32_MAX
    requires forall m :: Known(m) in Frames(bytes) ==> FitsSigned(m)
    requires forall m :: m in TailParsed(Tail(bytes), stop).messages ==> FitsSigned(m)
    ensures MessagesFit(NewEngine(symbol, minPrice, maxPrice), FileParsed(bytes, stop).messages)
  {
    hide MessagesFit, FileParsed, FitsSigned;
    MessagesOfFile(bytes, stop);
    SignedSharesFit(NewEngine(symbol, minPrice, maxPrice), FileParsed(bytes, stop).messages);
  }

  /** Replays a file of any bytes with conditions on the bytes alone: fewer than 2^32 frames, and share counts below
      2^31, also in a message that the end of the file cuts short. */
  method ReplaySignedFile(bytes: Bytes, symbol: Bytes, initialPoolSize: nat,
                          minPrice: Types.Price, maxPrice: Types.Price, stopTimestamp: Option<U64>)
    returns (engine: ItchReplayEngine, outcome: Outcome)
    requires initialPoolSize >= 1 && minPrice <= maxPrice && |Frames(bytes)| < UINT32_MAX
    requires forall m :: Known(m) in Frames(bytes) ==> FitsSigned(m)
    requires forall m :: m in TailParsed(Tail(bytes), stopTimestamp).messages ==> FitsSigned(m)
    ensures engine.Valid()
    ensures var parsed := FileParsed(bytes, stopTimestamp);
            var relevant := Relevant(symbol, None, parsed.messages);
            && outcome == parsed.outcome
            && Snapshot(engine.ob.Abs()) == MapRun(minPrice, maxPrice, map[], RequestsOf(relevant))
            && engine.Counters() == Tally(minPrice, maxPrice, Counts(0, 0, 0, 0, 0, 0), map[], relevant)
            && engine.Counters().Total() == |relevant|
  {
    hide FileParsed, MessagesFit, Relevant, Tally, MapRun, Snapshot, RequestsOf, FitsSigned;
    SignedFileFits(symbol, minPrice, maxPrice, bytes, stopTimestamp);
    engine, outcome := ReplayFile(bytes, symbol, initialPoolSize, minPrice, maxPrice, stopTimestamp);
  }
}
