/** The replay engine: follows one symbol's stock locate code and applies its order messages to the book. */
module ItchReplayEngine {
  import opened Types
  import opened BookSpec
  import opened Requests
  import opened ItchWire
  import opened OrderBook

  const SPACE: byte := 0x20

  // ---------- symbols ----------

  /** A text field up to its padding. */
  function UpToSpace(text: Bytes): Bytes {
    if text == [] || text[0] == SPACE then [] else [text[0]] + UpToSpace(text[1..])
  }

  predicate MatchesSymbol(stock: Bytes, symbol: Bytes) {
    UpToSpace(stock) == symbol
  }

  lemma {:induction false} UpToSpaceIsPrefix(text: Bytes, n: nat)
    requires n <= |text| && (forall i :: 0 <= i < n ==> text[i] != SPACE) && (n < |text| ==> text[n] == SPACE)
    ensures UpToSpace(text) == text[..n]
    decreases n
  {
    if n > 0 {
      var rest := text[1..];
      assert forall i :: 0 <= i < n - 1 ==> rest[i] == text[i + 1];
      UpToSpaceIsPrefix(rest, n - 1);
      assert text[..n] == [text[0]] + rest[..n - 1];
    }
  }

  /** A field holding a symbol padded with spaces matches that symbol and no other. */
  lemma PaddedSymbolMatches(symbol: Bytes, padding: nat, other: Bytes)
    requires SPACE !in symbol
    ensures MatchesSymbol(symbol + seq(padding, _ => SPACE), other) <==> other == symbol
  {
    var text := symbol + seq(padding, _ => SPACE);
    forall i | 0 <= i < |symbol| ensures text[i] != SPACE {
      assert symbol[i] in symbol;
    }
    UpToSpaceIsPrefix(text, |symbol|);
    assert text[..|symbol|] == symbol;
  }

  // ---------- the engine on values ----------

  datatype Counts = Counts(adds: nat, executions: nat, cancels: nat, deletes: nat, replacements: nat, failed: nat) {
    function Total(): nat {
      adds + executions + cancels + deletes + replacements + failed
    }
  }

  datatype EngineState = EngineState(symbol: Bytes, target: Option<U16>, counts: Counts, book: Book)

  predicate IsOrderMessage(m: Message) {
    !m.SystemEvent? && !m.StockDirectory?
  }

  function SideOfIndicator(indicator: byte): Side {
    if indicator == Ascii('B') then Buy else Sell
  }

  /** What an order message asks of the book; its unsigned shares become a signed quantity. */
  function RequestOf(m: Message): Request
    requires IsOrderMessage(m)
  {
    match m
    case AddOrder(_, _, _, id, indicator, shares, _, price) =>
      Add(id, price, WrapI32(shares), SideOfIndicator(indicator))
    case AddOrderWithMpid(_, _, _, id, indicator, shares, _, price, _) =>
      Add(id, price, WrapI32(shares), SideOfIndicator(indicator))
    case OrderExecuted(_, _, _, id, shares, _) => Take(id, WrapI32(shares))
    case OrderExecutedWithPrice(_, _, _, id, shares, _, _, _) => Take(id, WrapI32(shares))
    case OrderCancel(_, _, _, id, shares) => Take(id, WrapI32(shares))
    case OrderDelete(_, _, _, id) => Delete(id)
    case OrderReplace(_, _, _, originalId, newId, shares, price) => Replace(originalId, newId, price, WrapI32(shares))
  }

  function Count(c: Counts, m: Message, applied: bool): Counts
    requires IsOrderMessage(m)
  {
    if !applied then c.(failed := c.failed + 1)
    else if m.AddOrder? || m.AddOrderWithMpid? then c.(adds := c.adds + 1)
    else if m.OrderExecuted? || m.OrderExecutedWithPrice? then c.(executions := c.executions + 1)
    else if m.OrderCancel? then c.(cancels := c.cancels + 1)
    else if m.OrderDelete? then c.(deletes := c.deletes + 1)
    else c.(replacements := c.replacements + 1)
  }

  /** The stock locate code followed after a message. */
  function Retarget(symbol: Bytes, target: Option<U16>, m: Message): Option<U16> {
    if m.StockDirectory? && MatchesSymbol(m.stock, symbol) then Some(m.stockLocate) else target
  }

  predicate Concerns(target: Option<U16>, m: Message) {
    IsOrderMessage(m) && target == Some(m.stockLocate)
  }

  function AfterMessage(e: EngineState, m: Message): EngineState {
    if Concerns(e.target, m) then
      var (after, response) := Apply(e.book, RequestOf(m));
      e.(book := after, counts := Count(e.counts, m, response.Replayed? && response.applied))
    else e.(target := Retarget(e.symbol, e.target, m))
  }

  ghost predicate MessageFits(e: EngineState, m: Message) {
    Concerns(e.target, m) ==> Fits(e.book, RequestOf(m))
  }

  function AfterMessages(e: EngineState, ms: seq<Message>): EngineState
    decreases |ms|
  {
    if ms == [] then e else AfterMessages(AfterMessage(e, ms[0]), ms[1..])
  }

  ghost predicate MessagesFit(e: EngineState, ms: seq<Message>)
    decreases |ms|
  {
    ms == [] || (MessageFits(e, ms[0]) && MessagesFit(AfterMessage(e, ms[0]), ms[1..]))
  }

  // ---------- the engine ----------

  class ItchReplayEngine {
    var addsApplied: nat
    var executionsApplied: nat
    var cancelsApplied: nat
    var deletesApplied: nat
    var replacesApplied: nat
    var failedApplications: nat

    const symbol: Bytes
    var targetStockLocate: Option<U16>
    const ob: OrderBook

    ghost predicate Valid()
      reads this, ob, ob.pool, ob.bids, ob.asks, ob.bids.levels, ob.asks.levels
    {
      ob.Valid()
    }

    ghost function Counters(): Counts
      reads this
    {
      Counts(addsApplied, executionsApplied, cancelsApplied, deletesApplied, replacesApplied, failedApplications)
    }

    ghost function Abs(): EngineState
      reads this, ob, ob.pool, ob.bids, ob.asks, ob.bids.levels, ob.asks.levels
      requires Valid()
    {
      EngineState(symbol, targetStockLocate, Counters(), ob.Abs())
    }

    constructor (symbol: Bytes, initialPoolSize: nat, minPrice: Types.Price, maxPrice: Types.Price)
      requires initialPoolSize >= 1 && minPrice <= maxPrice
      ensures Valid() && Abs() == EngineState(symbol, None, Counts(0, 0, 0, 0, 0, 0), EmptyBook(minPrice, maxPrice))
      ensures fresh(ob) && fresh(ob.pool) && fresh(ob.bids) && fresh(ob.asks) && fresh(ob.bids.levels)
      ensures fresh(ob.asks.levels)
    {
      hide OrderBook.Valid, OrderBook.Abs;
      addsApplied, executionsApplied, cancelsApplied := 0, 0, 0;
      deletesApplied, replacesApplied, failedApplications := 0, 0, 0;
      this.symbol := symbol;
      targetStockLocate := None;
      var book := new OrderBook(initialPoolSize, minPrice, maxPrice);
      ob := book;
    }

    /** Whether the field, up to its padding, is the symbol. */
    static method MatchesSymbolField(itchStock: Bytes, symbol: Bytes) returns (matches: bool)
      requires |itchStock| == 8
      ensures matches == MatchesSymbol(itchStock, symbol)
    {
      var itchStockSize := 0;
      while itchStockSize < |itchStock| && itchStock[itchStockSize] != SPACE
        invariant 0 <= itchStockSize <= |itchStock|
        invariant forall i :: 0 <= i < itchStockSize ==> itchStock[i] != SPACE
      {
        itchStockSize := itchStockSize + 1;
      }
      UpToSpaceIsPrefix(itchStock, itchStockSize);
      matches := itchStockSize == |symbol| && symbol == itchStock[..itchStockSize];
    }

    predicate IsTargetStock(stockLocate: U16)
      reads this
    {
      targetStockLocate.Some? && stockLocate == targetStockLocate.value
    }

    method OnSystemEvent(message: Message)
      requires Valid() && message.SystemEvent?
      ensures Valid() && Abs() == AfterMessage(Abs(), message)
    {
    }

    method OnStockDirectory(message: Message)
      requires Valid() && message.StockDirectory? && ItchWire.WellFormed(message)
      modifies this
      ensures Valid() && Abs() == AfterMessage(old(Abs()), message)
    {
      hide OrderBook.Valid, OrderBook.Abs, MatchesSymbol;
      var matches := MatchesSymbolField(message.stock, symbol);
      if matches {
        targetStockLocate := Some(message.stockLocate);
      }
    }

    method OnAddOrder(message: Message)
      requires Valid() && message.AddOrder? && MessageFits(Abs(), message)
      modifies this, ob, ob.pool, ob.bids, ob.asks, ob.bids.levels, ob.asks.levels
      ensures Valid() && Abs() == AfterMessage(old(Abs()), message)
    {
      hide OrderBook.Valid, OrderBook.Abs, ReplayAdd, ReplayReduce, ReplayDelete, ReplayReplace, AddFits, ReplaceFits;
      if !IsTargetStock(message.stockLocate) {
        return;
      }
      var applied := ob.ReplayAddVisibleOrder(message.orderReferenceNumber, message.price, WrapI32(message.shares),
                                              SideOfIndicator(message.buySellIndicator));
      if applied {
        addsApplied := addsApplied + 1;
      } else {
        failedApplications := failedApplications + 1;
      }
    }

    method OnAddOrderWithMpid(message: Message)
      requires Valid() && message.AddOrderWithMpid? && MessageFits(Abs(), message)
      modifies this, ob, ob.pool, ob.bids, ob.asks, ob.bids.levels, ob.asks.levels
      ensures Valid() && Abs() == AfterMessage(old(Abs()), message)
    {
      hide OrderBook.Valid, OrderBook.Abs, ReplayAdd, ReplayReduce, ReplayDelete, ReplayReplace, AddFits, ReplaceFits;
      if !IsTargetStock(message.stockLocate) {
        return;
      }
      var applied := ob.ReplayAddVisibleOrder(message.orderReferenceNumber, message.price, WrapI32(message.shares),
                                              SideOfIndicator(message.buySellIndicator));
      if applied {
        addsApplied := addsApplied + 1;
      } else {
        failedApplications := failedApplications + 1;
      }
    }

    method OnOrderExecuted(message: Message)
      requires Valid() && message.OrderExecuted? && MessageFits(Abs(), message)
      modifies this, ob, ob.pool, ob.bids, ob.asks, ob.bids.levels, ob.asks.levels
      ensures Valid() && Abs() == AfterMessage(old(Abs()), message)
    {
      hide OrderBook.Valid, OrderBook.Abs, ReplayAdd, ReplayReduce, ReplayDelete, ReplayReplace, AddFits, ReplaceFits;
      if !IsTargetStock(message.stockLocate) {
        return;
      }
      var applied := ob.ReplayReduceVisibleOrder(message.orderReferenceNumber, WrapI32(message.executedShares));
      if applied {
        executionsApplied := executionsApplied + 1;
      } else {
        failedApplications := failedApplications + 1;
      }
    }

    method OnOrderExecutedWithPrice(message: Message)
      requires Valid() && message.OrderExecutedWithPrice? && MessageFits(Abs(), message)
      modifies this, ob, ob.pool, ob.bids, ob.asks, ob.bids.levels, ob.asks.levels
      ensures Valid() && Abs() == AfterMessage(old(Abs()), message)
    {
      hide OrderBook.Valid, OrderBook.Abs, ReplayAdd, ReplayReduce, ReplayDelete, ReplayReplace, AddFits, ReplaceFits;
      if !IsTargetStock(message.stockLocate) {
        return;
      }
      var applied := ob.ReplayReduceVisibleOrder(message.orderReferenceNumber, WrapI32(message.executedShares));
      if applied {
        executionsApplied := executionsApplied + 1;
      } else {
        failedApplications := failedApplications + 1;
      }
    }

    method OnOrderCancel(message: Message)
      requires Valid() && message.OrderCancel? && MessageFits(Abs(), message)
      modifies this, ob, ob.pool, ob.bids, ob.asks, ob.bids.levels, ob.asks.levels
      ensures Valid() && Abs() == AfterMessage(old(Abs()), message)
    {
      hide OrderBook.Valid, OrderBook.Abs, ReplayAdd, ReplayReduce, ReplayDelete, ReplayReplace, AddFits, ReplaceFits;
      if !IsTargetStock(message.stockLocate) {
        return;
      }
      var applied := ob.ReplayReduceVisibleOrder(message.orderReferenceNumber, WrapI32(message.cancelledShares));
      if applied {
        cancelsApplied := cancelsApplied + 1;
      } else {
        failedApplications := failedApplications + 1;
      }
    }

    method OnOrderDelete(message: Message)
      requires Valid() && message.OrderDelete? && MessageFits(Abs(), message)
      modifies this, ob, ob.pool, ob.bids, ob.asks, ob.bids.levels, ob.asks.levels
      ensures Valid() && Abs() == AfterMessage(old(Abs()), message)
    {
      hide OrderBook.Valid, OrderBook.Abs, ReplayAdd, ReplayReduce, ReplayDelete, ReplayReplace, AddFits, ReplaceFits;
      if !IsTargetStock(message.stockLocate) {
        return;
      }
      var applied := ob.ReplayDeleteVisibleOrder(message.orderReferenceNumber);
      if applied {
        deletesApplied := deletesApplied + 1;
      } else {
        failedApplications := failedApplications + 1;
      }
    }

    method OnOrderReplace(message: Message)
      requires Valid() && message.OrderReplace? && MessageFits(Abs(), message)
      modifies this, ob, ob.pool, ob.bids, ob.asks, ob.bids.levels, ob.asks.levels
      ensures Valid() && Abs() == AfterMessage(old(Abs()), message)
    {
      hide OrderBook.Valid, OrderBook.Abs, ReplayAdd, ReplayReduce, ReplayDelete, ReplayReplace, AddFits, ReplaceFits;
      if !IsTargetStock(message.stockLocate) {
        return;
      }
      var applied := ob.ReplayReplaceVisibleOrder(message.originalOrderReferenceNumber, message.newOrderReferenceNumber,
                                                  message.price, WrapI32(message.shares));
      if applied {
        replacesApplied := replacesApplied + 1;
      } else {
        failedApplications := failedApplications + 1;
      }
    }

    method OnMessage(message: Message)
      requires Valid() && ItchWire.WellFormed(message) && MessageFits(Abs(), message)
      modifies this, ob, ob.pool, ob.bids, ob.asks, ob.bids.levels, ob.asks.levels
      ensures Valid() && Abs() == AfterMessage(old(Abs()), message)
    {
      hide Valid, Abs, AfterMessage, MessageFits;
      match message
      case SystemEvent(_, _, _, _) => OnSystemEvent(message);
      case StockDirectory(_, _, _, _, _, _, _, _, _, _, _, _, _, _, _, _, _) => OnStockDirectory(message);
      case AddOrder(_, _, _, _, _, _, _, _) => OnAddOrder(message);
      case AddOrderWithMpid(_, _, _, _, _, _, _, _, _) => OnAddOrderWithMpid(message);
      case OrderExecuted(_, _, _, _, _, _) => OnOrderExecuted(message);
      case OrderExecutedWithPrice(_, _, _, _, _, _, _, _) => OnOrderExecutedWithPrice(message);
      case OrderCancel(_, _, _, _, _) => OnOrderCancel(message);
      case OrderDelete(_, _, _, _) => OnOrderDelete(message);
      case OrderReplace(_, _, _, _, _, _, _) => OnOrderReplace(message);
    }
  }
}
