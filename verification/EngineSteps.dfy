/** What the replay engine does with each message, in the message's own fields, and which messages it listens to. */
module EngineSteps {
  import opened Types
  import opened PriceTime
  import opened BookSpec
  import BookLemmas
  import opened Requests
  import opened ItchWire
  import opened ItchReplayEngine
  import opened ReplayReport

  // ---------- order messages of the followed stock ----------

  /** An add rests a GTC order under the message's reference number, as a bid for the indicator B and as an ask for any
      other, at its price and with its shares as a signed number; it fails when there are none, when the number is taken
      or when the price is outside the band. */
  lemma AfterAdd(e: EngineState, m: Message)
    requires m.AddOrder? || m.AddOrderWithMpid?
    requires e.target == Some(m.stockLocate)
    ensures var side := if m.buySellIndicator == 'B' as int then Buy else Sell;
            var id, n := m.orderReferenceNumber, WrapI32(m.shares);
            AfterMessage(e, m)
            == if n != 0 && !e.book.Holds(id) && e.book.minPrice <= m.price <= e.book.maxPrice then
                 e.(book := Rest(e.book, side, RestingView(m.price, id, n, GoodTillCancel)),
                    counts := e.counts.(adds := e.counts.adds + 1))
               else
                 e.(counts := e.counts.(failed := e.counts.failed + 1))
  {
  }

  /** An execution, with a price of its own or not, takes its executed shares off the order it names. */
  lemma AfterExecution(e: EngineState, m: Message)
    requires m.OrderExecuted? || m.OrderExecutedWithPrice?
    requires e.target == Some(m.stockLocate)
    ensures var (after, applied) := ReplayReduce(e.book, m.orderReferenceNumber, WrapI32(m.executedShares));
            AfterMessage(e, m)
            == if applied then e.(book := after, counts := e.counts.(executions := e.counts.executions + 1))
               else e.(counts := e.counts.(failed := e.counts.failed + 1))
  {
    hide Find, Ids, Cancel;
  }

  /** A cancellation takes its cancelled shares off the order it names. */
  lemma AfterCancel(e: EngineState, m: Message)
    requires m.OrderCancel? && e.target == Some(m.stockLocate)
    ensures var (after, applied) := ReplayReduce(e.book, m.orderReferenceNumber, WrapI32(m.cancelledShares));
            AfterMessage(e, m)
            == if applied then e.(book := after, counts := e.counts.(cancels := e.counts.cancels + 1))
               else e.(counts := e.counts.(failed := e.counts.failed + 1))
  {
    hide Find, Ids, Cancel;
  }

  /** A deletion removes the order it names, and fails when there is none. */
  lemma AfterDelete(e: EngineState, m: Message)
    requires m.OrderDelete? && e.target == Some(m.stockLocate)
    ensures AfterMessage(e, m)
         == if e.book.Lookup(m.orderReferenceNumber).Some? then
              e.(book := Cancel(e.book, m.orderReferenceNumber).0,
                 counts := e.counts.(deletes := e.counts.deletes + 1))
            else
              e.(counts := e.counts.(failed := e.counts.failed + 1))
  {
    hide Find, Ids, Remove;
  }

  /** A replacement removes the order of the original reference number and rests a GTC order under the new one, on the
      same side, at the message's price and with its shares as a signed number; it fails when there are none, when the
      price is outside the band, when the new number is taken or when there is no original order. */
  lemma AfterReplace(e: EngineState, m: Message)
    requires m.OrderReplace? && e.target == Some(m.stockLocate) && e.book.UniqueIds()
    ensures var was, now := m.originalOrderReferenceNumber, m.newOrderReferenceNumber;
            var n, side := WrapI32(m.shares), if was in Ids(e.book.bids) then Buy else Sell;
            AfterMessage(e, m)
            == if n != 0 && e.book.minPrice <= m.price <= e.book.maxPrice && !e.book.Holds(now)
                  && e.book.Lookup(was).Some? then
                 e.(book := Rest(Cancel(e.book, was).0, side, RestingView(m.price, now, n, GoodTillCancel)),
                    counts := e.counts.(replacements := e.counts.replacements + 1))
               else
                 e.(counts := e.counts.(failed := e.counts.failed + 1))
  {
    hide Find, Cancel, Rest, Book.UniqueIds;
    BookLemmas.CancelKeepsUnique(e.book, m.originalOrderReferenceNumber);
  }

  // ---------- messages of other stocks, and those that are no orders ----------

  /** An order message of a stock that is not followed changes nothing, nor does a system event. */
  lemma OtherStocksAreIgnored(e: EngineState, m: Message)
    requires !m.StockDirectory? && (m.SystemEvent? || e.target != Some(m.stockLocate))
    ensures AfterMessage(e, m) == e
  {
  }

  /** Every order message of the followed stock moves exactly one counter, by one. */
  lemma FollowedIsCounted(e: EngineState, m: Message)
    requires !m.StockDirectory? && !m.SystemEvent? && e.target == Some(m.stockLocate)
    ensures var was, now := e.counts, AfterMessage(e, m).counts;
            || now == was.(adds := was.adds + 1) || now == was.(executions := was.executions + 1)
            || now == was.(cancels := was.cancels + 1) || now == was.(deletes := was.deletes + 1)
            || now == was.(replacements := was.replacements + 1) || now == was.(failed := was.failed + 1)
    ensures AfterMessage(e, m).target == e.target && AfterMessage(e, m).symbol == e.symbol
  {
    hide Apply, RequestOf;
  }

  // ---------- the stock that is followed ----------

  /** The field holds the symbol, and behind it nothing or first a space. */
  predicate Names(stock: Bytes, symbol: Bytes) {
    && |symbol| <= |stock| && stock[..|symbol|] == symbol && SPACE !in symbol
    && (|symbol| < |stock| ==> stock[|symbol|] == SPACE)
  }

  lemma {:induction false} NamesExactlyWhen(stock: Bytes, symbol: Bytes)
    ensures MatchesSymbol(stock, symbol) <==> Names(stock, symbol)
  {
    if stock == [] || stock[0] == SPACE {
      if symbol != [] && |symbol| <= |stock| { assert stock[..|symbol|][0] == stock[0] && symbol[0] in symbol; }
    } else if symbol != [] {
      var rest, tail := stock[1..], symbol[1..];
      NamesExactlyWhen(rest, tail);
      assert symbol == [symbol[0]] + tail;
      if Names(rest, tail) && stock[0] == symbol[0] {
        assert stock[..|symbol|] == [stock[0]] + rest[..|tail|];
      }
      if Names(stock, symbol) {
        assert stock[..|symbol|][0] == symbol[0] && rest[..|tail|] == stock[..|symbol|][1..];
      }
    }
  }

  /** A directory entry is followed from then on exactly when it names the symbol; it changes nothing else. */
  lemma AfterDirectory(e: EngineState, m: Message)
    requires m.StockDirectory?
    ensures AfterMessage(e, m) == if Names(m.stock, e.symbol) then e.(target := Some(m.stockLocate)) else e
  {
    hide MatchesSymbol;
    NamesExactlyWhen(m.stock, e.symbol);
  }

  /** A field padded as the format demands, with spaces behind the text alone, names just the one symbol. */
  lemma PaddedNames(stock: Bytes, symbol: Bytes)
    requires SPACE !in symbol && |symbol| <= |stock|
    requires forall i, j :: 0 <= i < j < |stock| && stock[i] == SPACE ==> stock[j] == SPACE
    ensures Names(stock, symbol) <==> stock == symbol + seq(|stock| - |symbol|, _ => SPACE)
  {
    var padded := symbol + seq(|stock| - |symbol|, _ => SPACE);
    if Names(stock, symbol) {
      forall i | 0 <= i < |stock| ensures stock[i] == padded[i] {
        if i < |symbol| { assert stock[..|symbol|][i] == symbol[i]; }
      }
    }
    if stock == padded { assert stock[..|symbol|] == symbol; }
  }

  /** Text behind a space is not looked at: a field that is not the padded symbol can name it. */
  lemma TextBehindASpaceIsIgnored()
    ensures var stock := ['A' as int, 'B' as int, SPACE, 'C' as int, SPACE, SPACE, SPACE, SPACE];
            var symbol := ['A' as int, 'B' as int];
            Names(stock, symbol) && stock != symbol + seq(6, _ => SPACE)
  {
    var stock: Bytes := ['A' as int, 'B' as int, SPACE, 'C' as int, SPACE, SPACE, SPACE, SPACE];
    var symbol: Bytes := ['A' as int, 'B' as int];
    assert stock[..2] == symbol;
    assert stock[3] != (symbol + seq(6, _ => SPACE))[3];
  }

  // ---------- whole lists ----------

  predicate NamesSymbol(m: Message, symbol: Bytes) {
    m.StockDirectory? && Names(m.stock, symbol)
  }

  /** The last entry before message i that names the symbol, or the stock followed at first when there is none, has this
      locate code. */
  ghost predicate Followed(symbol: Bytes, target: Option<U16>, ms: seq<Message>, i: nat, locate: U16)
    requires i <= |ms|
  {
    || (exists j :: 0 <= j < i && LastNaming(symbol, ms, i, j) && ms[j].stockLocate == locate)
    || (target == Some(locate) && forall j :: 0 <= j < i ==> !NamesSymbol(ms[j], symbol))
  }

  ghost predicate LastNaming(symbol: Bytes, ms: seq<Message>, i: nat, j: nat)
    requires j < i <= |ms|
  {
    NamesSymbol(ms[j], symbol) && forall k :: j < k < i ==> !NamesSymbol(ms[k], symbol)
  }

  /** What makes message i one that reaches the book. */
  ghost predicate ReachesBook(symbol: Bytes, target: Option<U16>, ms: seq<Message>, i: nat)
    requires i < |ms|
  {
    !ms[i].SystemEvent? && !ms[i].StockDirectory? && Followed(symbol, target, ms, i, ms[i].stockLocate)
  }

  lemma FollowedTail(symbol: Bytes, target: Option<U16>, ms: seq<Message>, i: nat, locate: U16)
    requires ms != [] && i < |ms|
    ensures var next := if NamesSymbol(ms[0], symbol) then Some(ms[0].stockLocate) else target;
            Followed(symbol, target, ms, i + 1, locate) <==> Followed(symbol, next, ms[1..], i, locate)
  {
    hide Names;
    var rest := ms[1..];
    var next := if NamesSymbol(ms[0], symbol) then Some(ms[0].stockLocate) else target;
    assert forall j :: 0 <= j < |rest| ==> rest[j] == ms[j + 1];
    forall j | 0 <= j < i ensures LastNaming(symbol, rest, i, j) <==> LastNaming(symbol, ms, i + 1, j + 1) {
      if LastNaming(symbol, ms, i + 1, j + 1) {
        forall k | j < k < i ensures !NamesSymbol(rest[k], symbol) { assert !NamesSymbol(ms[k + 1], symbol); }
      }
      if LastNaming(symbol, rest, i, j) {
        forall k | j + 1 < k < i + 1 ensures !NamesSymbol(ms[k], symbol) { assert !NamesSymbol(rest[k - 1], symbol); }
      }
    }
    if Followed(symbol, target, ms, i + 1, locate) {
      if j :| 0 <= j < i + 1 && LastNaming(symbol, ms, i + 1, j) && ms[j].stockLocate == locate {
        if j > 0 {
          assert LastNaming(symbol, rest, i, j - 1);
        } else {
          forall k | 0 <= k < i ensures !NamesSymbol(rest[k], symbol) { assert !NamesSymbol(ms[k + 1], symbol); }
        }
      } else {
        forall k | 0 <= k < i ensures !NamesSymbol(rest[k], symbol) { assert !NamesSymbol(ms[k + 1], symbol); }
      }
    }
    if Followed(symbol, next, rest, i, locate) {
      if j :| 0 <= j < i && LastNaming(symbol, rest, i, j) && rest[j].stockLocate == locate {
        assert LastNaming(symbol, ms, i + 1, j + 1);
      } else {
        forall k | 1 <= k < i + 1 ensures !NamesSymbol(ms[k], symbol) { assert !NamesSymbol(rest[k - 1], symbol); }
        if NamesSymbol(ms[0], symbol) { assert LastNaming(symbol, ms, i + 1, 0); }
      }
    }
  }

  /** `picked` is what stands in `all` at these positions, in order. */
  ghost predicate Picks(all: seq<Message>, at: seq<nat>, picked: seq<Message>) {
    && |at| == |picked|
    && (forall k :: 0 <= k < |at| ==> at[k] < |all| && picked[k] == all[at[k]])
    && (forall k, l :: 0 <= k < l < |at| ==> at[k] < at[l])
  }

  /** The same positions, one further on. */
  function Later(at: seq<nat>): (moved: seq<nat>)
    ensures |moved| == |at| && forall k :: 0 <= k < |at| ==> moved[k] == at[k] + 1
  {
    seq(|at|, k requires 0 <= k < |at| => at[k] + 1)
  }

  lemma PicksLater(all: seq<Message>, at: seq<nat>, picked: seq<Message>)
    requires all != [] && Picks(all[1..], at, picked)
    ensures Picks(all, Later(at), picked)
    ensures forall i: nat :: i in Later(at) <==> i > 0 && i - 1 in at
  {
    var moved := Later(at);
    forall i: nat | i > 0 && i - 1 in at ensures i in moved {
      var k :| 0 <= k < |at| && at[k] == i - 1;
      assert moved[k] == i;
    }
  }

  lemma PicksFirst(all: seq<Message>, at: seq<nat>, picked: seq<Message>)
    requires all != [] && Picks(all, at, picked) && 0 !in at
    ensures Picks(all, [0] + at, [all[0]] + picked)
  {
    var more, messages := [0] + at, [all[0]] + picked;
    forall k | 0 <= k < |at| ensures at[k] > 0 { assert at[k] in at; }
    forall k, l | 0 <= k < l < |more| ensures more[k] < more[l] {
      if k > 0 { assert at[k - 1] < at[l - 1]; }
    }
    assert forall k :: 0 < k < |more| ==> more[k] == at[k - 1] && messages[k] == picked[k - 1];
  }

  lemma PickOneMore(all: seq<Message>, later: seq<nat>, picked: seq<Message>, first: bool) returns (at: seq<nat>)
    requires all != [] && Picks(all[1..], later, picked)
    ensures Picks(all, at, (if first then [all[0]] else []) + picked)
    ensures forall i: nat :: i in at <==> if i == 0 then first else i - 1 in later
  {
    hide Picks, Later;
    PicksLater(all, later, picked);
    at := Later(later);
    if first {
      PicksFirst(all, at, picked);
      at := [0] + at;
    } else {
      assert [] + picked == picked;
    }
  }

  /** The messages that reach the book are, in order, exactly the order messages whose locate code is that of the last
      entry before them that names the symbol. */
  lemma {:induction false} RelevantExactlyWhen(symbol: Bytes, target: Option<U16>, ms: seq<Message>)
    returns (at: seq<nat>)
    ensures Picks(ms, at, Relevant(symbol, target, ms))
    ensures forall i :: 0 <= i < |ms| ==> (i in at <==> ReachesBook(symbol, target, ms, i))
    decreases |ms|
  {
    if ms == [] {
      at := [];
    } else {
      hide Names, MatchesSymbol, Followed, Picks;
      var next, rest := Retarget(symbol, target, ms[0]), ms[1..];
      if ms[0].StockDirectory? { NamesExactlyWhen(ms[0].stock, symbol); }
      var later := RelevantExactlyWhen(symbol, next, rest);
      at := PickOneMore(ms, later, Relevant(symbol, next, rest), Concerns(target, ms[0]));
      FollowedFirst(symbol, target, ms, ms[0].stockLocate);
      forall i | 0 < i < |ms| ensures i in at <==> ReachesBook(symbol, target, ms, i) {
        FollowedTail(symbol, target, ms, i - 1, ms[i].stockLocate);
        assert rest[i - 1] == ms[i];
      }
    }
  }

  lemma FollowedFirst(symbol: Bytes, target: Option<U16>, ms: seq<Message>, locate: U16)
    ensures Followed(symbol, target, ms, 0, locate) <==> target == Some(locate)
  {
  }
}
