/** A whole replay: of all the messages, exactly the followed symbol's order messages reach the book, each is counted
    once, and what the book shows and the counters say is decided by a plain map from order ids to visible orders. */
module ReplayReport {
  import opened Types
  import opened BookSpec
  import opened Requests
  import opened ReplayTheorems
  import opened ReplayRuns
  import opened ItchWire
  import opened ItchFraming
  import opened ItchAnyInput
  import opened ItchReplayEngine
  import opened ItchParser

  /** The order messages of the stock whose directory entry last named the symbol. */
  function Relevant(symbol: Bytes, target: Option<U16>, ms: seq<Message>): (r: seq<Message>)
    ensures forall m :: m in r ==> IsOrderMessage(m)
    decreases |ms|
  {
    if ms == [] then []
    else (if Concerns(target, ms[0]) then [ms[0]] else []) + Relevant(symbol, Retarget(symbol, target, ms[0]), ms[1..])
  }

  function RequestsOf(ms: seq<Message>): (rs: seq<Request>)
    requires forall m :: m in ms ==> IsOrderMessage(m)
    ensures |rs| == |ms| && forall i :: 0 <= i < |rs| ==> rs[i] == RequestOf(ms[i])
  {
    seq(|ms|, i requires 0 <= i < |ms| => assert ms[i] in ms; RequestOf(ms[i]))
  }

  /** Each message counted by whether the map accepts its change. */
  function Tally(lo: int, hi: int, c: Counts, m: Snap, ms: seq<Message>): Counts
    requires forall x :: x in ms ==> IsOrderMessage(x)
    decreases |ms|
  {
    if ms == [] then c
    else
      var (after, applied) := MapApply(lo, hi, m, RequestOf(ms[0]));
      Tally(lo, hi, Count(c, ms[0], applied), after, ms[1..])
  }

  lemma RequestsCons(m: Message, ms: seq<Message>)
    requires IsOrderMessage(m) && forall x :: x in ms ==> IsOrderMessage(x)
    ensures RequestsOf([m] + ms) == [RequestOf(m)] + RequestsOf(ms)
  {
  }

  lemma RequestsReplay(ms: seq<Message>)
    requires forall x :: x in ms ==> IsOrderMessage(x)
    ensures forall i :: 0 <= i < |ms| ==> IsReplay(RequestsOf(ms)[i])
  {
  }

  /** The engine does to its book what a run of the relevant requests does, and fits exactly when that run fits. */
  lemma {:induction false} EngineIsRun(e: EngineState, ms: seq<Message>)
    ensures var rs := RequestsOf(Relevant(e.symbol, e.target, ms));
            && (MessagesFit(e, ms) <==> RunFits(e.book, rs))
            && AfterMessages(e, ms).book == Run(e.book, rs)
    decreases |ms|
  {
    hide Apply, Fits, MatchesSymbol, RequestOf, RequestsOf;
    if ms == [] {
      NoRequests();
    } else {
      var m, e1 := ms[0], AfterMessage(e, ms[0]);
      EngineIsRun(e1, ms[1..]);
      var rest := Relevant(e.symbol, Retarget(e.symbol, e.target, m), ms[1..]);
      if Concerns(e.target, m) {
        RequestsCons(m, rest);
        var rs := RequestsOf([m] + rest);
        assert rs[0] == RequestOf(m) && rs[1..] == RequestsOf(rest);
      } else {
        assert [] + rest == rest;
      }
    }
  }

  lemma NoRequests()
    ensures RequestsOf([]) == []
  {
  }

  /** Applied and failed changes together are the relevant messages. */
  lemma {:induction false} EveryRelevantMessageIsCounted(e: EngineState, ms: seq<Message>)
    ensures AfterMessages(e, ms).counts.Total() == e.counts.Total() + |Relevant(e.symbol, e.target, ms)|
    decreases |ms|
  {
    hide Apply, MatchesSymbol, RequestOf;
    if ms != [] {
      EveryRelevantMessageIsCounted(AfterMessage(e, ms[0]), ms[1..]);
    }
  }

  /** Every counter is the one the map would give. */
  lemma {:induction false} CountersAreTally(e: EngineState, ms: seq<Message>)
    requires e.book.UniqueIds()
    ensures AfterMessages(e, ms).counts
         == Tally(e.book.minPrice, e.book.maxPrice, e.counts, Snapshot(e.book), Relevant(e.symbol, e.target, ms))
    decreases |ms|
  {
    hide Apply, MapApply, MatchesSymbol, RequestOf, Count, Snapshot, Book.UniqueIds;
    if ms != [] {
      var m, e1 := ms[0], AfterMessage(e, ms[0]);
      var later := Relevant(e.symbol, Retarget(e.symbol, e.target, m), ms[1..]);
      assert [] + later == later;
      if Concerns(e.target, m) {
        OrderMessagesReplay(m);
        ApplyIsMapApply(e.book, RequestOf(m));
        ReplayKeepsUnique(e.book, RequestOf(m));
        var rest := Relevant(e.symbol, e.target, ms[1..]);
        assert ([m] + rest)[0] == m && ([m] + rest)[1..] == rest;
      }
      CountersAreTally(e1, ms[1..]);
    }
  }

  lemma OrderMessagesReplay(m: Message)
    requires IsOrderMessage(m)
    ensures IsReplay(RequestOf(m))
  {
  }

  /** How many messages of these types the map accepted. */
  function Accepted(answers: seq<bool>, ms: seq<Message>, types: set<byte>): nat
    requires |answers| == |ms|
  {
    if ms == [] then 0
    else (if answers[0] && TypeOf(ms[0]) in types then 1 else 0) + Accepted(answers[1..], ms[1..], types)
  }

  lemma {:induction false} AnswersLength(lo: int, hi: int, m: Snap, rs: seq<Request>)
    ensures |MapAnswers(lo, hi, m, rs)| == |rs|
    decreases |rs|
  {
    if rs != [] { AnswersLength(lo, hi, MapApply(lo, hi, m, rs[0]).0, rs[1..]); }
  }

  /** One message moves one counter by one. */
  lemma CountsOne(c: Counts, m: Message, applied: bool)
    requires IsOrderMessage(m)
    ensures var t := Count(c, m, applied);
            && t.adds == c.adds + (if applied && TypeOf(m) in {Ascii('A'), Ascii('F')} then 1 else 0)
            && t.executions == c.executions + (if applied && TypeOf(m) in {Ascii('E'), Ascii('C')} then 1 else 0)
            && t.cancels == c.cancels + (if applied && TypeOf(m) in {Ascii('X')} then 1 else 0)
            && t.deletes == c.deletes + (if applied && TypeOf(m) in {Ascii('D')} then 1 else 0)
            && t.replacements == c.replacements + (if applied && TypeOf(m) in {Ascii('U')} then 1 else 0)
            && t.Total() == c.Total() + 1
  {
  }

  /** Each counter counts the accepted messages of its types; what is not accepted counts as failed. */
  lemma {:induction false} TallyCountsByType(lo: int, hi: int, c: Counts, m: Snap, ms: seq<Message>)
    requires forall x :: x in ms ==> IsOrderMessage(x)
    ensures var answers := MapAnswers(lo, hi, m, RequestsOf(ms));
            && |answers| == |ms|
            && var t := Tally(lo, hi, c, m, ms);
            && t.adds == c.adds + Accepted(answers, ms, {Ascii('A'), Ascii('F')})
            && t.executions == c.executions + Accepted(answers, ms, {Ascii('E'), Ascii('C')})
            && t.cancels == c.cancels + Accepted(answers, ms, {Ascii('X')})
            && t.deletes == c.deletes + Accepted(answers, ms, {Ascii('D')})
            && t.replacements == c.replacements + Accepted(answers, ms, {Ascii('U')})
            && t.Total() == c.Total() + |ms|
    decreases |ms|
  {
    hide MapApply, RequestOf, RequestsOf, Count, TypeOf, Counts.Total;
    AnswersLength(lo, hi, m, RequestsOf(ms));
    RequestsLength(ms);
    if ms != [] {
      var (after, applied) := MapApply(lo, hi, m, RequestOf(ms[0]));
      var rest := ms[1..];
      CountsOne(c, ms[0], applied);
      TallyCountsByType(lo, hi, Count(c, ms[0], applied), after, rest);
      assert ms == [ms[0]] + rest;
      RequestsCons(ms[0], rest);
      var rs := RequestsOf(ms);
      assert rs[0] == RequestOf(ms[0]) && rs[1..] == RequestsOf(rest);
      var answers := MapAnswers(lo, hi, m, rs);
      assert answers[0] == applied && answers[1..] == MapAnswers(lo, hi, after, RequestsOf(rest));
    }
  }

  lemma RequestsLength(ms: seq<Message>)
    requires forall x :: x in ms ==> IsOrderMessage(x)
    ensures |RequestsOf(ms)| == |ms|
  {
  }

  /** The visible book after the messages. */
  lemma ShownAfterMessages(e: EngineState, ms: seq<Message>)
    requires e.book.UniqueIds()
    ensures Snapshot(AfterMessages(e, ms).book)
         == MapRun(e.book.minPrice, e.book.maxPrice, Snapshot(e.book), RequestsOf(Relevant(e.symbol, e.target, ms)))
  {
    hide Book.UniqueIds, MapRun, Run, Snapshot, RequestsOf, Relevant, AfterMessages;
    EngineIsRun(e, ms);
    RequestsReplay(Relevant(e.symbol, e.target, ms));
    ReplayIsMapRun(e.book, RequestsOf(Relevant(e.symbol, e.target, ms)));
  }

  function NewEngine(symbol: Bytes, minPrice: int, maxPrice: int): EngineState {
    EngineState(symbol, None, Counts(0, 0, 0, 0, 0, 0), EmptyBook(minPrice, maxPrice))
  }

  /** Replays a file of any bytes, well-formed or not, from an empty book up to a stop time. */
  method ReplayFile(bytes: Bytes, symbol: Bytes, initialPoolSize: nat,
                    minPrice: Types.Price, maxPrice: Types.Price, stopTimestamp: Option<U64>)
    returns (engine: ItchReplayEngine, outcome: Outcome)
    requires initialPoolSize >= 1 && minPrice <= maxPrice
    requires MessagesFit(NewEngine(symbol, minPrice, maxPrice), FileParsed(bytes, stopTimestamp).messages)
    ensures engine.Valid()
    ensures var parsed := FileParsed(bytes, stopTimestamp);
            var relevant := Relevant(symbol, None, parsed.messages);
            && outcome == parsed.outcome
            && Snapshot(engine.ob.Abs()) == MapRun(minPrice, maxPrice, map[], RequestsOf(relevant))
            && engine.Counters() == Tally(minPrice, maxPrice, Counts(0, 0, 0, 0, 0, 0), map[], relevant)
            && engine.Counters().Total() == |relevant|
  {
    hide FileParsed, ParseStream, MessagesFit, AfterMessages, Relevant, Tally, MapRun, Snapshot, RequestsOf;
    hide OrderBook.OrderBook.Valid, OrderBook.OrderBook.Abs;
    engine := new ItchReplayEngine(symbol, initialPoolSize, minPrice, maxPrice);
    var parser := new ItchParser(bytes);
    ParseAnyInput(bytes, stopTimestamp);
    ghost var e := engine.Abs();
    ghost var ms := ParseStream(parser.file.State(), stopTimestamp).messages;
    outcome := parser.Parse(engine, stopTimestamp);
    EmptyShowsNothing(minPrice, maxPrice);
    ShownAfterMessages(e, ms);
    CountersAreTally(e, ms);
    EveryRelevantMessageIsCounted(e, ms);
  }

  lemma EmptyShowsNothing(minPrice: int, maxPrice: int)
    ensures EmptyBook(minPrice, maxPrice).UniqueIds() && Snapshot(EmptyBook(minPrice, maxPrice)) == map[]
  {
  }
}
