/** The message decoders: each reads its fields one after the other and consumes exactly the bytes its message type
    is checked against. */
module ItchDecoders {
  import opened ItchWire
  import opened ItchStream

  lemma NothingRead(s: Stream)
    requires s.Valid()
    ensures Skip(s, 0) == s
  {
  }

  /** One more field read, `off` bytes into a message body of `total` bytes. */
  lemma FieldRead(start: Stream, off: nat, width: nat, total: nat)
    requires start.Valid() && off + width <= total
    ensures Peek(Skip(start, off), width) == Peek(start, total)[off..off + width]
    ensures Skip(Skip(start, off), width) == Skip(start, off + width)
  {
    PeekPart(start, off, width, total);
    SkipTwice(start, off, width);
  }

  method DecodeSTypeMessage(file: InputStream) returns (message: Message)
    requires file.Valid()
    modifies file
    ensures file.Valid() && file.State() == Skip(old(file.State()), 11)
    ensures message == Decode(Ascii('S'), Peek(old(file.State()), 11))
  {
    hide Peek, Skip, BigEndian, InputStream.State, Stream.Valid;
    ghost var start := file.State();
    NothingRead(start);
    var stockLocate := file.ReadU16Be();
    FieldRead(start, 0, 2, 11);
    var trackingNumber := file.ReadU16Be();
    FieldRead(start, 2, 2, 11);
    var timestamp := file.ReadU48Be();
    FieldRead(start, 4, 6, 11);
    var eventCode := file.ReadChar();
    FieldRead(start, 10, 1, 11);
    message := SystemEvent(stockLocate, trackingNumber, timestamp, eventCode);
  }

  method DecodeRTypeMessage(file: InputStream) returns (message: Message)
    requires file.Valid()
    modifies file
    ensures file.Valid() && file.State() == Skip(old(file.State()), 38)
    ensures message == Decode(Ascii('R'), Peek(old(file.State()), 38))
  {
    hide Peek, Skip, BigEndian, InputStream.State, Stream.Valid;
    ghost var start := file.State();
    NothingRead(start);
    var stockLocate := file.ReadU16Be();
    FieldRead(start, 0, 2, 38);
    var trackingNumber := file.ReadU16Be();
    FieldRead(start, 2, 2, 38);
    var timestamp := file.ReadU48Be();
    FieldRead(start, 4, 6, 38);
    var stock := file.ReadAlphaArray(8);
    FieldRead(start, 10, 8, 38);
    var marketCategory := file.ReadChar();
    FieldRead(start, 18, 1, 38);
    var financialStatusIndicator := file.ReadChar();
    FieldRead(start, 19, 1, 38);
    var roundLotSize := file.ReadU32Be();
    FieldRead(start, 20, 4, 38);
    var roundLotsOnly := file.ReadChar();
    FieldRead(start, 24, 1, 38);
    var issueClassification := file.ReadChar();
    FieldRead(start, 25, 1, 38);
    var issueSubType := file.ReadAlphaArray(2);
    FieldRead(start, 26, 2, 38);
    var authenticity := file.ReadChar();
    FieldRead(start, 28, 1, 38);
    var shortSaleThresholdIndicator := file.ReadChar();
    FieldRead(start, 29, 1, 38);
    var ipoFlag := file.ReadChar();
    FieldRead(start, 30, 1, 38);
    var luldReferencePriceTier := file.ReadChar();
    FieldRead(start, 31, 1, 38);
    var etpFlag := file.ReadChar();
    FieldRead(start, 32, 1, 38);
    var etpLeverageFactor := file.ReadU32Be();
    FieldRead(start, 33, 4, 38);
    var inverseIndicator := file.ReadChar();
    FieldRead(start, 37, 1, 38);
    message := StockDirectory(stockLocate, trackingNumber, timestamp, stock, marketCategory, financialStatusIndicator,
                              roundLotSize, roundLotsOnly, issueClassification, issueSubType, authenticity,
                              shortSaleThresholdIndicator, ipoFlag, luldReferencePriceTier, etpFlag, etpLeverageFactor,
                              inverseIndicator);
  }

  method DecodeATypeMessage(file: InputStream) returns (message: Message)
    requires file.Valid()
    modifies file
    ensures file.Valid() && file.State() == Skip(old(file.State()), 35)
    ensures message == Decode(Ascii('A'), Peek(old(file.State()), 35))
  {
    hide Peek, Skip, BigEndian, InputStream.State, Stream.Valid;
    ghost var start := file.State();
    NothingRead(start);
    var stockLocate := file.ReadU16Be();
    FieldRead(start, 0, 2, 35);
    var trackingNumber := file.ReadU16Be();
    FieldRead(start, 2, 2, 35);
    var timestamp := file.ReadU48Be();
    FieldRead(start, 4, 6, 35);
    var orderReferenceNumber := file.ReadU64Be();
    FieldRead(start, 10, 8, 35);
    var buySellIndicator := file.ReadChar();
    FieldRead(start, 18, 1, 35);
    var shares := file.ReadU32Be();
    FieldRead(start, 19, 4, 35);
    var stock := file.ReadAlphaArray(8);
    FieldRead(start, 23, 8, 35);
    var price := file.ReadU32Be();
    FieldRead(start, 31, 4, 35);
    message := AddOrder(stockLocate, trackingNumber, timestamp, orderReferenceNumber, buySellIndicator, shares, stock,
                        price);
  }

  method DecodeFTypeMessage(file: InputStream) returns (message: Message)
    requires file.Valid()
    modifies file
    ensures file.Valid() && file.State() == Skip(old(file.State()), 39)
    ensures message == Decode(Ascii('F'), Peek(old(file.State()), 39))
  {
    hide Peek, Skip, BigEndian, InputStream.State, Stream.Valid;
    ghost var start := file.State();
    NothingRead(start);
    var stockLocate := file.ReadU16Be();
    FieldRead(start, 0, 2, 39);
    var trackingNumber := file.ReadU16Be();
    FieldRead(start, 2, 2, 39);
    var timestamp := file.ReadU48Be();
    FieldRead(start, 4, 6, 39);
    var orderReferenceNumber := file.ReadU64Be();
    FieldRead(start, 10, 8, 39);
    var buySellIndicator := file.ReadChar();
    FieldRead(start, 18, 1, 39);
    var shares := file.ReadU32Be();
    FieldRead(start, 19, 4, 39);
    var stock := file.ReadAlphaArray(8);
    FieldRead(start, 23, 8, 39);
    var price := file.ReadU32Be();
    FieldRead(start, 31, 4, 39);
    var attribution := file.ReadAlphaArray(4);
    FieldRead(start, 35, 4, 39);
    message := AddOrderWithMpid(stockLocate, trackingNumber, timestamp, orderReferenceNumber, buySellIndicator, shares,
                                stock, price, attribution);
  }

  method DecodeETypeMessage(file: InputStream) returns (message: Message)
    requires file.Valid()
    modifies file
    ensures file.Valid() && file.State() == Skip(old(file.State()), 30)
    ensures message == Decode(Ascii('E'), Peek(old(file.State()), 30))
  {
    hide Peek, Skip, BigEndian, InputStream.State, Stream.Valid;
    ghost var start := file.State();
    NothingRead(start);
    var stockLocate := file.ReadU16Be();
    FieldRead(start, 0, 2, 30);
    var trackingNumber := file.ReadU16Be();
    FieldRead(start, 2, 2, 30);
    var timestamp := file.ReadU48Be();
    FieldRead(start, 4, 6, 30);
    var orderReferenceNumber := file.ReadU64Be();
    FieldRead(start, 10, 8, 30);
    var executedShares := file.ReadU32Be();
    FieldRead(start, 18, 4, 30);
    var matchNumber := file.ReadU64Be();
    FieldRead(start, 22, 8, 30);
    message := OrderExecuted(stockLocate, trackingNumber, timestamp, orderReferenceNumber, executedShares, matchNumber);
  }

  method DecodeCTypeMessage(file: InputStream) returns (message: Message)
    requires file.Valid()
    modifies file
    ensures file.Valid() && file.State() == Skip(old(file.State()), 35)
    ensures message == Decode(Ascii('C'), Peek(old(file.State()), 35))
  {
    hide Peek, Skip, BigEndian, InputStream.State, Stream.Valid;
    ghost var start := file.State();
    NothingRead(start);
    var stockLocate := file.ReadU16Be();
    FieldRead(start, 0, 2, 35);
    var trackingNumber := file.ReadU16Be();
    FieldRead(start, 2, 2, 35);
    var timestamp := file.ReadU48Be();
    FieldRead(start, 4, 6, 35);
    var orderReferenceNumber := file.ReadU64Be();
    FieldRead(start, 10, 8, 35);
    var executedShares := file.ReadU32Be();
    FieldRead(start, 18, 4, 35);
    var matchNumber := file.ReadU64Be();
    FieldRead(start, 22, 8, 35);
    var printable := file.ReadChar();
    FieldRead(start, 30, 1, 35);
    var executionPrice := file.ReadU32Be();
    FieldRead(start, 31, 4, 35);
    message := OrderExecutedWithPrice(stockLocate, trackingNumber, timestamp, orderReferenceNumber, executedShares,
                                      matchNumber, printable, executionPrice);
  }

  method DecodeXTypeMessage(file: InputStream) returns (message: Message)
    requires file.Valid()
    modifies file
    ensures file.Valid() && file.State() == Skip(old(file.State()), 22)
    ensures message == Decode(Ascii('X'), Peek(old(file.State()), 22))
  {
    hide Peek, Skip, BigEndian, InputStream.State, Stream.Valid;
    ghost var start := file.State();
    NothingRead(start);
    var stockLocate := file.ReadU16Be();
    FieldRead(start, 0, 2, 22);
    var trackingNumber := file.ReadU16Be();
    FieldRead(start, 2, 2, 22);
    var timestamp := file.ReadU48Be();
    FieldRead(start, 4, 6, 22);
    var orderReferenceNumber := file.ReadU64Be();
    FieldRead(start, 10, 8, 22);
    var cancelledShares := file.ReadU32Be();
    FieldRead(start, 18, 4, 22);
    message := OrderCancel(stockLocate, trackingNumber, timestamp, orderReferenceNumber, cancelledShares);
  }

  method DecodeDTypeMessage(file: InputStream) returns (message: Message)
    requires file.Valid()
    modifies file
    ensures file.Valid() && file.State() == Skip(old(file.State()), 18)
    ensures message == Decode(Ascii('D'), Peek(old(file.State()), 18))
  {
    hide Peek, Skip, BigEndian, InputStream.State, Stream.Valid;
    ghost var start := file.State();
    NothingRead(start);
    var stockLocate := file.ReadU16Be();
    FieldRead(start, 0, 2, 18);
    var trackingNumber := file.ReadU16Be();
    FieldRead(start, 2, 2, 18);
    var timestamp := file.ReadU48Be();
    FieldRead(start, 4, 6, 18);
    var orderReferenceNumber := file.ReadU64Be();
    FieldRead(start, 10, 8, 18);
    message := OrderDelete(stockLocate, trackingNumber, timestamp, orderReferenceNumber);
  }

  method DecodeUTypeMessage(file: InputStream) returns (message: Message)
    requires file.Valid()
    modifies file
    ensures file.Valid() && file.State() == Skip(old(file.State()), 34)
    ensures message == Decode(Ascii('U'), Peek(old(file.State()), 34))
  {
    hide Peek, Skip, BigEndian, InputStream.State, Stream.Valid;
    ghost var start := file.State();
    NothingRead(start);
    var stockLocate := file.ReadU16Be();
    FieldRead(start, 0, 2, 34);
    var trackingNumber := file.ReadU16Be();
    FieldRead(start, 2, 2, 34);
    var timestamp := file.ReadU48Be();
    FieldRead(start, 4, 6, 34);
    var originalOrderReferenceNumber := file.ReadU64Be();
    FieldRead(start, 10, 8, 34);
    var newOrderReferenceNumber := file.ReadU64Be();
    FieldRead(start, 18, 8, 34);
    var shares := file.ReadU32Be();
    FieldRead(start, 26, 4, 34);
    var price := file.ReadU32Be();
    FieldRead(start, 30, 4, 34);
    message := OrderReplace(stockLocate, trackingNumber, timestamp, originalOrderReferenceNumber,
                            newOrderReferenceNumber, shares, price);
  }
}
