/** ITCH messages and their layout on the wire: big-endian numbers and fixed-width text at fixed offsets
    (Nasdaq TotalView-ITCH 5.0, message formats). Offsets below count from the byte after the message type. */
module ItchWire {
  type byte = b: int | 0 <= b < 0x100
  type U16 = x: int | 0 <= x < 0x1_0000
  type U32 = x: int | 0 <= x < 0x1_0000_0000
  type U48 = x: int | 0 <= x < 0x1_0000_0000_0000
  type U64 = x: int | 0 <= x < 0x1_0000_0000_0000_0000
  type Bytes = seq<byte>

  datatype Message =
    | SystemEvent(stockLocate: U16, trackingNumber: U16, timestamp: U48, eventCode: byte)
    | StockDirectory(stockLocate: U16, trackingNumber: U16, timestamp: U48, stock: Bytes,
                     marketCategory: byte, financialStatusIndicator: byte, roundLotSize: U32, roundLotsOnly: byte,
                     issueClassification: byte, issueSubType: Bytes, authenticity: byte,
                     shortSaleThresholdIndicator: byte, ipoFlag: byte, luldReferencePriceTier: byte, etpFlag: byte,
                     etpLeverageFactor: U32, inverseIndicator: byte)
    | AddOrder(stockLocate: U16, trackingNumber: U16, timestamp: U48, orderReferenceNumber: U64,
               buySellIndicator: byte, shares: U32, stock: Bytes, price: U32)
    | AddOrderWithMpid(stockLocate: U16, trackingNumber: U16, timestamp: U48, orderReferenceNumber: U64,
                       buySellIndicator: byte, shares: U32, stock: Bytes, price: U32, attribution: Bytes)
    | OrderExecuted(stockLocate: U16, trackingNumber: U16, timestamp: U48, orderReferenceNumber: U64,
                    executedShares: U32, matchNumber: U64)
    | OrderExecutedWithPrice(stockLocate: U16, trackingNumber: U16, timestamp: U48, orderReferenceNumber: U64,
                             executedShares: U32, matchNumber: U64, printable: byte, executionPrice: U32)
    | OrderCancel(stockLocate: U16, trackingNumber: U16, timestamp: U48, orderReferenceNumber: U64,
                  cancelledShares: U32)
    | OrderDelete(stockLocate: U16, trackingNumber: U16, timestamp: U48, orderReferenceNumber: U64)
    | OrderReplace(stockLocate: U16, trackingNumber: U16, timestamp: U48, originalOrderReferenceNumber: U64,
                   newOrderReferenceNumber: U64, shares: U32, price: U32)

  function Ascii(c: char): byte
    requires c as int < 0x80
  {
    c as int
  }

  function TypeOf(m: Message): byte {
    match m
    case SystemEvent(_, _, _, _) => Ascii('S')
    case StockDirectory(_, _, _, _, _, _, _, _, _, _, _, _, _, _, _, _, _) => Ascii('R')
    case AddOrder(_, _, _, _, _, _, _, _) => Ascii('A')
    case AddOrderWithMpid(_, _, _, _, _, _, _, _, _) => Ascii('F')
    case OrderExecuted(_, _, _, _, _, _) => Ascii('E')
    case OrderExecutedWithPrice(_, _, _, _, _, _, _, _) => Ascii('C')
    case OrderCancel(_, _, _, _, _) => Ascii('X')
    case OrderDelete(_, _, _, _) => Ascii('D')
    case OrderReplace(_, _, _, _, _, _, _) => Ascii('U')
  }

  predicate Supported(kind: byte) {
    kind == Ascii('S') || kind == Ascii('R') || kind == Ascii('A') || kind == Ascii('F') || kind == Ascii('E')
    || kind == Ascii('C') || kind == Ascii('X') || kind == Ascii('D') || kind == Ascii('U')
  }

  /** Length on the wire, the type byte included. */
  function ExpectedLength(kind: byte): nat
    requires Supported(kind)
  {
    if kind == Ascii('S') then 12
    else if kind == Ascii('R') then 39
    else if kind == Ascii('A') then 36
    else if kind == Ascii('F') then 40
    else if kind == Ascii('E') then 31
    else if kind == Ascii('C') then 36
    else if kind == Ascii('X') then 23
    else if kind == Ascii('D') then 19
    else 35
  }

  predicate UnexpectedMessageLength(messageLength: nat, messageType: byte) {
    Supported(messageType) && messageLength != ExpectedLength(messageType)
  }

  /** The text fields have their fixed widths. */
  predicate WellFormed(m: Message) {
    match m
    case StockDirectory(_, _, _, stock, _, _, _, _, _, issueSubType, _, _, _, _, _, _, _) => |stock| == 8
        && |issueSubType| == 2
    case AddOrder(_, _, _, _, _, _, stock, _) => |stock| == 8
    case AddOrderWithMpid(_, _, _, _, _, _, stock, _, attribution) => |stock| == 8 && |attribution| == 4
    case _ => true
  }

  // ---------- numbers ----------

  function Pow256(n: nat): nat {
    if n == 0 then 1 else 0x100 * Pow256(n - 1)
  }

  function BigEndian(s: Bytes): nat {
    if s == [] then 0 else 0x100 * BigEndian(s[..|s| - 1]) + s[|s| - 1]
  }

  function ToBigEndian(v: nat, width: nat): (s: Bytes)
    ensures |s| == width
  {
    if width == 0 then [] else ToBigEndian(v / 0x100, width - 1) + [v % 0x100]
  }

  lemma {:induction false} BigEndianBound(s: Bytes)
    ensures BigEndian(s) < Pow256(|s|)
  {
    if s != [] { BigEndianBound(s[..|s| - 1]); }
  }

  lemma {:induction false} BigEndianRoundTrip(v: nat, width: nat)
    requires v < Pow256(width)
    ensures BigEndian(ToBigEndian(v, width)) == v
  {
    if width > 0 {
      BigEndianRoundTrip(v / 0x100, width - 1);
      var s := ToBigEndian(v, width);
      assert s[..|s| - 1] == ToBigEndian(v / 0x100, width - 1);
    }
  }

  lemma Powers()
    ensures Pow256(1) == 0x100 && Pow256(2) == 0x1_0000 && Pow256(4) == 0x1_0000_0000
    ensures Pow256(6) == 0x1_0000_0000_0000 && Pow256(8) == 0x1_0000_0000_0000_0000
  {
    assert Pow256(1) == 0x100;
    assert Pow256(2) == 0x1_0000;
    assert Pow256(3) == 0x100_0000;
    assert Pow256(4) == 0x1_0000_0000;
    assert Pow256(5) == 0x100_0000_0000;
    assert Pow256(6) == 0x1_0000_0000_0000;
    assert Pow256(7) == 0x100_0000_0000_0000;
  }

  function U16At(s: Bytes, off: nat): U16
    requires off + 2 <= |s|
  {
    BigEndianBound(s[off..off + 2]); Powers();
    BigEndian(s[off..off + 2])
  }

  function U32At(s: Bytes, off: nat): U32
    requires off + 4 <= |s|
  {
    BigEndianBound(s[off..off + 4]); Powers();
    BigEndian(s[off..off + 4])
  }

  function U48At(s: Bytes, off: nat): U48
    requires off + 6 <= |s|
  {
    BigEndianBound(s[off..off + 6]); Powers();
    BigEndian(s[off..off + 6])
  }

  function U64At(s: Bytes, off: nat): U64
    requires off + 8 <= |s|
  {
    BigEndianBound(s[off..off + 8]); Powers();
    BigEndian(s[off..off + 8])
  }

  // ---------- layout ----------

  /** The message of a type whose bytes after the type byte are these. */
  function Decode(kind: byte, s: Bytes): Message
    requires Supported(kind) && |s| == ExpectedLength(kind) - 1
  {
    if kind == Ascii('S') then
      SystemEvent(U16At(s, 0), U16At(s, 2), U48At(s, 4), s[10])
    else if kind == Ascii('R') then
      StockDirectory(U16At(s, 0), U16At(s, 2), U48At(s, 4), s[10..18], s[18], s[19], U32At(s, 20), s[24], s[25],
                     s[26..28], s[28], s[29], s[30], s[31], s[32], U32At(s, 33), s[37])
    else if kind == Ascii('A') then
      AddOrder(U16At(s, 0), U16At(s, 2), U48At(s, 4), U64At(s, 10), s[18], U32At(s, 19), s[23..31], U32At(s, 31))
    else if kind == Ascii('F') then
      AddOrderWithMpid(U16At(s, 0), U16At(s, 2), U48At(s, 4), U64At(s, 10), s[18], U32At(s, 19), s[23..31],
                       U32At(s, 31), s[35..39])
    else if kind == Ascii('E') then
      OrderExecuted(U16At(s, 0), U16At(s, 2), U48At(s, 4), U64At(s, 10), U32At(s, 18), U64At(s, 22))
    else if kind == Ascii('C') then
      OrderExecutedWithPrice(U16At(s, 0), U16At(s, 2), U48At(s, 4), U64At(s, 10), U32At(s, 18), U64At(s, 22), s[30],
                             U32At(s, 31))
    else if kind == Ascii('X') then
      OrderCancel(U16At(s, 0), U16At(s, 2), U48At(s, 4), U64At(s, 10), U32At(s, 18))
    else if kind == Ascii('D') then
      OrderDelete(U16At(s, 0), U16At(s, 2), U48At(s, 4), U64At(s, 10))
    else
      OrderReplace(U16At(s, 0), U16At(s, 2), U48At(s, 4), U64At(s, 10), U64At(s, 18), U32At(s, 26), U32At(s, 30))
  }

  /** Fields in wire order. */
  function Fields(m: Message): seq<Bytes> {
    match m
    case SystemEvent(locate, tracking, timestamp, eventCode) =>
      [ToBigEndian(locate, 2), ToBigEndian(tracking, 2), ToBigEndian(timestamp, 6), [eventCode]]
    case StockDirectory(locate, tracking, timestamp, stock, category, status, lotSize, lotsOnly, classification,
                        subType, authenticity, shortSale, ipo, luld, etp, leverage, inverse) =>
      [ToBigEndian(locate, 2), ToBigEndian(tracking, 2), ToBigEndian(timestamp, 6), stock, [category], [status],
       ToBigEndian(lotSize, 4), [lotsOnly], [classification], subType, [authenticity], [shortSale], [ipo], [luld],
       [etp], ToBigEndian(leverage, 4), [inverse]]
    case AddOrder(locate, tracking, timestamp, id, side, shares, stock, price) =>
      [ToBigEndian(locate, 2), ToBigEndian(tracking, 2), ToBigEndian(timestamp, 6), ToBigEndian(id, 8), [side],
       ToBigEndian(shares, 4), stock, ToBigEndian(price, 4)]
    case AddOrderWithMpid(locate, tracking, timestamp, id, side, shares, stock, price, attribution) =>
      [ToBigEndian(locate, 2), ToBigEndian(tracking, 2), ToBigEndian(timestamp, 6), ToBigEndian(id, 8), [side],
       ToBigEndian(shares, 4), stock, ToBigEndian(price, 4), attribution]
    case OrderExecuted(locate, tracking, timestamp, id, shares, matchNumber) =>
      [ToBigEndian(locate, 2), ToBigEndian(tracking, 2), ToBigEndian(timestamp, 6), ToBigEndian(id, 8),
       ToBigEndian(shares, 4), ToBigEndian(matchNumber, 8)]
    case OrderExecutedWithPrice(locate, tracking, timestamp, id, shares, matchNumber, printable, price) =>
      [ToBigEndian(locate, 2), ToBigEndian(tracking, 2), ToBigEndian(timestamp, 6), ToBigEndian(id, 8),
       ToBigEndian(shares, 4), ToBigEndian(matchNumber, 8), [printable], ToBigEndian(price, 4)]
    case OrderCancel(locate, tracking, timestamp, id, shares) =>
      [ToBigEndian(locate, 2), ToBigEndian(tracking, 2), ToBigEndian(timestamp, 6), ToBigEndian(id, 8),
       ToBigEndian(shares, 4)]
    case OrderDelete(locate, tracking, timestamp, id) =>
      [ToBigEndian(locate, 2), ToBigEndian(tracking, 2), ToBigEndian(timestamp, 6), ToBigEndian(id, 8)]
    case OrderReplace(locate, tracking, timestamp, originalId, newId, shares, price) =>
      [ToBigEndian(locate, 2), ToBigEndian(tracking, 2), ToBigEndian(timestamp, 6), ToBigEndian(originalId, 8),
       ToBigEndian(newId, 8), ToBigEndian(shares, 4), ToBigEndian(price, 4)]
  }

  function Concat(fields: seq<Bytes>): Bytes {
    if fields == [] then [] else fields[0] + Concat(fields[1..])
  }

  function Payload(m: Message): Bytes {
    Concat(Fields(m))
  }
}
