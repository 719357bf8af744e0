/** Decoding the encoding of a message gives the message back. */
module ItchRoundTrip {
  import opened ItchWire

  /** Field i starts at `off`: it is there in full, and the next field starts right behind it. */
  lemma FieldAt(s: Bytes, off: nat, fields: seq<Bytes>, i: nat)
    requires i < |fields| && off <= |s| && s[off..] == Concat(fields[i..])
    ensures off + |fields[i]| <= |s| && s[off..off + |fields[i]|] == fields[i]
    ensures s[off + |fields[i]|..] == Concat(fields[i + 1..])
  {
    assert fields[i..][1..] == fields[i + 1..];
    var rest := Concat(fields[i + 1..]);
    assert s[off..] == fields[i] + rest;
    assert s[off..off + |fields[i]|] == s[off..][..|fields[i]|];
    assert s[off + |fields[i]|..] == s[off..][|fields[i]|..];
  }

  lemma ByteAt(s: Bytes, off: nat, fields: seq<Bytes>, i: nat)
    requires i < |fields| && off <= |s| && s[off..] == Concat(fields[i..]) && |fields[i]| == 1
    ensures off + 1 <= |s| && s[off] == fields[i][0] && s[off + 1..] == Concat(fields[i + 1..])
  {
    FieldAt(s, off, fields, i);
    assert s[off] == s[off..off + 1][0];
  }

  lemma NumberAt(s: Bytes, off: nat, fields: seq<Bytes>, i: nat, v: nat, width: nat)
    requires i < |fields| && off <= |s| && s[off..] == Concat(fields[i..])
    requires fields[i] == ToBigEndian(v, width) && v < Pow256(width)
    ensures off + width <= |s| && BigEndian(s[off..off + width]) == v && s[off + width..] == Concat(fields[i + 1..])
  {
    FieldAt(s, off, fields, i);
    BigEndianRoundTrip(v, width);
  }

  lemma Ends(s: Bytes, off: nat, fields: seq<Bytes>)
    requires off <= |s| && s[off..] == Concat(fields[|fields|..])
    ensures |s| == off
  {
  }

  lemma Begins(fields: seq<Bytes>)
    ensures Concat(fields)[0..] == Concat(fields[0..])
  {
    assert fields[0..] == fields;
  }

  /** The header all messages share. */
  lemma Header(s: Bytes, fields: seq<Bytes>, locate: U16, tracking: U16, timestamp: U48)
    requires |fields| >= 3 && s == Concat(fields)
    requires fields[0] == ToBigEndian(locate, 2) && fields[1] == ToBigEndian(tracking, 2)
    requires fields[2] == ToBigEndian(timestamp, 6)
    ensures 10 <= |s| && U16At(s, 0) == locate && U16At(s, 2) == tracking && U48At(s, 4) == timestamp
    ensures s[10..] == Concat(fields[3..])
  {
    Powers();
    Begins(fields);
    NumberAt(s, 0, fields, 0, locate, 2);
    NumberAt(s, 2, fields, 1, tracking, 2);
    NumberAt(s, 4, fields, 2, timestamp, 6);
  }

  lemma OrderHeader(s: Bytes, fields: seq<Bytes>, locate: U16, tracking: U16, timestamp: U48, id: U64)
    requires |fields| >= 4 && s == Concat(fields)
    requires fields[0] == ToBigEndian(locate, 2) && fields[1] == ToBigEndian(tracking, 2)
    requires fields[2] == ToBigEndian(timestamp, 6)
    requires fields[3] == ToBigEndian(id, 8)
    ensures 18 <= |s| && U16At(s, 0) == locate && U16At(s, 2) == tracking && U48At(s, 4) == timestamp
    ensures U64At(s, 10) == id
    ensures s[18..] == Concat(fields[4..])
  {
    Powers();
    Header(s, fields, locate, tracking, timestamp);
    NumberAt(s, 10, fields, 3, id, 8);
  }

  lemma DecodeSystemEvent(m: Message)
    requires m.SystemEvent?
    ensures |Payload(m)| == 11 && Decode(Ascii('S'), Payload(m)) == m
  {
    hide Concat, BigEndian, ToBigEndian;
    var s, f := Payload(m), Fields(m);
    Header(s, f, m.stockLocate, m.trackingNumber, m.timestamp);
    ByteAt(s, 10, f, 3);
    Ends(s, 11, f);
  }

  lemma DecodeStockDirectory(m: Message)
    requires m.StockDirectory? && WellFormed(m)
    ensures |Payload(m)| == 38 && Decode(Ascii('R'), Payload(m)) == m
  {
    hide Concat, BigEndian, ToBigEndian;
    var s, f := Payload(m), Fields(m);
    Powers();
    Header(s, f, m.stockLocate, m.trackingNumber, m.timestamp);
    FieldAt(s, 10, f, 3);
    ByteAt(s, 18, f, 4);
    ByteAt(s, 19, f, 5);
    NumberAt(s, 20, f, 6, m.roundLotSize, 4);
    ByteAt(s, 24, f, 7);
    ByteAt(s, 25, f, 8);
    FieldAt(s, 26, f, 9);
    ByteAt(s, 28, f, 10);
    ByteAt(s, 29, f, 11);
    ByteAt(s, 30, f, 12);
    ByteAt(s, 31, f, 13);
    ByteAt(s, 32, f, 14);
    NumberAt(s, 33, f, 15, m.etpLeverageFactor, 4);
    ByteAt(s, 37, f, 16);
    Ends(s, 38, f);
  }

  lemma DecodeAddOrder(m: Message)
    requires m.AddOrder? && WellFormed(m)
    ensures |Payload(m)| == 35 && Decode(Ascii('A'), Payload(m)) == m
  {
    hide Concat, BigEndian, ToBigEndian;
    var s, f := Payload(m), Fields(m);
    Powers();
    OrderHeader(s, f, m.stockLocate, m.trackingNumber, m.timestamp, m.orderReferenceNumber);
    ByteAt(s, 18, f, 4);
    NumberAt(s, 19, f, 5, m.shares, 4);
    FieldAt(s, 23, f, 6);
    NumberAt(s, 31, f, 7, m.price, 4);
    Ends(s, 35, f);
  }

  lemma DecodeAddOrderWithMpid(m: Message)
    requires m.AddOrderWithMpid? && WellFormed(m)
    ensures |Payload(m)| == 39 && Decode(Ascii('F'), Payload(m)) == m
  {
    hide Concat, BigEndian, ToBigEndian;
    var s, f := Payload(m), Fields(m);
    Powers();
    OrderHeader(s, f, m.stockLocate, m.trackingNumber, m.timestamp, m.orderReferenceNumber);
    ByteAt(s, 18, f, 4);
    NumberAt(s, 19, f, 5, m.shares, 4);
    FieldAt(s, 23, f, 6);
    NumberAt(s, 31, f, 7, m.price, 4);
    FieldAt(s, 35, f, 8);
    Ends(s, 39, f);
  }

  lemma DecodeOrderExecuted(m: Message)
    requires m.OrderExecuted?
    ensures |Payload(m)| == 30 && Decode(Ascii('E'), Payload(m)) == m
  {
    hide Concat, BigEndian, ToBigEndian;
    var s, f := Payload(m), Fields(m);
    Powers();
    OrderHeader(s, f, m.stockLocate, m.trackingNumber, m.timestamp, m.orderReferenceNumber);
    NumberAt(s, 18, f, 4, m.executedShares, 4);
    NumberAt(s, 22, f, 5, m.matchNumber, 8);
    Ends(s, 30, f);
  }

  lemma DecodeOrderExecutedWithPrice(m: Message)
    requires m.OrderExecutedWithPrice?
    ensures |Payload(m)| == 35 && Decode(Ascii('C'), Payload(m)) == m
  {
    hide Concat, BigEndian, ToBigEndian;
    var s, f := Payload(m), Fields(m);
    Powers();
    OrderHeader(s, f, m.stockLocate, m.trackingNumber, m.timestamp, m.orderReferenceNumber);
    NumberAt(s, 18, f, 4, m.executedShares, 4);
    NumberAt(s, 22, f, 5, m.matchNumber, 8);
    ByteAt(s, 30, f, 6);
    NumberAt(s, 31, f, 7, m.executionPrice, 4);
    Ends(s, 35, f);
  }

  lemma DecodeOrderCancel(m: Message)
    requires m.OrderCancel?
    ensures |Payload(m)| == 22 && Decode(Ascii('X'), Payload(m)) == m
  {
    hide Concat, BigEndian, ToBigEndian;
    var s, f := Payload(m), Fields(m);
    Powers();
    OrderHeader(s, f, m.stockLocate, m.trackingNumber, m.timestamp, m.orderReferenceNumber);
    NumberAt(s, 18, f, 4, m.cancelledShares, 4);
    Ends(s, 22, f);
  }

  lemma DecodeOrderDelete(m: Message)
    requires m.OrderDelete?
    ensures |Payload(m)| == 18 && Decode(Ascii('D'), Payload(m)) == m
  {
    hide Concat, BigEndian, ToBigEndian;
    var s, f := Payload(m), Fields(m);
    OrderHeader(s, f, m.stockLocate, m.trackingNumber, m.timestamp, m.orderReferenceNumber);
    Ends(s, 18, f);
  }

  lemma DecodeOrderReplace(m: Message)
    requires m.OrderReplace?
    ensures |Payload(m)| == 34 && Decode(Ascii('U'), Payload(m)) == m
  {
    hide Concat, BigEndian, ToBigEndian;
    var s, f := Payload(m), Fields(m);
    Powers();
    OrderHeader(s, f, m.stockLocate, m.trackingNumber, m.timestamp, m.originalOrderReferenceNumber);
    NumberAt(s, 18, f, 4, m.newOrderReferenceNumber, 8);
    NumberAt(s, 26, f, 5, m.shares, 4);
    NumberAt(s, 30, f, 6, m.price, 4);
    Ends(s, 34, f);
  }

  /** Every message type has the length its decoder is checked against, and decoding inverts encoding. */
  lemma DecodeInvertsEncoding(m: Message)
    requires WellFormed(m)
    ensures Supported(TypeOf(m)) && |Payload(m)| == ExpectedLength(TypeOf(m)) - 1
    ensures Decode(TypeOf(m), Payload(m)) == m
  {
    hide Payload, Decode;
    match m
    case SystemEvent(_, _, _, _) => DecodeSystemEvent(m);
    case StockDirectory(_, _, _, _, _, _, _, _, _, _, _, _, _, _, _, _, _) => DecodeStockDirectory(m);
    case AddOrder(_, _, _, _, _, _, _, _) => DecodeAddOrder(m);
    case AddOrderWithMpid(_, _, _, _, _, _, _, _, _) => DecodeAddOrderWithMpid(m);
    case OrderExecuted(_, _, _, _, _, _) => DecodeOrderExecuted(m);
    case OrderExecutedWithPrice(_, _, _, _, _, _, _, _) => DecodeOrderExecutedWithPrice(m);
    case OrderCancel(_, _, _, _, _) => DecodeOrderCancel(m);
    case OrderDelete(_, _, _, _) => DecodeOrderDelete(m);
    case OrderReplace(_, _, _, _, _, _, _) => DecodeOrderReplace(m);
  }
}
