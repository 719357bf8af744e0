/** The wire form byte by byte: where each field of a message stands, counted from the type byte as the standard counts
    (Nasdaq TotalView-ITCH 5.0, message formats), and how its number is made of its bytes. */
module ItchLayout {
  import opened ItchWire
  import opened ItchRoundTrip
  import opened ItchFraming

  // ---------- numbers ----------

  function Two(s: Bytes, i: nat): nat
    requires i + 2 <= |s|
  {
    0x100 * (s[i] as int) + s[i + 1]
  }

  function Four(s: Bytes, i: nat): nat
    requires i + 4 <= |s|
  {
    0x1_0000 * Two(s, i) + Two(s, i + 2)
  }

  function Six(s: Bytes, i: nat): nat
    requires i + 6 <= |s|
  {
    0x1_0000 * Four(s, i) + Two(s, i + 4)
  }

  function Eight(s: Bytes, i: nat): nat
    requires i + 8 <= |s|
  {
    0x1_0000_0000 * Four(s, i) + Four(s, i + 4)
  }

  lemma {:induction false} BigEndianConcat(a: Bytes, b: Bytes)
    ensures BigEndian(a + b) == BigEndian(a) * Pow256(|b|) + BigEndian(b)
  {
    if b == [] {
      assert a + b == a;
    } else {
      var n := |b| - 1;
      BigEndianConcat(a, b[..n]);
      assert (a + b)[..|a| + n] == a + b[..n];
      ScaledOnce(BigEndian(a), Pow256(n), BigEndian(b[..n]), b[n]);
    }
  }

  lemma ScaledOnce(x: nat, p: nat, y: nat, last: nat)
    ensures 0x100 * (x * p + y) + last == x * (0x100 * p) + (0x100 * y + last)
  {
  }

  lemma PairIs(s: Bytes, i: nat)
    requires i + 2 <= |s|
    ensures BigEndian(s[i..i + 2]) == Two(s, i)
  {
    var pair := s[i..i + 2];
    assert pair[..1] == [s[i]] && [s[i]][..0] == [];
    assert BigEndian([s[i]]) == 0x100 * BigEndian([s[i]][..0]) + s[i];
  }

  /** Numbers are big-endian: the first byte counts most. */
  lemma NumbersAreBigEndian(s: Bytes, i: nat)
    ensures i + 2 <= |s| ==> U16At(s, i) == Two(s, i)
    ensures i + 4 <= |s| ==> U32At(s, i) == Four(s, i)
    ensures i + 6 <= |s| ==> U48At(s, i) == Six(s, i)
    ensures i + 8 <= |s| ==> U64At(s, i) == Eight(s, i)
  {
    hide BigEndian, Pow256;
    Powers();
    if i + 2 <= |s| { PairIs(s, i); }
    if i + 4 <= |s| { FourIs(s, i); }
    if i + 6 <= |s| {
      PairIs(s, i + 4);
      assert s[i..i + 6] == s[i..i + 4] + s[i + 4..i + 6];
      BigEndianConcat(s[i..i + 4], s[i + 4..i + 6]);
    }
    if i + 8 <= |s| {
      FourIs(s, i + 4);
      assert s[i..i + 8] == s[i..i + 4] + s[i + 4..i + 8];
      BigEndianConcat(s[i..i + 4], s[i + 4..i + 8]);
    }
  }

  lemma FourIs(s: Bytes, i: nat)
    requires i + 4 <= |s|
    ensures BigEndian(s[i..i + 4]) == Four(s, i)
  {
    hide BigEndian, Pow256;
    Powers();
    PairIs(s, i);
    PairIs(s, i + 2);
    assert s[i..i + 4] == s[i..i + 2] + s[i + 2..i + 4];
    BigEndianConcat(s[i..i + 2], s[i + 2..i + 4]);
  }

  // ---------- messages ----------

  /** A message from its type byte on. */
  function OnWire(m: Message): Bytes {
    [TypeOf(m)] + Payload(m)
  }

  /** In front of it stands its length in two bytes. */
  lemma FrameLayout(m: Message)
    requires WellFormed(m)
    ensures var w := Wire(Known(m)); |w| >= 2 && Two(w, 0) == |w| - 2 == |OnWire(m)| && w[2..] == OnWire(m)
  {
    hide Payload, ToBigEndian, BigEndian;
    var w, n := Wire(Known(m)), 1 + |Payload(m)|;
    DecodeInvertsEncoding(m);
    Powers();
    BigEndianRoundTrip(n, 2);
    PairIs(w, 0);
    assert w[0..2] == ToBigEndian(n, 2);
  }

  /** The fields that every message begins with. */
  ghost predicate Begins(m: Message, s: Bytes, kind: char) {
    && |s| >= 11 && s[0] == kind as int
    && Two(s, 1) == m.stockLocate && Two(s, 3) == m.trackingNumber && Six(s, 5) == m.timestamp
  }

  /** The bytes behind the type byte, seen from it. */
  lemma Shifted(kind: byte, s: Bytes, i: nat)
    ensures var t := [kind] + s;
            && (i + 2 <= |s| ==> U16At(s, i) == Two(t, i + 1))
            && (i + 4 <= |s| ==> U32At(s, i) == Four(t, i + 1))
            && (i + 6 <= |s| ==> U48At(s, i) == Six(t, i + 1))
            && (i + 8 <= |s| ==> U64At(s, i) == Eight(t, i + 1))
  {
    hide U16At, U32At, U48At, U64At;
    NumbersAreBigEndian(s, i);
  }

  lemma SystemEventLayout(m: Message)
    requires m.SystemEvent?
    ensures var s := OnWire(m);
            && |s| == 12 && Begins(m, s, 'S')
            && s[11] == m.eventCode
  {
    hide Payload, U16At, U32At, U48At, U64At, Two, Four, Six, Eight;
    var s := Payload(m);
    DecodeInvertsEncoding(m);
    assert m == Decode(Ascii('S'), s);
    Shifted(TypeOf(m), s, 0);
    Shifted(TypeOf(m), s, 2);
    Shifted(TypeOf(m), s, 4);
  }

  lemma StockDirectoryLayout(m: Message)
    requires m.StockDirectory? && WellFormed(m)
    ensures var s := OnWire(m);
            && |s| == 39 && Begins(m, s, 'R')
            && s[11..19] == m.stock && s[19] == m.marketCategory && s[20] == m.financialStatusIndicator
            && Four(s, 21) == m.roundLotSize && s[25] == m.roundLotsOnly && s[26] == m.issueClassification
            && s[27..29] == m.issueSubType && s[29] == m.authenticity && s[30] == m.shortSaleThresholdIndicator
            && s[31] == m.ipoFlag && s[32] == m.luldReferencePriceTier && s[33] == m.etpFlag
            && Four(s, 34) == m.etpLeverageFactor && s[38] == m.inverseIndicator
  {
    hide Payload, U16At, U32At, U48At, U64At, Two, Four, Six, Eight;
    var s := Payload(m);
    DecodeInvertsEncoding(m);
    assert m == Decode(Ascii('R'), s);
    Shifted(TypeOf(m), s, 0);
    Shifted(TypeOf(m), s, 2);
    Shifted(TypeOf(m), s, 4);
    Shifted(TypeOf(m), s, 20);
    Shifted(TypeOf(m), s, 33);
    assert OnWire(m)[11..19] == s[10..18];
    assert OnWire(m)[27..29] == s[26..28];
  }

  lemma AddOrderLayout(m: Message)
    requires m.AddOrder? && WellFormed(m)
    ensures var s := OnWire(m);
            && |s| == 36 && Begins(m, s, 'A')
            && Eight(s, 11) == m.orderReferenceNumber && s[19] == m.buySellIndicator && Four(s, 20) == m.shares
            && s[24..32] == m.stock && Four(s, 32) == m.price
  {
    hide Payload, U16At, U32At, U48At, U64At, Two, Four, Six, Eight;
    var s := Payload(m);
    DecodeInvertsEncoding(m);
    assert m == Decode(Ascii('A'), s);
    Shifted(TypeOf(m), s, 0);
    Shifted(TypeOf(m), s, 2);
    Shifted(TypeOf(m), s, 4);
    Shifted(TypeOf(m), s, 10);
    Shifted(TypeOf(m), s, 19);
    Shifted(TypeOf(m), s, 31);
    assert OnWire(m)[24..32] == s[23..31];
  }

  lemma AddOrderWithMpidLayout(m: Message)
    requires m.AddOrderWithMpid? && WellFormed(m)
    ensures var s := OnWire(m);
            && |s| == 40 && Begins(m, s, 'F')
            && Eight(s, 11) == m.orderReferenceNumber && s[19] == m.buySellIndicator && Four(s, 20) == m.shares
            && s[24..32] == m.stock && Four(s, 32) == m.price && s[36..40] == m.attribution
  {
    hide Payload, U16At, U32At, U48At, U64At, Two, Four, Six, Eight;
    var s := Payload(m);
    DecodeInvertsEncoding(m);
    assert m == Decode(Ascii('F'), s);
    Shifted(TypeOf(m), s, 0);
    Shifted(TypeOf(m), s, 2);
    Shifted(TypeOf(m), s, 4);
    Shifted(TypeOf(m), s, 10);
    Shifted(TypeOf(m), s, 19);
    Shifted(TypeOf(m), s, 31);
    assert OnWire(m)[24..32] == s[23..31];
    assert OnWire(m)[36..40] == s[35..39];
  }

  lemma OrderExecutedLayout(m: Message)
    requires m.OrderExecuted?
    ensures var s := OnWire(m);
            && |s| == 31 && Begins(m, s, 'E')
            && Eight(s, 11) == m.orderReferenceNumber && Four(s, 19) == m.executedShares
            && Eight(s, 23) == m.matchNumber
  {
    hide Payload, U16At, U32At, U48At, U64At, Two, Four, Six, Eight;
    var s := Payload(m);
    DecodeInvertsEncoding(m);
    assert m == Decode(Ascii('E'), s);
    Shifted(TypeOf(m), s, 0);
    Shifted(TypeOf(m), s, 2);
    Shifted(TypeOf(m), s, 4);
    Shifted(TypeOf(m), s, 10);
    Shifted(TypeOf(m), s, 18);
    Shifted(TypeOf(m), s, 22);
  }

  lemma OrderExecutedWithPriceLayout(m: Message)
    requires m.OrderExecutedWithPrice?
    ensures var s := OnWire(m);
            && |s| == 36 && Begins(m, s, 'C')
            && Eight(s, 11) == m.orderReferenceNumber && Four(s, 19) == m.executedShares
            && Eight(s, 23) == m.matchNumber && s[31] == m.printable && Four(s, 32) == m.executionPrice
  {
    hide Payload, U16At, U32At, U48At, U64At, Two, Four, Six, Eight;
    var s := Payload(m);
    DecodeInvertsEncoding(m);
    assert m == Decode(Ascii('C'), s);
    Shifted(TypeOf(m), s, 0);
    Shifted(TypeOf(m), s, 2);
    Shifted(TypeOf(m), s, 4);
    Shifted(TypeOf(m), s, 10);
    Shifted(TypeOf(m), s, 18);
    Shifted(TypeOf(m), s, 22);
    Shifted(TypeOf(m), s, 31);
  }

  lemma OrderCancelLayout(m: Message)
    requires m.OrderCancel?
    ensures var s := OnWire(m);
            && |s| == 23 && Begins(m, s, 'X')
            && Eight(s, 11) == m.orderReferenceNumber && Four(s, 19) == m.cancelledShares
  {
    hide Payload, U16At, U32At, U48At, U64At, Two, Four, Six, Eight;
    var s := Payload(m);
    DecodeInvertsEncoding(m);
    assert m == Decode(Ascii('X'), s);
    Shifted(TypeOf(m), s, 0);
    Shifted(TypeOf(m), s, 2);
    Shifted(TypeOf(m), s, 4);
    Shifted(TypeOf(m), s, 10);
    Shifted(TypeOf(m), s, 18);
  }

  lemma OrderDeleteLayout(m: Message)
    requires m.OrderDelete?
    ensures var s := OnWire(m);
            && |s| == 19 && Begins(m, s, 'D')
            && Eight(s, 11) == m.orderReferenceNumber
  {
    hide Payload, U16At, U32At, U48At, U64At, Two, Four, Six, Eight;
    var s := Payload(m);
    DecodeInvertsEncoding(m);
    assert m == Decode(Ascii('D'), s);
    Shifted(TypeOf(m), s, 0);
    Shifted(TypeOf(m), s, 2);
    Shifted(TypeOf(m), s, 4);
    Shifted(TypeOf(m), s, 10);
  }

  lemma OrderReplaceLayout(m: Message)
    requires m.OrderReplace?
    ensures var s := OnWire(m);
            && |s| == 35 && Begins(m, s, 'U')
            && Eight(s, 11) == m.originalOrderReferenceNumber && Eight(s, 19) == m.newOrderReferenceNumber
            && Four(s, 27) == m.shares && Four(s, 31) == m.price
  {
    hide Payload, U16At, U32At, U48At, U64At, Two, Four, Six, Eight;
    var s := Payload(m);
    DecodeInvertsEncoding(m);
    assert m == Decode(Ascii('U'), s);
    Shifted(TypeOf(m), s, 0);
    Shifted(TypeOf(m), s, 2);
    Shifted(TypeOf(m), s, 4);
    Shifted(TypeOf(m), s, 10);
    Shifted(TypeOf(m), s, 18);
    Shifted(TypeOf(m), s, 26);
    Shifted(TypeOf(m), s, 30);
  }
}
