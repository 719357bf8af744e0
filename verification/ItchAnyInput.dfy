/** Parsing arbitrary bytes: every input is a list of well-formed frames and a broken tail, in one way only, and the
    tail decides how parsing ends. */
module ItchAnyInput {
  import opened Types
  import opened ItchWire
  import opened ItchStream
  import opened ItchRoundTrip
  import opened ItchFraming

  // ---------- encoding a decoded message ----------

  lemma {:induction false} ToBigEndianInverts(s: Bytes)
    ensures ToBigEndian(BigEndian(s), |s|) == s
  {
    if s != [] {
      ToBigEndianInverts(s[..|s| - 1]);
    }
  }

  lemma NumberKept(s: Bytes, off: nat, width: nat)
    requires off + width <= |s|
    ensures ToBigEndian(BigEndian(s[off..off + width]), width) == s[off..off + width]
  {
    ToBigEndianInverts(s[off..off + width]);
  }

  /** Field i ends at `off` and the fields behind it spell the rest: so do the fields from i on. */
  lemma FieldBefore(s: Bytes, off: nat, fields: seq<Bytes>, i: nat, width: nat)
    requires i < |fields| && off + width <= |s| && fields[i] == s[off..off + width]
    requires Concat(fields[i + 1..]) == s[off + width..]
    ensures Concat(fields[i..]) == s[off..]
  {
    assert fields[i..][1..] == fields[i + 1..];
    var rest := s[off + width..];
    assert s[off..] == s[off..off + width] + rest;
  }

  lemma EncodeSystemEvent(s: Bytes)
    requires |s| == 11
    ensures Payload(Decode(Ascii('S'), s)) == s
  {
    hide Concat, BigEndian, ToBigEndian;
    var f := Fields(Decode(Ascii('S'), s));
    Ended(s, f);
    assert [s[10]] == s[10..11];
    FieldBefore(s, 10, f, 3, 1);
    NumberKept(s, 4, 6);
    FieldBefore(s, 4, f, 2, 6);
    NumberKept(s, 2, 2);
    FieldBefore(s, 2, f, 1, 2);
    NumberKept(s, 0, 2);
    FieldBefore(s, 0, f, 0, 2);
    assert f[0..] == f && s[0..] == s;
  }

  lemma EncodeStockDirectory(s: Bytes)
    requires |s| == 38
    ensures Payload(Decode(Ascii('R'), s)) == s
  {
    hide Concat, BigEndian, ToBigEndian;
    var f := Fields(Decode(Ascii('R'), s));
    Ended(s, f);
    assert [s[37]] == s[37..38];
    FieldBefore(s, 37, f, 16, 1);
    NumberKept(s, 33, 4);
    FieldBefore(s, 33, f, 15, 4);
    assert [s[32]] == s[32..33];
    FieldBefore(s, 32, f, 14, 1);
    assert [s[31]] == s[31..32];
    FieldBefore(s, 31, f, 13, 1);
    assert [s[30]] == s[30..31];
    FieldBefore(s, 30, f, 12, 1);
    assert [s[29]] == s[29..30];
    FieldBefore(s, 29, f, 11, 1);
    assert [s[28]] == s[28..29];
    FieldBefore(s, 28, f, 10, 1);
    FieldBefore(s, 26, f, 9, 2);
    assert [s[25]] == s[25..26];
    FieldBefore(s, 25, f, 8, 1);
    assert [s[24]] == s[24..25];
    FieldBefore(s, 24, f, 7, 1);
    NumberKept(s, 20, 4);
    FieldBefore(s, 20, f, 6, 4);
    assert [s[19]] == s[19..20];
    FieldBefore(s, 19, f, 5, 1);
    assert [s[18]] == s[18..19];
    FieldBefore(s, 18, f, 4, 1);
    FieldBefore(s, 10, f, 3, 8);
    NumberKept(s, 4, 6);
    FieldBefore(s, 4, f, 2, 6);
    NumberKept(s, 2, 2);
    FieldBefore(s, 2, f, 1, 2);
    NumberKept(s, 0, 2);
    FieldBefore(s, 0, f, 0, 2);
    assert f[0..] == f && s[0..] == s;
  }

  lemma EncodeAddOrder(s: Bytes)
    requires |s| == 35
    ensures Payload(Decode(Ascii('A'), s)) == s
  {
    hide Concat, BigEndian, ToBigEndian;
    var f := Fields(Decode(Ascii('A'), s));
    Ended(s, f);
    NumberKept(s, 31, 4);
    FieldBefore(s, 31, f, 7, 4);
    FieldBefore(s, 23, f, 6, 8);
    NumberKept(s, 19, 4);
    FieldBefore(s, 19, f, 5, 4);
    assert [s[18]] == s[18..19];
    FieldBefore(s, 18, f, 4, 1);
    NumberKept(s, 10, 8);
    FieldBefore(s, 10, f, 3, 8);
    NumberKept(s, 4, 6);
    FieldBefore(s, 4, f, 2, 6);
    NumberKept(s, 2, 2);
    FieldBefore(s, 2, f, 1, 2);
    NumberKept(s, 0, 2);
    FieldBefore(s, 0, f, 0, 2);
    assert f[0..] == f && s[0..] == s;
  }

  lemma EncodeAddOrderWithMpid(s: Bytes)
    requires |s| == 39
    ensures Payload(Decode(Ascii('F'), s)) == s
  {
    hide Concat, BigEndian, ToBigEndian;
    var f := Fields(Decode(Ascii('F'), s));
    Ended(s, f);
    FieldBefore(s, 35, f, 8, 4);
    NumberKept(s, 31, 4);
    FieldBefore(s, 31, f, 7, 4);
    FieldBefore(s, 23, f, 6, 8);
    NumberKept(s, 19, 4);
    FieldBefore(s, 19, f, 5, 4);
    assert [s[18]] == s[18..19];
    FieldBefore(s, 18, f, 4, 1);
    NumberKept(s, 10, 8);
    FieldBefore(s, 10, f, 3, 8);
    NumberKept(s, 4, 6);
    FieldBefore(s, 4, f, 2, 6);
    NumberKept(s, 2, 2);
    FieldBefore(s, 2, f, 1, 2);
    NumberKept(s, 0, 2);
    FieldBefore(s, 0, f, 0, 2);
    assert f[0..] == f && s[0..] == s;
  }

  lemma EncodeOrderExecuted(s: Bytes)
    requires |s| == 30
    ensures Payload(Decode(Ascii('E'), s)) == s
  {
    hide Concat, BigEndian, ToBigEndian;
    var f := Fields(Decode(Ascii('E'), s));
    Ended(s, f);
    NumberKept(s, 22, 8);
    FieldBefore(s, 22, f, 5, 8);
    NumberKept(s, 18, 4);
    FieldBefore(s, 18, f, 4, 4);
    NumberKept(s, 10, 8);
    FieldBefore(s, 10, f, 3, 8);
    NumberKept(s, 4, 6);
    FieldBefore(s, 4, f, 2, 6);
    NumberKept(s, 2, 2);
    FieldBefore(s, 2, f, 1, 2);
    NumberKept(s, 0, 2);
    FieldBefore(s, 0, f, 0, 2);
    assert f[0..] == f && s[0..] == s;
  }

  lemma EncodeOrderExecutedWithPrice(s: Bytes)
    requires |s| == 35
    ensures Payload(Decode(Ascii('C'), s)) == s
  {
    hide Concat, BigEndian, ToBigEndian;
    var f := Fields(Decode(Ascii('C'), s));
    Ended(s, f);
    NumberKept(s, 31, 4);
    FieldBefore(s, 31, f, 7, 4);
    assert [s[30]] == s[30..31];
    FieldBefore(s, 30, f, 6, 1);
    NumberKept(s, 22, 8);
    FieldBefore(s, 22, f, 5, 8);
    NumberKept(s, 18, 4);
    FieldBefore(s, 18, f, 4, 4);
    NumberKept(s, 10, 8);
    FieldBefore(s, 10, f, 3, 8);
    NumberKept(s, 4, 6);
    FieldBefore(s, 4, f, 2, 6);
    NumberKept(s, 2, 2);
    FieldBefore(s, 2, f, 1, 2);
    NumberKept(s, 0, 2);
    FieldBefore(s, 0, f, 0, 2);
    assert f[0..] == f && s[0..] == s;
  }

  lemma EncodeOrderCancel(s: Bytes)
    requires |s| == 22
    ensures Payload(Decode(Ascii('X'), s)) == s
  {
    hide Concat, BigEndian, ToBigEndian;
    var f := Fields(Decode(Ascii('X'), s));
    Ended(s, f);
    NumberKept(s, 18, 4);
    FieldBefore(s, 18, f, 4, 4);
    NumberKept(s, 10, 8);
    FieldBefore(s, 10, f, 3, 8);
    NumberKept(s, 4, 6);
    FieldBefore(s, 4, f, 2, 6);
    NumberKept(s, 2, 2);
    FieldBefore(s, 2, f, 1, 2);
    NumberKept(s, 0, 2);
    FieldBefore(s, 0, f, 0, 2);
    assert f[0..] == f && s[0..] == s;
  }

  lemma EncodeOrderDelete(s: Bytes)
    requires |s| == 18
    ensures Payload(Decode(Ascii('D'), s)) == s
  {
    hide Concat, BigEndian, ToBigEndian;
    var f := Fields(Decode(Ascii('D'), s));
    Ended(s, f);
    NumberKept(s, 10, 8);
    FieldBefore(s, 10, f, 3, 8);
    NumberKept(s, 4, 6);
    FieldBefore(s, 4, f, 2, 6);
    NumberKept(s, 2, 2);
    FieldBefore(s, 2, f, 1, 2);
    NumberKept(s, 0, 2);
    FieldBefore(s, 0, f, 0, 2);
    assert f[0..] == f && s[0..] == s;
  }

  lemma EncodeOrderReplace(s: Bytes)
    requires |s| == 34
    ensures Payload(Decode(Ascii('U'), s)) == s
  {
    hide Concat, BigEndian, ToBigEndian;
    var f := Fields(Decode(Ascii('U'), s));
    Ended(s, f);
    NumberKept(s, 30, 4);
    FieldBefore(s, 30, f, 6, 4);
    NumberKept(s, 26, 4);
    FieldBefore(s, 26, f, 5, 4);
    NumberKept(s, 18, 8);
    FieldBefore(s, 18, f, 4, 8);
    NumberKept(s, 10, 8);
    FieldBefore(s, 10, f, 3, 8);
    NumberKept(s, 4, 6);
    FieldBefore(s, 4, f, 2, 6);
    NumberKept(s, 2, 2);
    FieldBefore(s, 2, f, 1, 2);
    NumberKept(s, 0, 2);
    FieldBefore(s, 0, f, 0, 2);
    assert f[0..] == f && s[0..] == s;
  }

  lemma Ended(s: Bytes, fields: seq<Bytes>)
    ensures Concat(fields[|fields|..]) == s[|s|..]
  {
  }

  /** Encoding inverts decoding: no two bodies of a type decode to the same message. */
  lemma EncodingInvertsDecoding(kind: byte, s: Bytes)
    requires Supported(kind) && |s| == ExpectedLength(kind) - 1
    ensures TypeOf(Decode(kind, s)) == kind && WellFormed(Decode(kind, s)) && Payload(Decode(kind, s)) == s
  {
    hide Payload, BigEndian;
    if kind == Ascii('S') { EncodeSystemEvent(s); }
    else if kind == Ascii('R') { EncodeStockDirectory(s); }
    else if kind == Ascii('A') { EncodeAddOrder(s); }
    else if kind == Ascii('F') { EncodeAddOrderWithMpid(s); }
    else if kind == Ascii('E') { EncodeOrderExecuted(s); }
    else if kind == Ascii('C') { EncodeOrderExecutedWithPrice(s); }
    else if kind == Ascii('X') { EncodeOrderCancel(s); }
    else if kind == Ascii('D') { EncodeOrderDelete(s); }
    else { EncodeOrderReplace(s); }
  }

  // ---------- cutting any input into frames ----------

  /** The bytes begin with a complete frame whose length its type allows. */
  predicate StartsWithFrame(b: Bytes) {
    |b| >= 3
    && var length := BigEndian(b[..2]);
       1 <= length && 2 + length <= |b| && !UnexpectedMessageLength(length, b[2])
  }

  function HeadFrame(b: Bytes): Frame
    requires StartsWithFrame(b)
  {
    var body := b[3..2 + BigEndian(b[..2])];
    if Supported(b[2]) then Known(Decode(b[2], body)) else Unknown(b[2], body)
  }

  function Behind(b: Bytes): (rest: Bytes)
    requires StartsWithFrame(b)
    ensures |rest| < |b|
  {
    b[2 + BigEndian(b[..2])..]
  }

  function Frames(b: Bytes): seq<Frame>
    decreases |b|
  {
    if StartsWithFrame(b) then [HeadFrame(b)] + Frames(Behind(b)) else []
  }

  function Tail(b: Bytes): (rest: Bytes)
    ensures !StartsWithFrame(rest)
    decreases |b|
  {
    if StartsWithFrame(b) then Tail(Behind(b)) else b
  }

  lemma HeadFrameIsWire(b: Bytes)
    requires StartsWithFrame(b)
    ensures WellFormedFrame(HeadFrame(b)) && Wire(HeadFrame(b)) + Behind(b) == b
  {
    hide Payload, Decode, BigEndian, ToBigEndian;
    var length := BigEndian(b[..2]);
    var body := b[3..2 + length];
    Powers();
    BigEndianBound(b[..2]);
    ToBigEndianInverts(b[..2]);
    if Supported(b[2]) { EncodingInvertsDecoding(b[2], body); }
    assert b[..2] + [b[2]] + body + Behind(b) == b;
  }

  /** Any input is the wire form of well-formed frames followed by a tail that no frame starts. */
  lemma {:induction false} AnyInputIsFramesAndTail(b: Bytes)
    ensures forall i :: 0 <= i < |Frames(b)| ==> WellFormedFrame(Frames(b)[i])
    ensures WireAll(Frames(b)) + Tail(b) == b
    decreases |b|
  {
    hide HeadFrame, Behind, Wire, StartsWithFrame, WellFormedFrame;
    if StartsWithFrame(b) {
      var rest := Behind(b);
      AnyInputIsFramesAndTail(rest);
      HeadFrameIsWire(b);
      var fs := Frames(b);
      assert fs[0] == HeadFrame(b) && fs[1..] == Frames(rest);
      assert Wire(fs[0]) + WireAll(fs[1..]) + Tail(rest) == Wire(fs[0]) + rest;
    }
  }

  lemma WireStartsWithFrame(f: Frame, rest: Bytes)
    requires WellFormedFrame(f)
    ensures StartsWithFrame(Wire(f) + rest) && HeadFrame(Wire(f) + rest) == f && Behind(Wire(f) + rest) == rest
  {
    hide Wire, BigEndian, Payload, Decode;
    FrameLength(f);
    var b := Wire(f) + rest;
    var s := Start(b);
    assert s.bytes[s.pos..] == b;
    FrameAt(s, f, rest);
    assert b[0..2] == b[..2];
    if f.Known? { DecodeInvertsEncoding(f.message); }
  }

  /** There is no second way to cut the input. */
  lemma {:induction false} CutIsUnique(fs: seq<Frame>, tail: Bytes)
    requires forall i :: 0 <= i < |fs| ==> WellFormedFrame(fs[i])
    requires !StartsWithFrame(tail)
    ensures Frames(WireAll(fs) + tail) == fs && Tail(WireAll(fs) + tail) == tail
    decreases |fs|
  {
    hide HeadFrame, Behind, Wire, StartsWithFrame, WellFormedFrame;
    if fs == [] {
      assert WireAll(fs) + tail == tail;
    } else {
      var rest := WireAll(fs[1..]) + tail;
      assert WireAll(fs) + tail == Wire(fs[0]) + rest;
      WireStartsWithFrame(fs[0], rest);
      CutIsUnique(fs[1..], tail);
      assert [fs[0]] + fs[1..] == fs;
    }
  }

  // ---------- the tail ----------

  predicate HasHeader(tail: Bytes) {
    |tail| >= 3 && BigEndian(tail[..2]) >= 1
  }

  /** The body bytes there are, filled up with zeros. */
  function Padded(tail: Bytes): (body: Bytes)
    requires HasHeader(tail) && !StartsWithFrame(tail) && !UnexpectedMessageLength(BigEndian(tail[..2]), tail[2])
    ensures |body| == BigEndian(tail[..2]) - 1
  {
    tail[3..] + seq(BigEndian(tail[..2]) - 1 - |tail[3..]|, _ => 0)
  }

  /** A tail too short for a length and a type, or of length zero, ends the input; a length the type does not have is an
      error; an unknown type cut short dispatches nothing; and a supported message cut short is still dispatched,
      filled up with zeros, unless it is after the stop time. */
  function TailParsed(tail: Bytes, stop: Option<U64>): Parsed
    requires !StartsWithFrame(tail)
  {
    if !HasHeader(tail) then Parsed([], EndOfInput)
    else if UnexpectedMessageLength(BigEndian(tail[..2]), tail[2]) then Parsed([], BadLength)
    else if !Supported(tail[2]) then Parsed([], EndOfInput)
    else
      var m := Decode(tail[2], Padded(tail));
      if StopsBefore(m, stop) then Parsed([], StopTime) else Parsed([m], EndOfInput)
  }

  lemma PeekBeyond(s: Stream, n: nat)
    requires s.Valid() && s.Good() && s.pos + n > |s.bytes|
    ensures Peek(s, n) == s.bytes[s.pos..] + seq(n - |s.bytes[s.pos..]|, _ => 0)
    ensures Skip(s, n).failed && PassOver(s, n) == s.(pos := |s.bytes|, eof := true)
  {
  }

  /** A stream that is used up yields nothing more. */
  lemma UsedUp(s: Stream, stop: Option<U64>)
    requires s.Valid() && (!s.Good() || s.pos + 2 > |s.bytes|)
    ensures ParseStream(s, stop) == Parsed([], EndOfInput)
  {
  }

  lemma ParseTail(s: Stream, tail: Bytes, stop: Option<U64>)
    requires s.Valid() && s.Good() && s.bytes[s.pos..] == tail && !StartsWithFrame(tail)
    ensures ParseStream(s, stop) == TailParsed(tail, stop)
  {
    hide Peek, Skip, PassOver, BigEndian, Decode, StartsWithFrame;
    if |tail| < 2 {
      UsedUp(s, stop);
    } else {
      PeekInside(s, 2);
      assert s.bytes[s.pos..s.pos + 2] == tail[..2];
      var afterLength := s.(pos := s.pos + 2);
      if |tail| < 3 {
        PeekBeyond(afterLength, 1);
      } else if BigEndian(tail[..2]) >= 1 {
        PeekInside(afterLength, 1);
        assert s.bytes[s.pos + 2] == tail[2];
        ParseCutBody(s, tail, stop);
      }
    }
  }

  /** The tail has a length and a type. */
  lemma ParseCutBody(s: Stream, tail: Bytes, stop: Option<U64>)
    requires s.Valid() && s.Good() && s.bytes[s.pos..] == tail && !StartsWithFrame(tail) && HasHeader(tail)
    ensures ParseStream(s, stop) == TailParsed(tail, stop)
  {
    hide Peek, Skip, PassOver, BigEndian, Decode;
    PeekInside(s, 2);
    assert s.bytes[s.pos..s.pos + 2] == tail[..2];
    var afterLength := s.(pos := s.pos + 2);
    PeekInside(afterLength, 1);
    assert s.bytes[s.pos + 2] == tail[2];
    var body := s.(pos := s.pos + 3);
    var length := BigEndian(tail[..2]);
    if !UnexpectedMessageLength(length, tail[2]) {
      assert s.bytes[body.pos..] == tail[3..];
      PeekBeyond(body, length - 1);
      UsedUp(PassOver(body, length - 1), stop);
    }
  }

  /** What parsing the bytes of a file comes to: its frames, and behind them whatever its tail yields. */
  function FileParsed(b: Bytes, stop: Option<U64>): Parsed {
    Dispatched(Frames(b), stop, TailParsed(Tail(b), stop))
  }

  /** What parsing any input dispatches, and how it ends. */
  lemma ParseAnyInput(b: Bytes, stop: Option<U64>)
    ensures ParseStream(Start(b), stop) == FileParsed(b, stop)
  {
    hide WireAll, WellFormedFrame, Dispatched, StartsWithFrame, ParseStream, TailParsed, Frames, Tail;
    AnyInputIsFramesAndTail(b);
    var s := Start(b);
    assert s.bytes[s.pos..] == WireAll(Frames(b)) + Tail(b);
    ParseInvertsFraming(s, Frames(b), Tail(b), stop);
    var next := s.(pos := |WireAll(Frames(b))|);
    assert next.bytes[next.pos..] == Tail(b);
    ParseTail(next, Tail(b), stop);
  }

  // ---------- the stop time ----------

  /** Without a stop time a file dispatches its frames' messages and, when its end cuts one short, that one; a stop time
      cuts this before the first message whose timestamp is after it, and the file ends with StopTime exactly when there
      is such a message. */
  lemma FileStopsAtFirstLate(b: Bytes, stop: Option<U64>)
    ensures var p, whole := FileParsed(b, stop), FileParsed(b, None);
            && whole.messages == Messages(Frames(b)) + TailParsed(Tail(b), None).messages && whole.outcome != StopTime
            && CutAtFirstLate(whole, stop, p)
  {
    hide Frames, Tail, TailParsed, Dispatched, CutAtFirstLate;
    TailIsCut(Tail(b), stop);
    DispatchedIsCut(Frames(b), stop, TailParsed(Tail(b), None), TailParsed(Tail(b), stop));
  }

  lemma TailIsCut(tail: Bytes, stop: Option<U64>)
    requires !StartsWithFrame(tail)
    ensures CutAtFirstLate(TailParsed(tail, None), stop, TailParsed(tail, stop))
    ensures TailParsed(tail, None).outcome != StopTime
  {
    hide Decode, BigEndian, StartsWithFrame;
  }
}
