/** The framing of a stream of messages: what parsing a stream dispatches and how it ends, the wire form of a list of
    frames, and the round trip between the two. */
module ItchFraming {
  import opened Types
  import opened ItchWire
  import opened ItchStream
  import opened ItchRoundTrip

  /** How parsing ends: input used up, a message after the stop time, or a length its type does not have. */
  datatype Outcome = EndOfInput | StopTime | BadLength

  datatype Parsed = Parsed(messages: seq<Message>, outcome: Outcome)

  function Then(m: Message, rest: Parsed): Parsed {
    Parsed([m] + rest.messages, rest.outcome)
  }

  predicate StopsBefore(m: Message, stop: Option<U64>) {
    stop.Some? && m.timestamp > stop.value
  }

  /** The messages parsing a stream dispatches. A message cut short by the end of the stream is dispatched all the same:
      the flags are looked at afterwards. */
  function ParseStream(s: Stream, stop: Option<U64>): Parsed
    requires s.Valid()
    decreases |s.bytes| - s.pos
  {
    var length := BigEndian(Peek(s, 2));
    var afterLength := Skip(s, 2);
    if afterLength.failed || length == 0 then Parsed([], EndOfInput)
    else
      var kind := Peek(afterLength, 1)[0];
      var body := Skip(afterLength, 1);
      if body.failed then Parsed([], EndOfInput)
      else if UnexpectedMessageLength(length, kind) then Parsed([], BadLength)
      else if Supported(kind) then
        var m := Decode(kind, Peek(body, length - 1));
        if StopsBefore(m, stop) then Parsed([], StopTime)
        else Then(m, ParseOn(Skip(body, length - 1), s, stop))
      else ParseOn(PassOver(body, length - 1), s, stop)
  }

  /** Parsing goes on unless the stream has failed. */
  function ParseOn(s: Stream, ghost before: Stream, stop: Option<U64>): Parsed
    requires s.Valid() && before.Valid() && s.bytes == before.bytes && (s.failed || s.pos > before.pos)
    decreases |before.bytes| - before.pos, 0
  {
    if s.failed then Parsed([], EndOfInput) else ParseStream(s, stop)
  }

  // ---------- frames ----------

  datatype Frame = Known(message: Message) | Unknown(kind: byte, payload: Bytes)

  predicate WellFormedFrame(f: Frame) {
    match f
    case Known(m) => WellFormed(m)
    case Unknown(kind, payload) => !Supported(kind) && |payload| < 0xFFFF
  }

  function KindOf(f: Frame): byte {
    match f
    case Known(m) => TypeOf(m)
    case Unknown(kind, _) => kind
  }

  function BodyOf(f: Frame): Bytes {
    match f
    case Known(m) => Payload(m)
    case Unknown(_, payload) => payload
  }

  /** A two-byte length, which counts the type byte and the payload, then those. */
  function Wire(f: Frame): Bytes {
    ToBigEndian(1 + |BodyOf(f)|, 2) + [KindOf(f)] + BodyOf(f)
  }

  function WireAll(fs: seq<Frame>): Bytes {
    if fs == [] then [] else Wire(fs[0]) + WireAll(fs[1..])
  }

  /** What dispatching the frames should be: the known messages in order, up to the first after the stop time. */
  function Dispatched(fs: seq<Frame>, stop: Option<U64>, rest: Parsed): Parsed {
    if fs == [] then rest
    else match fs[0]
      case Unknown(_, _) => Dispatched(fs[1..], stop, rest)
      case Known(m) => if StopsBefore(m, stop) then Parsed([], StopTime) else Then(m, Dispatched(fs[1..], stop, rest))
  }

  // ---------- one frame ----------

  lemma PeekInside(s: Stream, n: nat)
    requires s.Valid() && s.Good() && s.pos + n <= |s.bytes|
    ensures Peek(s, n) == s.bytes[s.pos..s.pos + n]
    ensures Skip(s, n) == s.(pos := s.pos + n) && PassOver(s, n) == s.(pos := s.pos + n)
  {
  }

  /** The pieces of a frame at the head of what is left of a stream. */
  lemma FrameAt(s: Stream, f: Frame, tail: Bytes)
    requires s.Valid() && s.Good() && s.bytes[s.pos..] == Wire(f) + tail && |BodyOf(f)| < 0xFFFF
    ensures var n := |BodyOf(f)|;
            && s.pos + 3 + n <= |s.bytes|
            && BigEndian(s.bytes[s.pos..s.pos + 2]) == 1 + n
            && s.bytes[s.pos + 2] == KindOf(f)
            && s.bytes[s.pos + 3..s.pos + 3 + n] == BodyOf(f)
            && s.bytes[s.pos + 3 + n..] == tail
  {
    hide BodyOf, KindOf, BigEndian, ToBigEndian;
    var n := |BodyOf(f)|;
    var length := ToBigEndian(1 + n, 2);
    Powers();
    BigEndianRoundTrip(1 + n, 2);
    var left := s.bytes[s.pos..];
    assert left == length + [KindOf(f)] + BodyOf(f) + tail;
    assert left[..2] == length && left[2] == KindOf(f) && left[3..3 + n] == BodyOf(f) && left[3 + n..] == tail;
    assert s.bytes[s.pos..s.pos + 2] == left[..2];
    assert s.bytes[s.pos + 3..s.pos + 3 + n] == left[3..3 + n];
    assert s.bytes[s.pos + 3 + n..] == left[3 + n..];
  }

  /** Parsing a stream that starts with a frame dispatches the frame's message and goes on right behind it. */
  lemma FrameParsed(s: Stream, f: Frame, tail: Bytes, stop: Option<U64>)
    requires s.Valid() && s.Good() && s.bytes[s.pos..] == Wire(f) + tail && WellFormedFrame(f)
    ensures s.pos + |Wire(f)| <= |s.bytes|
    ensures var next := s.(pos := s.pos + |Wire(f)|);
            && next.bytes[next.pos..] == tail
            && ParseStream(s, stop) == Dispatched([f], stop, ParseStream(next, stop))
  {
    hide Wire, Peek, Skip, PassOver, BigEndian, Payload, Decode;
    FrameLength(f);
    FrameAt(s, f, tail);
    var n := |BodyOf(f)|;
    PeekInside(s, 2);
    PeekInside(s.(pos := s.pos + 2), 1);
    PeekInside(s.(pos := s.pos + 3), n);
    if f.Known? { DecodeInvertsEncoding(f.message); }
  }

  lemma FrameLength(f: Frame)
    requires WellFormedFrame(f)
    ensures |BodyOf(f)| < 0xFFFF && |Wire(f)| == 3 + |BodyOf(f)|
  {
    hide Payload;
    if f.Known? { DecodeInvertsEncoding(f.message); }
  }

  // ---------- whole streams ----------

  lemma DispatchedOne(f: Frame, fs: seq<Frame>, stop: Option<U64>, rest: Parsed)
    ensures Dispatched([f], stop, Dispatched(fs, stop, rest)) == Dispatched([f] + fs, stop, rest)
  {
    assert ([f] + fs)[1..] == fs;
    assert [f][1..] == [];
  }

  /** Round trip: over the wire form of any well-formed frames, parsing dispatches exactly the known messages in order,
      up to the first after the stop time, passes over unknown ones whole, and is then exactly behind the last frame. */
  lemma {:induction false} ParseInvertsFraming(s: Stream, fs: seq<Frame>, tail: Bytes, stop: Option<U64>)
    requires s.Valid() && s.Good() && s.bytes[s.pos..] == WireAll(fs) + tail
    requires forall i :: 0 <= i < |fs| ==> WellFormedFrame(fs[i])
    ensures s.pos + |WireAll(fs)| <= |s.bytes|
    ensures ParseStream(s, stop) == Dispatched(fs, stop, ParseStream(s.(pos := s.pos + |WireAll(fs)|), stop))
    decreases |fs|
  {
    hide Wire, ParseStream, WellFormedFrame, Dispatched;
    if fs == [] {
      NothingDispatched(stop, ParseStream(s, stop));
    } else {
      var behind := WireAll(fs[1..]) + tail;
      assert WireAll(fs) + tail == Wire(fs[0]) + behind;
      FrameParsed(s, fs[0], behind, stop);
      var next := s.(pos := s.pos + |Wire(fs[0])|);
      ParseInvertsFraming(next, fs[1..], tail, stop);
      var rest := ParseStream(next.(pos := next.pos + |WireAll(fs[1..])|), stop);
      DispatchedOne(fs[0], fs[1..], stop, rest);
      assert [fs[0]] + fs[1..] == fs;
    }
  }

  lemma NothingDispatched(stop: Option<U64>, rest: Parsed)
    ensures Dispatched([], stop, rest) == rest
  {
  }

  function Start(bytes: Bytes): Stream {
    Stream(bytes, 0, false, false)
  }

  /** A whole file of well-formed frames. */
  lemma ParseOfWire(fs: seq<Frame>, stop: Option<U64>)
    requires forall i :: 0 <= i < |fs| ==> WellFormedFrame(fs[i])
    ensures ParseStream(Start(WireAll(fs)), stop) == Dispatched(fs, stop, Parsed([], EndOfInput))
  {
    hide WireAll, WellFormedFrame, Dispatched;
    var s := Start(WireAll(fs));
    assert s.bytes[s.pos..] == WireAll(fs) + [];
    ParseInvertsFraming(s, fs, [], stop);
  }

  /** A zero length ends the input, whatever follows it. */
  lemma ZeroLengthEnds(fs: seq<Frame>, junk: Bytes, stop: Option<U64>)
    requires forall i :: 0 <= i < |fs| ==> WellFormedFrame(fs[i])
    ensures ParseStream(Start(WireAll(fs) + ([0, 0] + junk)), stop) == Dispatched(fs, stop, Parsed([], EndOfInput))
  {
    hide WireAll, WellFormedFrame, Dispatched, BigEndian;
    var tail := [0, 0] + junk;
    var s := Start(WireAll(fs) + tail);
    assert s.bytes[s.pos..] == WireAll(fs) + tail;
    ParseInvertsFraming(s, fs, tail, stop);
    var next := s.(pos := |WireAll(fs)|);
    PeekInside(next, 2);
    var length := Peek(next, 2);
    assert length == [0, 0];
    ZeroLength();
  }

  lemma ZeroLength()
    ensures BigEndian([0, 0]) == 0
  {
    TwoBytes([0, 0]);
  }

  // ---------- what is dispatched ----------

  /** The known messages among the frames. */
  function Messages(fs: seq<Frame>): seq<Message> {
    if fs == [] then []
    else (if fs[0].Known? then [fs[0].message] else []) + Messages(fs[1..])
  }

  /** Dispatching stops at the first message whose timestamp is after the stop time, and at no other; a message at the
      stop time is dispatched, and without a stop time all are. */
  lemma {:induction false} DispatchesUpToStop(fs: seq<Frame>, stop: Option<U64>)
    ensures var p := Dispatched(fs, stop, Parsed([], EndOfInput));
            var n := |p.messages|;
            && p.messages <= Messages(fs)
            && (forall i :: 0 <= i < n ==> stop.Some? ==> p.messages[i].timestamp <= stop.value)
            && (p.outcome == EndOfInput ==> p.messages == Messages(fs))
            && (p.outcome != EndOfInput ==>
                  && p.outcome == StopTime && stop.Some?
                  && n < |Messages(fs)| && Messages(fs)[n].timestamp > stop.value)
  {
    if fs != [] { DispatchesUpToStop(fs[1..], stop); }
  }

  /** `p` is `whole`, which knows no stop time, cut before the first message whose timestamp is after the stop time, and
      all of it when there is none. */
  ghost predicate CutAtFirstLate(whole: Parsed, stop: Option<U64>, p: Parsed) {
    var n := |p.messages|;
    && p.messages <= whole.messages
    && (stop.Some? ==> forall i :: 0 <= i < n ==> p.messages[i].timestamp <= stop.value)
    && (p.outcome != StopTime ==> p == whole)
    && (p.outcome == StopTime ==> stop.Some? && n < |whole.messages| && whole.messages[n].timestamp > stop.value)
  }

  lemma CutThen(m: Message, whole: Parsed, stop: Option<U64>, p: Parsed)
    requires CutAtFirstLate(whole, stop, p) && (stop.Some? ==> m.timestamp <= stop.value)
    ensures CutAtFirstLate(Then(m, whole), stop, Then(m, p))
  {
    var n := |p.messages|;
    if p.outcome == StopTime { assert Then(m, whole).messages[n + 1] == whole.messages[n]; }
  }

  /** Dispatching cuts there, whatever is dispatched behind the frames is cut there, too. */
  lemma {:induction false} DispatchedIsCut(fs: seq<Frame>, stop: Option<U64>, whole: Parsed, rest: Parsed)
    requires CutAtFirstLate(whole, stop, rest)
    ensures CutAtFirstLate(Dispatched(fs, None, whole), stop, Dispatched(fs, stop, rest))
    ensures Dispatched(fs, None, whole) == Parsed(Messages(fs) + whole.messages, whole.outcome)
  {
    hide CutAtFirstLate;
    if fs == [] {
      assert Messages(fs) + whole.messages == whole.messages;
    } else {
      DispatchedIsCut(fs[1..], stop, whole, rest);
      match fs[0]
      case Unknown(_, _) => assert [] + Messages(fs[1..]) == Messages(fs[1..]);
      case Known(m) =>
        assert Messages(fs) + whole.messages == [m] + (Messages(fs[1..]) + whole.messages);
        if StopsBefore(m, stop) {
          CutAtOnce(m, Dispatched(fs[1..], None, whole), stop);
        } else {
          CutThen(m, Dispatched(fs[1..], None, whole), stop, Dispatched(fs[1..], stop, rest));
        }
    }
  }

  lemma CutAtOnce(m: Message, whole: Parsed, stop: Option<U64>)
    requires stop.Some? && m.timestamp > stop.value
    ensures CutAtFirstLate(Then(m, whole), stop, Parsed([], StopTime))
  {
  }
}
