/** The parser: the loop over the frames of a stream, driving the replay engine. */
module ItchParser {
  import opened Types
  import opened ItchWire
  import opened ItchStream
  import opened ItchFraming
  import opened ItchDecoders
  import opened ItchAnyInput
  import opened ItchReplayEngine

  lemma Moves(s: Stream, n: nat)
    requires s.Valid()
    ensures Skip(s, n).pos >= s.pos && PassOver(s, n).pos >= s.pos
    ensures n > 0 && !Skip(s, n).failed ==> Skip(s, n).pos == s.pos + n
  {
  }

  /** One turn of the loop, seen from the head of a frame. */
  lemma FrameHead(s: Stream, stop: Option<U64>, length: nat, kind: byte, body: Stream)
    requires s.Valid() && length == BigEndian(Peek(s, 2))
    requires kind == Peek(Skip(s, 2), 1)[0] && body == Skip(Skip(s, 2), 1)
    ensures Skip(s, 2).failed || length == 0 ==> ParseStream(s, stop) == Parsed([], EndOfInput)
    ensures !Skip(s, 2).failed && length != 0 ==>
              && (body.failed ==> ParseStream(s, stop) == Parsed([], EndOfInput))
              && (!body.failed ==> body.pos > s.pos)
              && (!body.failed && UnexpectedMessageLength(length, kind)
                  ==> ParseStream(s, stop) == Parsed([], BadLength))
  {
    hide BigEndian, UnexpectedMessageLength;
  }

  /** The rest of that turn, for a type that is decoded and one that is passed over. */
  lemma FrameBody(s: Stream, stop: Option<U64>, length: nat, kind: byte, body: Stream)
    requires s.Valid() && length == BigEndian(Peek(s, 2))
    requires kind == Peek(Skip(s, 2), 1)[0] && body == Skip(Skip(s, 2), 1)
    requires !Skip(s, 2).failed && length != 0 && !body.failed && !UnexpectedMessageLength(length, kind)
    ensures Skip(body, length - 1).pos > s.pos && PassOver(body, length - 1).pos > s.pos
    ensures !Supported(kind) ==> ParseStream(s, stop) == ParseOn(PassOver(body, length - 1), s, stop)
    ensures Supported(kind) ==>
              && length == ExpectedLength(kind)
              && var m := Decode(kind, Peek(body, length - 1));
                 ParseStream(s, stop) == if StopsBefore(m, stop) then Parsed([], StopTime)
                     else Then(m, ParseOn(Skip(body, length - 1), s, stop))
  {
    hide BigEndian, Decode, Supported, Peek, Skip, PassOver;
    Moves(s, 2);
    Moves(Skip(s, 2), 1);
    Moves(body, length - 1);
  }

  lemma Dispatching(e: EngineState, m: Message, rest: Parsed)
    ensures AfterMessages(e, Then(m, rest).messages) == AfterMessages(AfterMessage(e, m), rest.messages)
    ensures MessagesFit(e, Then(m, rest).messages)
         <==> MessageFits(e, m) && MessagesFit(AfterMessage(e, m), rest.messages)
  {
    assert Then(m, rest).messages[1..] == rest.messages;
  }

  lemma NoMessages(e: EngineState)
    ensures AfterMessages(e, []) == e
  {
  }

  class ItchParser {
    const file: InputStream

    constructor (bytes: Bytes)
      ensures file.Valid() && file.State() == Start(bytes) && fresh(file)
    {
      file := new InputStream(bytes);
    }

    /** The message whose type and length are already known. */
    method DecodeBody(messageType: byte) returns (message: Message)
      requires file.Valid() && Supported(messageType)
      modifies file
      ensures file.Valid() && file.State() == Skip(old(file.State()), ExpectedLength(messageType) - 1)
      ensures message == Decode(messageType, Peek(old(file.State()), ExpectedLength(messageType) - 1))
    {
      hide Peek, Skip, Decode, InputStream.Valid, InputStream.State;
      if messageType == Ascii('S') {
        message := DecodeSTypeMessage(file);
      } else if messageType == Ascii('R') {
        message := DecodeRTypeMessage(file);
      } else if messageType == Ascii('A') {
        message := DecodeATypeMessage(file);
      } else if messageType == Ascii('F') {
        message := DecodeFTypeMessage(file);
      } else if messageType == Ascii('E') {
        message := DecodeETypeMessage(file);
      } else if messageType == Ascii('C') {
        message := DecodeCTypeMessage(file);
      } else if messageType == Ascii('X') {
        message := DecodeXTypeMessage(file);
      } else if messageType == Ascii('D') {
        message := DecodeDTypeMessage(file);
      } else {
        message := DecodeUTypeMessage(file);
      }
    }

    /** Decodes the body of a message and, unless it is after the stop time, hands the message to the engine. */
    method Dispatch(replayEngine: ItchReplayEngine, messageType: byte, stopTimestamp: Option<U64>)
      returns (stopped: bool)
      requires file.Valid() && replayEngine.Valid() && Supported(messageType)
      requires var m := Decode(messageType, Peek(file.State(), ExpectedLength(messageType) - 1));
               !StopsBefore(m, stopTimestamp) ==> MessageFits(replayEngine.Abs(), m)
      modifies file, replayEngine, replayEngine.ob, replayEngine.ob.pool, replayEngine.ob.bids, replayEngine.ob.asks,
               replayEngine.ob.bids.levels, replayEngine.ob.asks.levels
      ensures file.Valid() && file.State() == Skip(old(file.State()), ExpectedLength(messageType) - 1)
      ensures replayEngine.Valid()
      ensures var m := Decode(messageType, Peek(old(file.State()), ExpectedLength(messageType) - 1));
              && stopped == StopsBefore(m, stopTimestamp)
              && var e := old(replayEngine.Abs());
              && replayEngine.Abs() == if stopped then e else AfterMessage(e, m)
    {
      hide Peek, Skip, Decode, AfterMessage, MessageFits, Supported, ItchReplayEngine.Valid, ItchReplayEngine.Abs;
      hide ItchWire.WellFormed, Payload;
      EncodingInvertsDecoding(messageType, Peek(file.State(), ExpectedLength(messageType) - 1));
      var message := DecodeBody(messageType);
      if stopTimestamp.Some? && message.timestamp > stopTimestamp.value {
        return true;
      }
      replayEngine.OnMessage(message);
      return false;
    }

    /** Parses until the input ends, a message is after the stop time, or a length is wrong, for which the outcome
        BadLength stands in place of an exception. The engine has then seen exactly the messages dispatched. */
    method Parse(replayEngine: ItchReplayEngine, stopTimestamp: Option<U64>) returns (outcome: Outcome)
      requires file.Valid() && replayEngine.Valid()
      requires MessagesFit(replayEngine.Abs(), ParseStream(file.State(), stopTimestamp).messages)
      modifies file, replayEngine, replayEngine.ob, replayEngine.ob.pool, replayEngine.ob.bids, replayEngine.ob.asks,
               replayEngine.ob.bids.levels, replayEngine.ob.asks.levels
      ensures file.Valid() && replayEngine.Valid()
      ensures var parsed := ParseStream(old(file.State()), stopTimestamp);
              outcome == parsed.outcome && replayEngine.Abs() == AfterMessages(old(replayEngine.Abs()), parsed.messages)
    {
      hide Peek, Skip, PassOver, BigEndian, Decode, AfterMessage, MessageFits, AfterMessages, MessagesFit, ParseStream;
      hide ItchReplayEngine.Valid, ItchReplayEngine.Abs, UnexpectedMessageLength, Supported, StopsBefore;
      ghost var left := ParseStream(file.State(), stopTimestamp);
      ghost var finish, end := AfterMessages(replayEngine.Abs(), left.messages), left.outcome;
      while true
        invariant file.Valid() && replayEngine.Valid()
        invariant left == ParseStream(file.State(), stopTimestamp) && left.outcome == end
        invariant AfterMessages(replayEngine.Abs(), left.messages) == finish
        invariant MessagesFit(replayEngine.Abs(), left.messages)
        decreases |file.bytes| - file.pos
      {
        ghost var here, e := file.State(), replayEngine.Abs();
        NoMessages(e);
        FrameHead(here, stopTimestamp, BigEndian(Peek(here, 2)), Peek(Skip(here, 2), 1)[0], Skip(Skip(here, 2), 1));
        var messageLength := file.ReadU16Be();
        if file.failed || messageLength == 0 {
          return EndOfInput;
        }
        var messageType := file.ReadChar();
        if file.failed {
          return EndOfInput;
        }
        if UnexpectedMessageLength(messageLength, messageType) {
          return BadLength;
        }
        ghost var body := file.State();
        FrameBody(here, stopTimestamp, messageLength, messageType, body);
        if Supported(messageType) {
          left := ParseOn(Skip(body, messageLength - 1), here, stopTimestamp);
          Dispatching(e, Decode(messageType, Peek(body, messageLength - 1)), left);
          var stopped := Dispatch(replayEngine, messageType, stopTimestamp);
          if stopped {
            return StopTime;
          }
        } else {
          file.Ignore(messageLength - 1);
          left := ParseOn(file.State(), here, stopTimestamp);
        }
        if file.failed {
          NoMessages(replayEngine.Abs());
          return EndOfInput;
        }
      }
    }
  }
}
