/** A binary input stream over bytes in memory, with the end-of-file and failure flags of a file stream, and the
    readers of numbers and whole messages on top of it. */
module ItchStream {
  import opened ItchWire

  datatype Stream = Stream(bytes: Bytes, pos: nat, eof: bool, failed: bool) {
    predicate Good() {
      !eof && !failed
    }

    predicate Valid() {
      pos <= |bytes|
    }

    /** What can still be read. */
    function Rest(): Bytes
      requires Valid()
    {
      if Good() then bytes[pos..] else []
    }
  }

  /** The next n bytes; bytes that are not there read as zero. */
  function Peek(s: Stream, n: nat): (b: Bytes)
    requires s.Valid()
    ensures |b| == n
  {
    var rest := s.Rest();
    seq(n, i requires 0 <= i < n => if i < |rest| then rest[i] else 0)
  }

  /** The stream after reading n bytes. */
  function Skip(s: Stream, n: nat): (t: Stream)
    requires s.Valid()
    ensures t.Valid() && t.bytes == s.bytes
  {
    if n == 0 then s
    else if !s.Good() then s.(failed := true)
    else if s.pos + n <= |s.bytes| then s.(pos := s.pos + n)
    else s.(pos := |s.bytes|, eof := true, failed := true)
  }

  /** The stream after passing over up to n bytes; reaching the end is no failure. */
  function PassOver(s: Stream, n: nat): (t: Stream)
    requires s.Valid()
    ensures t.Valid() && t.bytes == s.bytes
  {
    if !s.Good() then s.(failed := true)
    else if s.pos + n <= |s.bytes| then s.(pos := s.pos + n)
    else s.(pos := |s.bytes|, eof := true)
  }

  /** Reading in pieces reads the same bytes as reading at once. */
  lemma SkipTwice(s: Stream, n: nat, m: nat)
    requires s.Valid()
    ensures Skip(Skip(s, n), m) == Skip(s, n + m)
  {
  }

  /** Standing `off` bytes into a run of n bytes, the next reading is that part of the run. */
  lemma PeekPart(s: Stream, off: nat, width: nat, n: nat)
    requires s.Valid() && off + width <= n
    ensures Peek(Skip(s, off), width) == Peek(s, n)[off..off + width]
  {
  }

  class InputStream {
    const bytes: Bytes
    var pos: nat
    var eof: bool
    var failed: bool

    ghost predicate Valid()
      reads this
    {
      State().Valid()
    }

    ghost function State(): Stream
      reads this
    {
      Stream(bytes, pos, eof, failed)
    }

    constructor (bytes: Bytes)
      ensures Valid() && State() == Stream(bytes, 0, false, false)
    {
      this.bytes := bytes;
      pos, eof, failed := 0, false, false;
    }

    /** Fills a zeroed buffer with the bytes there are. */
    method Read(n: nat) returns (buffer: Bytes)
      requires Valid() && n > 0
      modifies this
      ensures Valid() && buffer == Peek(old(State()), n) && State() == Skip(old(State()), n)
    {
      buffer := seq(n, _ => 0);
      if eof || failed {
        failed := true;
      } else if pos + n <= |bytes| {
        buffer := bytes[pos..pos + n];
        pos := pos + n;
      } else {
        buffer := bytes[pos..] + seq(n - (|bytes| - pos), _ => 0);
        pos, eof, failed := |bytes|, true, true;
      }
    }

    method Ignore(n: nat)
      requires Valid()
      modifies this
      ensures Valid() && State() == PassOver(old(State()), n)
    {
      if eof || failed {
        failed := true;
      } else if pos + n <= |bytes| {
        pos := pos + n;
      } else {
        pos, eof := |bytes|, true;
      }
    }

    method ReadChar() returns (c: byte)
      requires Valid()
      modifies this
      ensures Valid() && c == Peek(old(State()), 1)[0] && State() == Skip(old(State()), 1)
    {
      var buffer := Read(1);
      c := buffer[0];
    }

    method ReadAlphaArray(n: nat) returns (value: Bytes)
      requires Valid() && n > 0
      modifies this
      ensures Valid() && value == Peek(old(State()), n) && State() == Skip(old(State()), n)
    {
      value := Read(n);
    }

    method ReadU16Be() returns (value: U16)
      requires Valid()
      modifies this
      ensures Valid() && value == BigEndian(Peek(old(State()), 2)) && State() == Skip(old(State()), 2)
    {
      var buffer := Read(2);
      TwoBytes(buffer);
      value := (buffer[0] as int) * 0x100 + buffer[1];
    }

    method ReadU32Be() returns (value: U32)
      requires Valid()
      modifies this
      ensures Valid() && value == BigEndian(Peek(old(State()), 4)) && State() == Skip(old(State()), 4)
    {
      var buffer := Read(4);
      BigEndianBound(buffer);
      Powers();
      var total := Accumulate(buffer);
      value := total;
    }

    method ReadU48Be() returns (value: U48)
      requires Valid()
      modifies this
      ensures Valid() && value == BigEndian(Peek(old(State()), 6)) && State() == Skip(old(State()), 6)
    {
      var buffer := Read(6);
      BigEndianBound(buffer);
      Powers();
      var total := Accumulate(buffer);
      value := total;
    }

    method ReadU64Be() returns (value: U64)
      requires Valid()
      modifies this
      ensures Valid() && value == BigEndian(Peek(old(State()), 8)) && State() == Skip(old(State()), 8)
    {
      var buffer := Read(8);
      BigEndianBound(buffer);
      Powers();
      var total := Accumulate(buffer);
      value := total;
    }
  }

  lemma TwoBytes(s: Bytes)
    requires |s| == 2
    ensures BigEndian(s) == (s[0] as int) * 0x100 + s[1] < 0x1_0000
  {
    var high := s[..1];
    assert high == [s[0]] && high[..0] == [];
    assert BigEndian(high) == s[0];
  }

  /** Adds each byte, shifted to its place; places do not overlap, so adding is combining. */
  method Accumulate(buffer: Bytes) returns (value: nat)
    ensures value == BigEndian(buffer)
  {
    value := 0;
    for i := 0 to |buffer|
      invariant value == BigEndian(buffer[..i]) * Pow256(|buffer| - i)
    {
      AddPlace(buffer, i);
      value := value + buffer[i] * Pow256(|buffer| - 1 - i);
    }
    assert buffer[..|buffer|] == buffer;
  }

  lemma AddPlace(s: Bytes, i: nat)
    requires i < |s|
    ensures BigEndian(s[..i + 1]) * Pow256(|s| - i - 1)
         == BigEndian(s[..i]) * Pow256(|s| - i) + s[i] * Pow256(|s| - 1 - i)
  {
    assert s[..i + 1][..i] == s[..i];
    var place := Pow256(|s| - i - 1);
    assert Pow256(|s| - i) == 0x100 * place;
    Distribute(BigEndian(s[..i]), s[i], place);
  }

  lemma Distribute(high: int, low: int, place: int)
    ensures (0x100 * high + low) * place == high * (0x100 * place) + low * place
  {
  }
}
