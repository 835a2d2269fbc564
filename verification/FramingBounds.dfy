/** The broker's reader on bytes of any kind: when its counters stay within its buffer. */
module FramingBounds {
  import opened MessageHeader
  import opened Framing

  // ------------------------------------------------------------- what has to fit

  /** The preamble is complete and has the right marker and version. */
  predicate PreambleTaken(c: Client)
    requires |c.buffer| >= MAX_HEADER
  {
    && c.state == ReadPreamble && c.bytesRead == c.bytesToRead
    && Host16(c.buffer) == MARKER && Host16(c.buffer[2..]) == VERSION
  }

  /** The header is complete and can be decoded. */
  predicate HeaderTaken(c: Client)
    requires |c.buffer| >= MAX_HEADER
  {
    c.state == ReadHeader && c.bytesRead == c.bytesToRead && Decoded(c.header, c.buffer).1
  }

  /** What the code takes on trust: a header length of at least the preamble's own and at most
      the buffer's, and a payload length that leaves the buffer's new size an int. */
  predicate LengthsFit(c: Client)
    requires |c.buffer| >= MAX_HEADER
  {
    && (PreambleTaken(c) ==> PREAMBLE_LENGTH <= Host16(c.buffer[4..]) <= |c.buffer|)
    && (HeaderTaken(c) ==> 2 * c.bytesToRead + Decoded(c.header, c.buffer).0.payloadLength <= INT_MAX)
  }

  // ------------------------------------------------------------------ one recv

  /** The fields agree with each other, whatever the bytes are. */
  ghost predicate Sound(c: Client) {
    && InBounds(c) && READ_BUFFER_SIZE <= |c.buffer|
    && match c.state
       case ReadPreamble => c.bytesToRead == PREAMBLE_LENGTH
       case ReadHeader => PREAMBLE_LENGTH <= c.bytesRead && c.bytesToRead == Host16(c.buffer[4..])
       case ReadPayload => c.header.headerLength + c.header.payloadLength == c.bytesToRead
  }

  lemma SoundReads(c: Client)
    requires Sound(c)
    ensures |c.buffer| >= MAX_HEADER && (c.state == ReadPayload ==> PayloadInBuffer(c))
  {}

  lemma ReceivedSound(c: Client, chunk: Bytes)
    requires Sound(c) && |chunk| <= Wanted(c)
    ensures Sound(Received(c, chunk))
  {
    var c1 := Received(c, chunk);
    if c.state == ReadHeader {
      assert c1.buffer[4] == c.buffer[4] && c1.buffer[5] == c.buffer[5];
    }
  }

  lemma PreambleBounds(c: Client)
    requires Sound(c) && c.state == ReadPreamble && c.bytesRead == c.bytesToRead
    ensures InBounds(PreambleDone(c)) <==> LengthsFit(c)
    ensures LengthsFit(c) ==> Sound(PreambleDone(c))
  {}

  /** The header struct takes its length from the same two bytes as the preamble. */
  lemma DecodedLength(h: Header, s: Bytes)
    requires |s| >= MAX_HEADER
    ensures Decoded(h, s).1 ==> Decoded(h, s).0.headerLength == Host16(s[4..])
  {
    if Host16(s) == MARKER {
      assert s[2..][2..] == s[4..];
    }
  }

  /** After a header that could be decoded. */
  lemma GrownBounds(c: Client, memory: Memory)
    requires InBounds(c) && READ_BUFFER_SIZE <= |c.buffer| && c.bytesRead == c.bytesToRead
    requires c.header.headerLength == c.bytesToRead
    ensures InBounds(HeaderRead(c, true, memory)) <==> 2 * c.bytesToRead + c.header.payloadLength <= INT_MAX
    ensures InBounds(HeaderRead(c, true, memory)) ==> Sound(HeaderRead(c, true, memory))
  {}

  lemma HeaderBounds(c: Client, memory: Memory)
    requires Sound(c) && c.state == ReadHeader && c.bytesRead == c.bytesToRead
    ensures InBounds(HeaderDone(c, memory)) <==> LengthsFit(c)
    ensures LengthsFit(c) ==> Sound(HeaderDone(c, memory))
  {
    DecodedLength(c.header, c.buffer);
    var (h, ok) := Decoded(c.header, c.buffer);
    if ok { GrownBounds(c.(header := h), memory); }
  }

  /** The counters stay in bounds over one recv exactly when the lengths it completes fit. */
  lemma AdvanceBoundsIff(c: Client, memory: Memory)
    requires Sound(c)
    ensures |c.buffer| >= MAX_HEADER && (c.state == ReadPayload ==> PayloadInBuffer(c))
    ensures InBounds(Advance(c, memory).client) <==> LengthsFit(c)
    ensures LengthsFit(c) ==> Sound(Advance(c, memory).client)
  {
    SoundReads(c);
    if c.bytesRead == c.bytesToRead {
      match c.state
      case ReadPreamble => PreambleBounds(c);
      case ReadHeader => HeaderBounds(c, memory);
      case ReadPayload =>
    }
  }

  // -------------------------------------------------------------------- streams

  /** Every length the reader comes upon in these bytes fits. */
  ghost predicate AllFit(c: Client, input: Bytes, memory: Memory)
    requires Sound(c)
    decreases |input|
  {
    Wanted(c) == 0 || input == [] ||
    var n := Most(c, input);
    ReceivedSound(c, input[..n]);
    var c1 := Received(c, input[..n]);
    AdvanceBoundsIff(c1, memory);
    LengthsFit(c1) && AllFit(Advance(c1, memory).client, input[n..], memory)
  }

  lemma {:induction false} WholeBoundedIff(c: Client, input: Bytes, memory: Memory)
    requires Sound(c)
    ensures FeedWhole(c, input, memory).bounded <==> AllFit(c, input, memory)
    decreases |input|
  {
    SoundReads(c);
    if Wanted(c) == 0 || input == [] {
    } else {
      var n := Most(c, input);
      var c1 := Received(c, input[..n]);
      ReceivedSound(c, input[..n]);
      AdvanceBoundsIff(c1, memory);
      var s, rest := WholeStep(c, input, input[..n], input[n..], memory);
      if LengthsFit(c1) { WholeBoundedIff(s.client, input[n..], memory); }
    }
  }

  lemma FirstReadIn(c: Client, input: Bytes, sizes: seq<nat>, memory: Memory)
    requires Reads(c) && input != [] && sizes != [] && Feed(c, input, sizes, memory).bounded
    ensures StepsTo(c, input[..Piece(c, input, sizes[0])], memory,
                    Advance(Received(c, input[..Piece(c, input, sizes[0])]), memory))
  {}

  lemma NoSizes(c: Client, input: Bytes, sizes: seq<nat>, memory: Memory)
    requires sizes == [] || !Reads(c) || input == []
    ensures Feed(c, input, sizes, memory).bounded <==> Feed(c, input, [], memory).bounded
  {}

  lemma OnlyReadersBounded(c: Client, input: Bytes, sizes: seq<nat>, memory: Memory)
    requires Feed(c, input, sizes, memory).bounded
    ensures Feed(c, input, [], memory).bounded
  {}

  /** Reading on can only leave the bounds. */
  lemma {:induction false} FewerReadsBounded(c: Client, input: Bytes, sizes: seq<nat>, more: seq<nat>, memory: Memory)
    requires Feed(c, input, sizes + more, memory).bounded
    ensures Feed(c, input, sizes, memory).bounded
    decreases |sizes|
  {
    if sizes == [] || !Reads(c) || input == [] {
      OnlyReadersBounded(c, input, sizes + more, memory);
      NoSizes(c, input, sizes, memory);
    } else {
      assert (sizes + more)[1..] == sizes[1..] + more && (sizes + more)[0] == sizes[0];
      var n := Piece(c, input, sizes[0]);
      var s := Advance(Received(c, input[..n]), memory);
      FirstReadIn(c, input, sizes + more, memory);
      FeedStep(c, input, sizes + more, memory, s);
      FeedStep(c, input, sizes, memory, s);
      FewerReadsBounded(s.client, input[n..], sizes[1..], more, memory);
    }
  }

  lemma StartSound(memory: Memory)
    ensures Sound(Start(memory))
  {}

  /** For every stream of bytes, however recv cuts it: the counters stay in bounds throughout
      exactly when every length in it that the reader comes upon fits; and then they do while
      it is only partly read. */
  lemma AnyStreamBoundedIff(input: Bytes, sizes: seq<nat>, memory: Memory)
    ensures Sound(Start(memory))
    ensures |sizes| >= |input| ==>
              (Feed(Start(memory), input, sizes, memory).bounded <==> AllFit(Start(memory), input, memory))
    ensures AllFit(Start(memory), input, memory) ==> Feed(Start(memory), input, sizes, memory).bounded
  {
    var c, more := Start(memory), seq(|input|, i => 0);
    StartSound(memory);
    WholeBoundedIff(c, input, memory);
    if |sizes| >= |input| { AnyCutIsWhole(c, input, sizes, memory); }
    AnyCutIsWhole(c, input, sizes + more, memory);
    if AllFit(c, input, memory) { FewerReadsBounded(c, input, sizes, more, memory); }
  }

  /** Six bytes are enough to break them: the right marker and version, and a header length
      under six. */
  lemma ShortHeaderBreaks(length: UInt16, memory: Memory)
    requires length < PREAMBLE_LENGTH
    ensures var input := Net16(MARKER) + Net16(VERSION) + Net16(length);
            !Feed(Start(memory), input, [PREAMBLE_LENGTH], memory).bounded
  {
    var input := Net16(MARKER) + Net16(VERSION) + Net16(length);
    var c := Received(Start(memory), input);
    StartSound(memory);
    ReceivedSound(Start(memory), input);
    assert input[..6] == input;
    assert c.buffer[..6] == input;
    PreambleBytes(c.buffer, length);
    AdvanceBoundsIff(c, memory);
    FeedStep(Start(memory), input, [PREAMBLE_LENGTH], memory, Advance(c, memory));
  }

  lemma PreambleBytes(buffer: Bytes, length: UInt16)
    requires |buffer| >= 6 && buffer[..6] == Net16(MARKER) + Net16(VERSION) + Net16(length)
    ensures Host16(buffer) == MARKER && Host16(buffer[2..]) == VERSION && Host16(buffer[4..]) == length
  {
    var s := buffer[..6];
    assert forall i :: 0 <= i < 6 ==> buffer[i] == s[i];
    assert s[0] == Net16(MARKER)[0] && s[1] == Net16(MARKER)[1];
    assert s[2] == Net16(VERSION)[0] && s[3] == Net16(VERSION)[1];
    assert s[4] == Net16(length)[0] && s[5] == Net16(length)[1];
  }

  // --------------------------------------------------------------- encoded headers

  lemma WireStarts(h: Header)
    requires Terminated(h)
    ensures Wire(h)[..6] == Net16(MARKER) + Net16(VERSION) + Net16(WireLength(h))
  {
    WireNested(h, []);
    assert Wire(h) + [] == Wire(h);
  }

  /** The reader once it has taken in the first six bytes of an encoded header. */
  lemma PreambleIn(h: Header, memory: Memory) returns (c: Client)
    requires Terminated(h)
    ensures var c0 := Received(Start(memory), Wire(h)[..6]);
            && |c0.buffer| >= MAX_HEADER && LengthsFit(c0) && c0.state == ReadPreamble
            && Advance(c0, memory) == Step(c, [])
    ensures Sound(c) && c.state == ReadHeader && c.bytesRead == 6 && c.bytesToRead == WireLength(h)
    ensures c.buffer[..6] == Wire(h)[..6] && c.header == INIT
  {
    var c0 := Received(Start(memory), Wire(h)[..6]);
    StartSound(memory);
    ReceivedSound(Start(memory), Wire(h)[..6]);
    assert c0.buffer[..6] == Wire(h)[..6];
    WireStarts(h);
    PreambleBytes(c0.buffer, WireLength(h));
    PreambleBounds(c0);
    c := PreambleDone(c0);
  }

  lemma HeaderIn(h: Header, c: Client)
    requires Terminated(h) && Sound(c) && c.state == ReadHeader
    requires c.bytesRead == 6 && c.bytesToRead == WireLength(h)
    requires c.buffer[..6] == Wire(h)[..6] && c.header == INIT
    ensures var c1 := Received(c, Wire(h)[6..]);
            |c1.buffer| >= MAX_HEADER && (LengthsFit(c1) <==> 2 * WireLength(h) + h.payloadLength <= INT_MAX)
  {
    var c1, w := Received(c, Wire(h)[6..]), Wire(h);
    assert w == w[..6] + w[6..];
    assert c1.buffer == w + c.buffer[|w|..];
    DecodeWire(INIT, h, c.buffer[|w|..]);
  }

  lemma FitsLast(c: Client, input: Bytes, memory: Memory)
    requires Sound(c) && 0 < |input| == Wanted(c)
    ensures |Received(c, input).buffer| >= MAX_HEADER
    ensures AllFit(c, input, memory) <==> LengthsFit(Received(c, input))
  {
    assert Most(c, input) == |input| && input[..|input|] == input && input[|input|..] == [];
    ReceivedSound(c, input);
    AdvanceBoundsIff(Received(c, input), memory);
  }

  lemma FitsFirst(c: Client, input: Bytes, n: nat, memory: Memory, next: Client)
    requires Sound(c) && 0 < n == Wanted(c) < |input| && |Received(c, input[..n]).buffer| >= MAX_HEADER
    requires Received(c, input[..n]).state == ReadPreamble && Advance(Received(c, input[..n]), memory).client == next
    requires LengthsFit(Received(c, input[..n])) && Sound(next)
    ensures AllFit(c, input, memory) <==> AllFit(next, input[n..], memory)
  {
    assert Most(c, input) == n;
  }

  /** For an encoded header the size is the only thing the code takes on trust: however it is
      cut, reading it stays in bounds exactly when twice the header and the payload it
      announces fit an int. */
  lemma HeaderBoundedIff(h: Header, sizes: seq<nat>, memory: Memory)
    requires Terminated(h) && |sizes| >= WireLength(h)
    ensures Feed(Start(memory), Wire(h), sizes, memory).bounded <==> 2 * WireLength(h) + h.payloadLength <= INT_MAX
  {
    var c := PreambleIn(h, memory);
    AnyStreamBoundedIff(Wire(h), sizes, memory);
    FitsFirst(Start(memory), Wire(h), 6, memory, c);
    FitsLast(c, Wire(h)[6..], memory);
    HeaderIn(h, c);
  }
}
