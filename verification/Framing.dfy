/** rtConnectedClient_Read: the broker's incremental reader, fed whatever pieces recv
    happens to return. */
module Framing {
  import opened MessageHeader

  const PREAMBLE_LENGTH := 6
  const READ_BUFFER_SIZE := 8192
  /** The counters and the capacity are C ints. */
  const INT_MAX := 0x7FFF_FFFF

  datatype ReadState = ReadPreamble | ReadHeader | ReadPayload

  /** The reading half of rtConnectedClient; `buffer` is as long as its capacity. */
  datatype Client = Client(state: ReadState, bytesRead: nat, bytesToRead: int, buffer: Bytes, header: Header)

  /** What is handed to rtRouter_DispatchMessageFromClient. */
  datatype Message = Message(header: Header, payload: Bytes)

  datatype Step = Step(client: Client, dispatched: seq<Message>)

  /** The contents of memory that has just been allocated. */
  type Memory = nat -> Byte

  function Allocated(n: nat, memory: Memory): (r: Bytes)
    ensures |r| == n
  {
    seq(n, i requires 0 <= i < n => memory(i))
  }

  /** rtConnectedClient_Init. */
  function Start(memory: Memory): Client {
    Client(ReadPreamble, 0, PREAMBLE_LENGTH, Allocated(READ_BUFFER_SIZE, memory), INIT)
  }

  function Restarted(c: Client): Client {
    c.(state := ReadPreamble, bytesRead := 0, bytesToRead := PREAMBLE_LENGTH, header := INIT)
  }

  /** How much the next recv asks for. */
  function Wanted(c: Client): int { c.bytesToRead - c.bytesRead }

  function Received(c: Client, chunk: Bytes): Client
    requires c.bytesRead + |chunk| <= |c.buffer|
  {
    c.(bytesRead := c.bytesRead + |chunk|,
       buffer := c.buffer[..c.bytesRead] + chunk + c.buffer[c.bytesRead + |chunk|..])
  }

  function PreambleDone(c: Client): Client
    requires |c.buffer| >= MAX_HEADER
  {
    if Host16(c.buffer) != MARKER || Host16(c.buffer[2..]) != VERSION then Restarted(c)
    else c.(bytesToRead := c.bytesToRead + Host16(c.buffer[4..]) - PREAMBLE_LENGTH, state := ReadHeader)
  }

  /** The struct has been decoded, with or without success. */
  function HeaderRead(c: Client, ok: bool, memory: Memory): Client {
    if !ok then Restarted(c)
    else
      var toRead := c.bytesToRead + c.header.payloadLength;
      var incoming := toRead + c.bytesRead;
      c.(bytesToRead := toRead, state := ReadPayload,
         buffer := if |c.buffer| < incoming then c.buffer + Allocated(incoming - |c.buffer|, memory) else c.buffer)
  }

  function HeaderDone(c: Client, memory: Memory): Client
    requires |c.buffer| >= MAX_HEADER
  {
    var (h, ok) := Decoded(c.header, c.buffer);
    HeaderRead(c.(header := h), ok, memory)
  }

  function PayloadDone(c: Client, memory: Memory): Client {
    Restarted(c).(buffer := if |c.buffer| != READ_BUFFER_SIZE then Allocated(READ_BUFFER_SIZE, memory) else c.buffer)
  }

  /** The payload the handlers see. */
  predicate PayloadInBuffer(c: Client) { c.header.headerLength + c.header.payloadLength <= |c.buffer| }

  function Current(c: Client): Message
    requires PayloadInBuffer(c)
  {
    Message(c.header, c.buffer[c.header.headerLength..c.header.headerLength + c.header.payloadLength])
  }

  /** The switch after a successful recv. */
  function Advance(c: Client, memory: Memory): Step
    requires |c.buffer| >= MAX_HEADER
    requires c.state == ReadPayload ==> PayloadInBuffer(c)
  {
    if c.bytesRead != c.bytesToRead then Step(c, [])
    else match c.state
      case ReadPreamble => Step(PreambleDone(c), [])
      case ReadHeader => Step(HeaderDone(c, memory), [])
      case ReadPayload => Step(PayloadDone(c, memory), [Current(c)])
  }

  // ------------------------------------------------------------------- frames

  datatype AnyFrame = Frame(header: Header, payload: Bytes)

  /** A frame as senders make it: header made by Encode, length field right, and a size that
      the reader's int can hold when the buffer grows for it. */
  predicate WellFormed(f: AnyFrame) {
    && Terminated(f.header) && f.header.payloadLength == |f.payload|
    && 2 * WireLength(f.header) + |f.payload| <= INT_MAX
  }

  lemma EmptyFrameWellFormed()
    ensures WellFormed(Frame(INIT, []))
  {
    InitTerminated();
  }

  type Frame = f: AnyFrame | WellFormed(f) witness (EmptyFrameWellFormed(); Frame(INIT, []))

  function Raw(f: Frame): (r: Bytes)
    ensures |r| == WireLength(f.header) + |f.payload|
  {
    Wire(f.header) + f.payload
  }

  /** The struct after decoding the frame's header. */
  function HeaderAtBroker(f: Frame): Header
  {
    var h := f.header;
    Header(VERSION, WireLength(h), h.sequenceNumber, h.flags, h.controlData, h.payloadLength,
           |CStr(h.topic)|, Overwrite(ZEROS, CStr(h.topic), |CStr(h.topic)|),
           |CStr(h.replyTopic)|, Overwrite(ZEROS, CStr(h.replyTopic), |CStr(h.replyTopic)|))
  }

  function MessageOf(f: Frame): Message { Message(HeaderAtBroker(f), f.payload) }

  /** The reader's fields `o` bytes into frame `f`. */
  function Position(f: Frame, o: nat, buffer: Bytes): Client {
    var n := WireLength(f.header);
    if o < PREAMBLE_LENGTH then Client(ReadPreamble, o, PREAMBLE_LENGTH, buffer, INIT)
    else if o < n then Client(ReadHeader, o, n, buffer, INIT)
    else Client(ReadPayload, o, |Raw(f)|, buffer, HeaderAtBroker(f))
  }

  /** The buffer starts with those `o` bytes and has room for what it will have to hold. */
  predicate Holds(buffer: Bytes, f: Frame, o: nat) {
    && READ_BUFFER_SIZE <= |buffer| <= INT_MAX && o <= |buffer| && o <= |Raw(f)| && buffer[..o] == Raw(f)[..o]
    && (o >= WireLength(f.header) ==> WireLength(f.header) + |Raw(f)| <= |buffer|)
  }

  /** The reader is `o` bytes into frame `f`. */
  predicate Into(c: Client, f: Frame, o: nat) {
    c == Position(f, o, c.buffer) && Holds(c.buffer, f, o)
  }

  /** All readers that are `o` bytes into frame `f`. */
  ghost function Readers(f: Frame, o: nat): iset<Client> { iset c | Into(c, f, o) }

  /** bytes_read <= bytes_to_read <= read_buffer_capacity, and none of them overflows. */
  predicate InBounds(c: Client) { 0 <= c.bytesRead <= c.bytesToRead <= |c.buffer| <= INT_MAX }

  lemma IntoInBounds(c: Client, f: Frame, o: nat)
    requires Into(c, f, o)
    ensures InBounds(c) && |c.buffer| >= MAX_HEADER
    ensures Wanted(c) == 0 <==> o == |Raw(f)|
    ensures o == |Raw(f)| ==> c.state == ReadPayload
  {}

  lemma PreambleWire(f: Frame, buffer: Bytes)
    requires |buffer| >= PREAMBLE_LENGTH && buffer[..PREAMBLE_LENGTH] == Raw(f)[..PREAMBLE_LENGTH]
    ensures Host16(buffer) == MARKER && Host16(buffer[2..]) == VERSION
    ensures Host16(buffer[4..]) == WireLength(f.header)
  {
    var raw := Raw(f);
    WireNested(f.header, f.payload);
    assert raw[0] == Net16(MARKER)[0] && raw[1] == Net16(MARKER)[1];
    assert raw[2] == Net16(VERSION)[0] && raw[3] == Net16(VERSION)[1];
    var n := Net16(WireLength(f.header));
    assert raw[4] == n[0] && raw[5] == n[1];
    assert forall i :: 0 <= i < 6 ==> buffer[i] == buffer[..PREAMBLE_LENGTH][i] == raw[i];
  }

  lemma HeaderWire(f: Frame, buffer: Bytes)
    requires |buffer| >= MAX_HEADER
    requires buffer[..WireLength(f.header)] == Raw(f)[..WireLength(f.header)]
    ensures Decoded(INIT, buffer) == (HeaderAtBroker(f), true)
  {
    var n := WireLength(f.header);
    assert Raw(f)[..n] == Wire(f.header);
    assert buffer == Wire(f.header) + buffer[n..];
    DecodeWire(INIT, f.header, buffer[n..]);
  }

  /** The right piece has come in; the switch has not run yet. */
  predicate Arrived(c: Client, f: Frame, o: nat)
  {
    && c.bytesRead == o <= c.bytesToRead && o <= |Raw(f)|
    && READ_BUFFER_SIZE <= |c.buffer| <= INT_MAX && o <= |c.buffer| && c.buffer[..o] == Raw(f)[..o]
  }

  lemma Arrives(c: Client, f: Frame, o: nat, chunk: Bytes)
    requires Into(c, f, o)
    requires 1 <= |chunk| <= Wanted(c) && chunk == Raw(f)[o..o + |chunk|]
    ensures Arrived(Received(c, chunk), f, o + |chunk|)
  {
    assert Raw(f)[..o + |chunk|] == Raw(f)[..o] + Raw(f)[o..o + |chunk|];
  }

  lemma AtPreambleEnd(c: Client, f: Frame, memory: Memory)
    requires Arrived(c, f, PREAMBLE_LENGTH)
    requires c.state == ReadPreamble && c.bytesToRead == PREAMBLE_LENGTH && c.header == INIT
    ensures Advance(c, memory).dispatched == [] && Into(Advance(c, memory).client, f, PREAMBLE_LENGTH)
  {
    PreambleWire(f, c.buffer);
  }

  lemma AtHeaderEnd(c: Client, f: Frame, memory: Memory)
    requires Arrived(c, f, WireLength(f.header))
    requires c.state == ReadHeader && c.bytesToRead == WireLength(f.header) && c.header == INIT
    ensures Advance(c, memory).dispatched == [] && Into(Advance(c, memory).client, f, WireLength(f.header))
  {
    HeaderWire(f, c.buffer);
    var c1 := c.(header := HeaderAtBroker(f));
    assert Advance(c, memory) == Step(HeaderRead(c1, true, memory), []);
    GrownKeeps(c1, memory, WireLength(f.header));
  }

  lemma GrownKeeps(c: Client, memory: Memory, n: nat)
    requires n <= |c.buffer|
    ensures HeaderRead(c, true, memory).buffer[..n] == c.buffer[..n]
  {}

  lemma AtPayloadEnd(c: Client, f: Frame, memory: Memory)
    requires Arrived(c, f, |Raw(f)|)
    requires c.state == ReadPayload && c.bytesToRead == |Raw(f)| && c.header == HeaderAtBroker(f)
    ensures PayloadInBuffer(c)
    ensures var s := Advance(c, memory);
            && s.dispatched == [MessageOf(f)]
            && s.client == Restarted(s.client) && |s.client.buffer| == READ_BUFFER_SIZE
  {
    var n, o := WireLength(f.header), |Raw(f)|;
    assert c.header.headerLength == n && n + c.header.payloadLength == o;
    assert c.buffer[n..o] == c.buffer[..o][n..] == Raw(f)[n..] == f.payload;
  }

  predicate Between(c: Client) { c == Restarted(c) && |c.buffer| == READ_BUFFER_SIZE }

  /** What one recv comes to: within the frame, or at its end with the frame dispatched. */
  predicate Moved(s: Step, f: Frame, o: nat) {
    if f.payload == [] || o < |Raw(f)| then s.dispatched == [] && Into(s.client, f, o)
    else s.dispatched == [MessageOf(f)] && Between(s.client)
  }

  lemma AtNoEnd(c: Client, f: Frame, o: nat, chunk: Bytes, memory: Memory)
    requires Into(c, f, o) && 1 <= |chunk| < Wanted(c) && Arrived(Received(c, chunk), f, o + |chunk|)
    ensures |Received(c, chunk).buffer| >= MAX_HEADER
    ensures Received(c, chunk).state == ReadPayload ==> PayloadInBuffer(Received(c, chunk))
    ensures Moved(Advance(Received(c, chunk), memory), f, o + |chunk|)
  {}

  /** The piece that completes what was asked for. */
  lemma AtEnd(c: Client, f: Frame, o: nat, c1: Client, memory: Memory)
    requires Into(c, f, o) && o < |Raw(f)| && Arrived(c1, f, c.bytesToRead)
    requires c1 == c.(bytesRead := c.bytesToRead, buffer := c1.buffer)
    ensures |c1.buffer| >= MAX_HEADER && (c1.state == ReadPayload ==> PayloadInBuffer(c1))
    ensures Moved(Advance(c1, memory), f, c.bytesToRead)
  {
    if o < PREAMBLE_LENGTH {
      AtPreambleEnd(c1, f, memory);
    } else if o < WireLength(f.header) {
      AtHeaderEnd(c1, f, memory);
    } else {
      AtPayloadEnd(c1, f, memory);
    }
  }

  /** What one recv of `chunk` does to a reader `o` bytes into `f`. */
  ghost predicate ReadsOn(c: Client, f: Frame, o: nat, chunk: Bytes, memory: Memory)
    requires c.bytesRead + |chunk| <= |c.buffer|
  {
    var c1 := Received(c, chunk);
    && |c1.buffer| >= MAX_HEADER && (c1.state == ReadPayload ==> PayloadInBuffer(c1))
    && Moved(Advance(c1, memory), f, o + |chunk|)
  }

  lemma ReadShort(c: Client, f: Frame, o: nat, chunk: Bytes, memory: Memory)
    requires Into(c, f, o) && 1 <= |chunk| < Wanted(c) && chunk == Raw(f)[o..o + |chunk|]
    ensures ReadsOn(c, f, o, chunk, memory)
  {
    Arrives(c, f, o, chunk);
    AtNoEnd(c, f, o, chunk, memory);
  }

  lemma ReadAll(c: Client, f: Frame, o: nat, chunk: Bytes, memory: Memory)
    requires Into(c, f, o) && 1 <= |chunk| == Wanted(c) && chunk == Raw(f)[o..o + |chunk|]
    ensures ReadsOn(c, f, o, chunk, memory)
  {
    Arrives(c, f, o, chunk);
    AtEnd(c, f, o, Received(c, chunk), memory);
  }

  /** One recv inside a frame: the reader moves on by what came in, and a frame that is
      complete is dispatched with its own header and payload. A frame without payload is
      never dispatched: once its header is in, the next recv asks for nothing, which
      reads as the end of the stream. */
  lemma ReadOne(c: Client, f: Frame, o: nat, chunk: Bytes, memory: Memory) returns (s: Step)
    requires Into(c, f, o) && 1 <= |chunk| <= Wanted(c) && chunk == Raw(f)[o..o + |chunk|]
    ensures ReadsOn(c, f, o, chunk, memory) && s == Advance(Received(c, chunk), memory) && Moved(s, f, o + |chunk|)
  {
    if |chunk| < Wanted(c) { ReadShort(c, f, o, chunk, memory); } else { ReadAll(c, f, o, chunk, memory); }
    s := Advance(Received(c, chunk), memory);
  }

  // -------------------------------------------------------------------- streams

  ghost function Stream(fs: seq<Frame>): Bytes
  {
    if fs == [] then [] else Raw(fs[0]) + Stream(fs[1..])
  }

  /** Frames before the first one without payload. */
  function Deliverable(fs: seq<Frame>): seq<Frame> {
    if fs == [] || fs[0].payload == [] then [] else [fs[0]] + Deliverable(fs[1..])
  }

  ghost function Messages(fs: seq<Frame>): (r: seq<Message>)
    ensures |r| == |fs|
  {
    if fs == [] then [] else [MessageOf(fs[0])] + Messages(fs[1..])
  }

  /** How a run of reads ended. */
  datatype Outcome = Outcome(dispatched: seq<Message>, closed: bool, bounded: bool)

  function Clamp(size: nat, most: nat): nat
    requires most >= 1
  {
    if size < 1 then 1 else if size > most then most else size
  }

  /** Reads until the input is used up or a recv asks for nothing. The i-th recv returns
      about sizes[i] bytes: at least one, at most what it asks for and what is there.
      `bounded` says that the counters stayed in bounds at every step. */
  ghost function Feed(c: Client, input: Bytes, sizes: seq<nat>, memory: Memory): Outcome
    decreases |sizes|
  {
    if !InBounds(c) || |c.buffer| < MAX_HEADER || (c.state == ReadPayload && !PayloadInBuffer(c)) then
      Outcome([], false, false)
    else if Wanted(c) == 0 then Outcome([], true, true)
    else if input == [] || sizes == [] then Outcome([], false, true)
    else
      var n := Piece(c, input, sizes[0]);
      var c1 := Received(c, input[..n]);
      if |c1.buffer| < MAX_HEADER || (c1.state == ReadPayload && !PayloadInBuffer(c1)) then Outcome([], false, false)
      else
      var s := Advance(c1, memory);
      var rest := Feed(s.client, input[n..], sizes[1..], memory);
      Outcome(s.dispatched + rest.dispatched, rest.closed, rest.bounded)
  }

  ghost predicate Reads(c: Client) {
    InBounds(c) && |c.buffer| >= MAX_HEADER && (c.state == ReadPayload ==> PayloadInBuffer(c)) && Wanted(c) > 0
  }

  /** What a recv can return at most. */
  function Most(c: Client, input: Bytes): (n: nat)
    requires Wanted(c) > 0 && input != []
    ensures 1 <= n <= |input| && n <= Wanted(c)
  {
    if Wanted(c) < |input| then Wanted(c) else |input|
  }

  /** How many bytes the next recv returns. */
  function Piece(c: Client, input: Bytes, size: nat): (n: nat)
    requires Wanted(c) > 0 && input != []
    ensures 1 <= n <= |input| && n <= Wanted(c)
  {
    Clamp(size, Most(c, input))
  }

  /** What reading on with `rest` after a step comes to. */
  function After(s: Step, rest: Outcome): Outcome { Outcome(s.dispatched + rest.dispatched, rest.closed, rest.bounded) }

  /** What one recv of `chunk` does. */
  ghost predicate StepsTo(c: Client, chunk: Bytes, memory: Memory, s: Step)
    requires Reads(c) && |chunk| <= Wanted(c)
  {
    var c1 := Received(c, chunk);
    |c1.buffer| >= MAX_HEADER && (c1.state == ReadPayload ==> PayloadInBuffer(c1)) && s == Advance(c1, memory)
  }

  lemma FeedStep(c: Client, input: Bytes, sizes: seq<nat>, memory: Memory, s: Step)
    requires Reads(c) && input != [] && sizes != []
    requires StepsTo(c, input[..Piece(c, input, sizes[0])], memory, s)
    ensures Feed(c, input, sizes, memory) ==
              After(s, Feed(s.client, input[Piece(c, input, sizes[0])..], sizes[1..], memory))
  {}

  /** Reads whose recvs each return all that is asked for, as far as it is there. */
  ghost function FeedWhole(c: Client, input: Bytes, memory: Memory): Outcome
    decreases |input|
  {
    if !InBounds(c) || |c.buffer| < MAX_HEADER || (c.state == ReadPayload && !PayloadInBuffer(c)) then
      Outcome([], false, false)
    else if Wanted(c) == 0 then Outcome([], true, true)
    else if input == [] then Outcome([], false, true)
    else
      var s := Advance(Received(c, input[..Most(c, input)]), memory);
      After(s, FeedWhole(s.client, input[Most(c, input)..], memory))
  }

  lemma WholeStep(c: Client, input: Bytes, chunk: Bytes, tail: Bytes, memory: Memory) returns (s: Step, rest: Outcome)
    requires Reads(c) && input != [] && chunk == input[..Most(c, input)] && tail == input[Most(c, input)..]
    ensures StepsTo(c, chunk, memory, s) && rest == FeedWhole(s.client, tail, memory)
    ensures FeedWhole(c, input, memory) == After(s, rest)
  {
    s := Advance(Received(c, chunk), memory);
    rest := FeedWhole(s.client, tail, memory);
  }

  lemma TwoPieces(c: Client, a: Bytes, b: Bytes)
    requires c.bytesRead + |a| + |b| <= |c.buffer|
    ensures Received(Received(c, a), b) == Received(c, a + b)
  {
    var r := c.bytesRead;
    assert Received(c, a).buffer[..r + |a|] == c.buffer[..r] + a;
    assert Received(c, a).buffer[r + |a| + |b|..] == c.buffer[r + |a| + |b|..];
  }

  lemma SplitAt(input: Bytes, n: nat, m: nat)
    requires n <= m <= |input|
    ensures input[..n] + input[n..][..m - n] == input[..m] && input[n..][m - n..] == input[m..]
  {}

  /** A piece that is not all leaves the reader waiting for the rest. */
  lemma ShortPiece(c: Client, input: Bytes, n: nat, memory: Memory)
    requires Reads(c) && input != [] && 1 <= n < Most(c, input)
    ensures StepsTo(c, input[..n], memory, Step(Received(c, input[..n]), []))
    ensures Reads(Received(c, input[..n])) && Most(Received(c, input[..n]), input[n..]) == Most(c, input) - n
  {}

  lemma ShortPieceWhole(c: Client, input: Bytes, n: nat, memory: Memory)
    requires Reads(c) && input != [] && 1 <= n < Most(c, input)
    ensures FeedWhole(Received(c, input[..n]), input[n..], memory) == FeedWhole(c, input, memory)
  {
    var m, c1, left := Most(c, input), Received(c, input[..n]), input[n..];
    ShortPiece(c, input, n, memory);
    SplitAt(input, n, m);
    TwoPieces(c, input[..n], left[..m - n]);
    var s, rest := WholeStep(c, input, input[..m], input[m..], memory);
    var s1, rest1 := WholeStep(c1, left, left[..m - n], input[m..], memory);
  }

  lemma AfterNothing(c: Client, rest: Outcome)
    ensures After(Step(c, []), rest) == rest
  {}

  lemma NoReads(c: Client, input: Bytes, sizes: seq<nat>, memory: Memory)
    requires !Reads(c) || input == []
    ensures Feed(c, input, sizes, memory) == FeedWhole(c, input, memory)
  {}

  /** However the bytes are cut, it comes to the same. */
  lemma {:induction false} AnyCutIsWhole(c: Client, input: Bytes, sizes: seq<nat>, memory: Memory)
    requires |sizes| >= |input|
    ensures Feed(c, input, sizes, memory) == FeedWhole(c, input, memory)
    decreases |input|
  {
    if !Reads(c) || input == [] {
      NoReads(c, input, sizes, memory);
    } else {
      var n := Piece(c, input, sizes[0]);
      var c1, rest := Received(c, input[..n]), input[n..];
      if n < Most(c, input) {
        ShortPiece(c, input, n, memory);
        ShortPieceWhole(c, input, n, memory);
        FeedStep(c, input, sizes, memory, Step(c1, []));
        AnyCutIsWhole(c1, rest, sizes[1..], memory);
        AfterNothing(c1, FeedWhole(c1, rest, memory));
      } else {
        var s, whole := WholeStep(c, input, input[..n], rest, memory);
        FeedStep(c, input, sizes, memory, s);
        AnyCutIsWhole(s.client, rest, sizes[1..], memory);
      }
    }
  }

  /** Bytes of any kind: two cuts that take all of them in give the same messages, end alike
      and keep or leave the bounds alike. */
  lemma CutsAgree(input: Bytes, a: seq<nat>, b: seq<nat>, memory: Memory)
    requires |a| >= |input| && |b| >= |input|
    ensures Feed(Start(memory), input, a, memory) == Feed(Start(memory), input, b, memory)
  {
    AnyCutIsWhole(Start(memory), input, a, memory);
    AnyCutIsWhole(Start(memory), input, b, memory);
  }

  lemma Slices(a: Bytes, b: Bytes, o: nat, n: nat)
    requires o + n <= |a|
    ensures (a[o..] + b)[..n] == a[o..o + n] && (a[o..] + b)[n..] == a[o + n..] + b
  {}

  /** How much the recv inside a frame returns, and what that does. */
  lemma FramePiece(c: Client, f: Frame, o: nat, tail: Bytes, size: nat, memory: Memory) returns (n: nat, s: Step)
    requires Into(c, f, o) && o < |Raw(f)|
    ensures Reads(c) && n == Piece(c, Raw(f)[o..] + tail, size) && n <= |Raw(f)| - o
    ensures StepsTo(c, Raw(f)[o..o + n], memory, s) && Moved(s, f, o + n)
  {
    IntoInBounds(c, f, o);
    n := Piece(c, Raw(f)[o..] + tail, size);
    WantedInFrame(c, f, o);
    var chunk := Raw(f)[o..o + n];
    assert |chunk| == n;
    s := ReadOne(c, f, o, chunk, memory);
  }

  /** The steps that come `o` bytes into the frame, or to its end. */
  ghost function StepsAt(f: Frame, o: nat): iset<Step> { iset s: Step | Moved(s, f, o) }

  lemma WantedInFrame(c: Client, f: Frame, o: nat)
    requires Into(c, f, o)
    ensures Wanted(c) <= |Raw(f)| - o
  {}

  /** The reads from `o` bytes into a frame on, with `tail` behind the frame. */
  ghost function FeedIn(c: Client, f: Frame, o: nat, tail: Bytes, sizes: seq<nat>, memory: Memory): Outcome
    requires o <= |Raw(f)|
  {
    Feed(c, Raw(f)[o..] + tail, sizes, memory)
  }

  /** One recv inside a frame. */
  lemma FeedPiece(c: Client, f: Frame, o: nat, tail: Bytes, sizes: seq<nat>, memory: Memory, all: Outcome)
    returns (o': nat, s: Step, rest: Outcome)
    requires Into(c, f, o) && o < |Raw(f)| && sizes != [] && all == FeedIn(c, f, o, tail, sizes, memory)
    ensures o < o' <= |Raw(f)| && rest == FeedIn(s.client, f, o', tail, sizes[1..], memory)
    ensures all == After(s, rest) && s in StepsAt(f, o')
  {
    var n;
    n, s := FramePiece(c, f, o, tail, sizes[0], memory);
    Slices(Raw(f), tail, o, n);
    FeedStep(c, Raw(f)[o..] + tail, sizes, memory, s);
    o' := o + n;
    rest := FeedIn(s.client, f, o', tail, sizes[1..], memory);
  }

  lemma ReaderInto(c: Client, f: Frame, o: nat)
    ensures c in Readers(f, o) <==> Into(c, f, o)
  {}

  /** A reader at the end of a frame without payload asks for nothing. */
  lemma StalledAtEnd(c: Client, f: Frame, o: nat, input: Bytes, sizes: seq<nat>, memory: Memory)
    requires Into(c, f, o) && o == |Raw(f)| && f.payload == []
    ensures Feed(c, input, sizes, memory) == Outcome([], true, true)
  {
    IntoInBounds(c, f, o);
  }

  const CLOSED := Outcome([], true, true)

  /** What comes of a frame when `rest` comes of what is behind it. */
  function AfterFrame(f: Frame, c: Client, rest: Outcome): Outcome {
    if f.payload == [] then CLOSED else After(Step(c, [MessageOf(f)]), rest)
  }

  lemma Nothing(raw: Bytes, tail: Bytes)
    ensures raw[|raw|..] + tail == tail
  {}

  lemma EndStalled(s: Step, f: Frame, tail: Bytes, sizes: seq<nat>, memory: Memory)
    requires s in StepsAt(f, |Raw(f)|) && f.payload == []
    ensures After(s, Feed(s.client, tail, sizes, memory)) == CLOSED
  {
    StalledAtEnd(s.client, f, |Raw(f)|, tail, sizes, memory);
  }

  /** A reader on its way, the sizes of the recvs to come, and what comes of them. */
  datatype Run = Run(client: Client, sizes: seq<nat>, outcome: Outcome)

  /** The runs that are `o` bytes into the frame and have `left` to come, and `tail` behind it. */
  ghost function RunsIn(f: Frame, o: nat, left: nat, tail: Bytes, memory: Memory): iset<Run> {
    iset r: Run | o + left == |Raw(f)| && r.client in Readers(f, o)
                  && r.outcome == FeedIn(r.client, f, o, tail, r.sizes, memory)
  }

  /** The runs that have the frame behind them. */
  ghost function RunsBehind(f: Frame, tail: Bytes, memory: Memory): iset<Run> {
    iset r: Run | r.outcome == Feed(r.client, tail, r.sizes, memory) && (f.payload != [] ==> Between(r.client))
  }

  /** The runs that go on `o` bytes into the frame, with `tail` behind it. */
  ghost function RunsFrom(f: Frame, o: nat, tail: Bytes, memory: Memory): iset<Run> {
    iset r: Run | o <= |Raw(f)| && r.outcome == FeedIn(r.client, f, o, tail, r.sizes, memory)
  }

  lemma FeedFrom(r: Run, f: Frame, o: nat, left: nat, tail: Bytes, memory: Memory)
    returns (o': nat, s: Step, r': Run)
    requires r in RunsIn(f, o, left, tail, memory) && 0 < left <= |r.sizes|
    ensures o < o' <= o + left == |Raw(f)| && s in StepsAt(f, o') && r'.client == s.client
    ensures r' in RunsFrom(f, o', tail, memory) && r.outcome == After(s, r'.outcome) && r'.sizes == r.sizes[1..]
  {
    var rest;
    ReaderInto(r.client, f, o);
    o', s, rest := FeedPiece(r.client, f, o, tail, r.sizes, memory, r.outcome);
    r' := Run(s.client, r.sizes[1..], rest);
  }

  lemma StepInside(s: Step, f: Frame, o: nat, left: nat, r: Run, tail: Bytes, memory: Memory)
    requires s in StepsAt(f, o) && o + left == |Raw(f)| && left > 0
    requires r.client == s.client && r in RunsFrom(f, o, tail, memory)
    ensures r in RunsIn(f, o, left, tail, memory) && After(s, r.outcome) == r.outcome
  {}

  /** The frame is complete. */
  lemma StepBehind(s: Step, f: Frame, o: nat, r: Run, tail: Bytes, memory: Memory)
    requires s in StepsAt(f, o) && o == |Raw(f)| && r.client == s.client && r in RunsFrom(f, o, tail, memory)
    ensures r in RunsBehind(f, tail, memory) && After(s, r.outcome) == AfterFrame(f, r.client, r.outcome)
  {
    Nothing(Raw(f), tail);
    if f.payload == [] { EndStalled(s, f, tail, r.sizes, memory); } else { assert s == Step(s.client, [MessageOf(f)]); }
  }

  /** One recv leaves the reader inside the frame, or it completes it. */
  lemma FeedOne(r: Run, f: Frame, o: nat, left: nat, tail: Bytes, memory: Memory)
    returns (o': nat, left': nat, r': Run)
    requires r in RunsIn(f, o, left, tail, memory) && 0 < left <= |r.sizes|
    ensures left' < left && |r'.sizes| == |r.sizes| - 1
    ensures left' > 0 ==> r' in RunsIn(f, o', left', tail, memory) && r'.outcome == r.outcome
    ensures left' == 0 ==> r' in RunsBehind(f, tail, memory) && r.outcome == AfterFrame(f, r'.client, r'.outcome)
  {
    var s;
    o', s, r' := FeedFrom(r, f, o, left, tail, memory);
    left' := o + left - o';
    if left' > 0 { StepInside(s, f, o', left', r', tail, memory); } else { StepBehind(s, f, o', r', tail, memory); }
  }

  /** All reads of the rest of a frame: it is dispatched and the reader goes on behind it, or
      there is nothing to dispatch and the stream reads as closed. */
  lemma {:induction false} FeedFrame(r: Run, f: Frame, o: nat, left: nat, tail: Bytes, memory: Memory)
    returns (r': Run)
    requires r in RunsIn(f, o, left, tail, memory) && 0 < left <= |r.sizes|
    ensures r' in RunsBehind(f, tail, memory) && r.outcome == AfterFrame(f, r'.client, r'.outcome)
    ensures |r'.sizes| >= |r.sizes| - left
    decreases left
  {
    var o', left', r1 := FeedOne(r, f, o, left, tail, memory);
    r' := r1;
    if left' > 0 { r' := FeedFrame(r1, f, o', left', tail, memory); }
  }

  lemma Enters(c: Client, f: Frame, tail: Bytes, sizes: seq<nat>, memory: Memory)
    requires Between(c)
    ensures Run(c, sizes, Feed(c, Raw(f) + tail, sizes, memory)) in RunsIn(f, 0, |Raw(f)|, tail, memory)
  {
    assert Raw(f)[0..] + tail == Raw(f) + tail;
  }

  /** What every run of reads over frames comes to: all messages before the first frame
      without payload, and closed exactly if there is one. */
  ghost function Expected(fs: seq<Frame>): Outcome {
    Outcome(Messages(Deliverable(fs)), |Deliverable(fs)| < |fs|, true)
  }

  ghost predicate Delivers(r: Outcome, fs: seq<Frame>) { r == Expected(fs) }

  lemma ExpectedFirst(fs: seq<Frame>, c: Client)
    requires fs != []
    ensures Expected(fs) == AfterFrame(fs[0], c, Expected(fs[1..]))
  {
    assert ([fs[0]] + Deliverable(fs[1..]))[1..] == Deliverable(fs[1..]);
  }

  /** Reading from between two frames. */
  lemma {:induction false} FeedFrames(c: Client, fs: seq<Frame>, sizes: seq<nat>, memory: Memory)
    requires Between(c) && |sizes| >= |Stream(fs)|
    ensures Delivers(Feed(c, Stream(fs), sizes, memory), fs)
    decreases |fs|
  {
    if fs == [] {
    } else {
      var f, tail := fs[0], Stream(fs[1..]);
      Enters(c, f, tail, sizes, memory);
      var r := FeedFrame(Run(c, sizes, Feed(c, Stream(fs), sizes, memory)), f, 0, |Raw(f)|, tail, memory);
      ExpectedFirst(fs, r.client);
      if f.payload != [] { FeedFrames(r.client, fs[1..], r.sizes, memory); }
    }
  }

  /** However the stream is cut into pieces: the frames before the first one without
      payload are dispatched, once each and in order, the counters stay in bounds, and the
      connection reads as closed exactly if there is a frame without payload. */
  lemma StreamDelivered(fs: seq<Frame>, sizes: seq<nat>, memory: Memory)
    requires |sizes| >= |Stream(fs)|
    ensures Delivers(Feed(Start(memory), Stream(fs), sizes, memory), fs)
    ensures (forall f :: f in fs ==> f.payload != []) ==>
              Feed(Start(memory), Stream(fs), sizes, memory) == Outcome(Messages(fs), false, true)
  {
    FeedFrames(Start(memory), fs, sizes, memory);
    AllDeliverable(fs);
  }

  lemma {:induction false} AllDeliverable(fs: seq<Frame>)
    ensures (forall f :: f in fs ==> f.payload != []) ==> Deliverable(fs) == fs
  {
    if fs == [] {
    } else {
      AllDeliverable(fs[1..]);
    }
  }

  /** What the broker sees of a frame is what its sender put in. */
  lemma MessageIsFrame(f: Frame)
    ensures ContentOf(HeaderAtBroker(f)) == ContentOf(f.header)
  {
    var t, r := CStr(f.header.topic), CStr(f.header.replyTopic);
    CStrIs(Overwrite(ZEROS, t, |t|), t);
    CStrIs(Overwrite(ZEROS, r, |r|), r);
  }

  // ------------------------------------------------------------- the reader object

  datatype ReadCode = ReadOk | StreamClosed

  class ConnectedClient {
    var state: ReadState
    var bytesRead: nat
    var bytesToRead: int
    var readBuffer: array<Byte>
    var readBufferCapacity: nat
    const header: MessageHeader
    /** What has been handed to the dispatcher. */
    var dispatched: seq<Message>

    ghost function View(): Client
      reads this, readBuffer, header
    {
      Client(state, bytesRead, bytesToRead, readBuffer[..], header.View())
    }

    ghost predicate Valid()
      reads this, readBuffer, header
    {
      && readBuffer.Length == readBufferCapacity >= MAX_HEADER
      && (state == ReadPayload ==> PayloadInBuffer(View()))
    }

    constructor (memory: Memory)
      ensures Valid() && View() == Start(memory) && dispatched == []
      ensures fresh(readBuffer) && fresh(header)
    {
      state, bytesRead, bytesToRead := ReadPreamble, 0, PREAMBLE_LENGTH;
      readBuffer := new Byte[READ_BUFFER_SIZE](i requires 0 <= i < READ_BUFFER_SIZE => memory(i));
      readBufferCapacity := READ_BUFFER_SIZE;
      header := new MessageHeader();
      dispatched := [];
    }

    method Reset()
      modifies this`state, this`bytesRead, this`bytesToRead, header
      ensures View() == Restarted(old(View()))
    {
      bytesToRead, bytesRead, state := PREAMBLE_LENGTH, 0, ReadPreamble;
      header.Init();
    }

    /** recv copying what came in behind what is there. */
    method Receive(chunk: Bytes)
      requires bytesRead + |chunk| <= readBuffer.Length
      modifies this`bytesRead, readBuffer
      ensures View() == Received(old(View()), chunk)
    {
      ghost var was := readBuffer[..];
      var at := bytesRead;
      var i := 0;
      while i < |chunk|
        invariant i <= |chunk| && bytesRead == at
        invariant forall k :: 0 <= k < i ==> readBuffer[at + k] == chunk[k]
        invariant forall k :: 0 <= k < |was| && !(at <= k < at + i) ==> readBuffer[k] == was[k]
      {
        readBuffer[at + i] := chunk[i];
        i := i + 1;
      }
      bytesRead := bytesRead + |chunk|;
      assert readBuffer[..] == was[..at] + chunk + was[at + |chunk|..];
    }

    method OnPreamble()
      requires readBuffer.Length >= MAX_HEADER
      modifies this`state, this`bytesRead, this`bytesToRead, header
      ensures View() == PreambleDone(old(View()))
    {
      ghost var s := readBuffer[..];
      var start, version := DecodeUInt16(readBuffer, 0), DecodeUInt16(readBuffer, 2);
      assert start == Host16(s) && version == Host16(s[2..]);
      if start != MARKER || version != VERSION {
        Reset();
      } else {
        bytesToRead := bytesToRead + (DecodeUInt16(readBuffer, 4) - PREAMBLE_LENGTH);
        state := ReadHeader;
      }
    }

    method OnHeader(memory: Memory)
      requires readBuffer.Length == readBufferCapacity >= MAX_HEADER
      modifies this, header
      ensures View() == HeaderDone(old(View()), memory)
      ensures readBuffer.Length == readBufferCapacity && dispatched == old(dispatched)
      ensures readBuffer == old(readBuffer) || fresh(readBuffer)
    {
      var ok := DecodeHeader();
      AfterHeader(ok, memory);
    }

    method DecodeHeader() returns (ok: bool)
      requires readBuffer.Length >= MAX_HEADER
      modifies header
      ensures (header.View(), ok) == Decoded(old(header.View()), readBuffer[..])
      ensures View() == old(View()).(header := header.View())
    {
      ok := header.Decode(readBuffer);
    }

    /** A bad header starts the reader over; after a good one the payload is next. */
    method AfterHeader(ok: bool, memory: Memory)
      requires readBuffer.Length == readBufferCapacity
      modifies this`state, this`bytesRead, this`bytesToRead, this`readBuffer, this`readBufferCapacity, header
      ensures View() == HeaderRead(old(View()), ok, memory)
      ensures readBuffer.Length == readBufferCapacity
      ensures readBuffer == old(readBuffer) || fresh(readBuffer)
    {
      if !ok {
        Reset();
        return;
      }
      bytesToRead := bytesToRead + header.payloadLength;
      state := ReadPayload;
      var incoming := bytesToRead + bytesRead;
      if readBufferCapacity < incoming {
        Grow(incoming, memory);
      }
    }

    /** realloc. */
    method Grow(size: nat, memory: Memory)
      requires readBuffer.Length == readBufferCapacity < size
      modifies this`readBuffer, this`readBufferCapacity
      ensures fresh(readBuffer) && readBuffer.Length == readBufferCapacity
      ensures readBuffer[..] == old(readBuffer[..]) + Allocated(size - old(readBufferCapacity), memory)
    {
      var was, n := readBuffer, readBufferCapacity;
      var bigger := new Byte[size](i requires 0 <= i < size => if i < n then 0 else memory(i - n));
      var i := 0;
      while i < n
        invariant i <= n && bigger[..i] == was[..i]
        invariant forall k :: n <= k < size ==> bigger[k] == memory(k - n)
      {
        bigger[i] := was[i];
        i := i + 1;
      }
      assert bigger[n..] == Allocated(size - n, memory);
      assert bigger[..] == bigger[..n] + bigger[n..];
      readBuffer, readBufferCapacity := bigger, size;
    }

    method OnPayload(memory: Memory)
      requires readBuffer.Length == readBufferCapacity && PayloadInBuffer(View())
      modifies this, header
      ensures View() == PayloadDone(old(View()), memory)
      ensures dispatched == old(dispatched) + [Current(old(View()))]
      ensures readBuffer.Length == readBufferCapacity
      ensures readBuffer == old(readBuffer) || fresh(readBuffer)
    {
      var payload := readBuffer[header.headerLength..header.headerLength + header.payloadLength];
      dispatched := dispatched + [Message(header.View(), payload)];
      Reset();
      if READ_BUFFER_SIZE != readBufferCapacity {
        readBuffer := new Byte[READ_BUFFER_SIZE](i requires 0 <= i < READ_BUFFER_SIZE => memory(i));
        readBufferCapacity := READ_BUFFER_SIZE;
        assert readBuffer[..] == Allocated(READ_BUFFER_SIZE, memory);
      }
    }

    /** The switch after a successful recv. */
    method Switch(memory: Memory)
      requires Valid()
      modifies this, readBuffer, header
      ensures readBuffer.Length == readBufferCapacity
      ensures readBuffer == old(readBuffer) || fresh(readBuffer)
      ensures old(dispatched) <= dispatched
      ensures Step(View(), dispatched[|old(dispatched)|..]) == Advance(old(View()), memory)
    {
      if bytesRead == bytesToRead {
        match state
        case ReadPreamble => OnPreamble();
        case ReadHeader => OnHeader(memory);
        case ReadPayload => OnPayload(memory);
      }
    }

    /** rtConnectedClient_Read; `chunk` is what recv returned. */
    method Read(chunk: Bytes, memory: Memory) returns (rc: ReadCode)
      requires Valid() && |chunk| <= Wanted(View()) && InBounds(View())
      requires chunk != [] ==> var c := Received(View(), chunk); c.state == ReadPayload ==> PayloadInBuffer(c)
      modifies this, readBuffer, header
      ensures readBuffer.Length == readBufferCapacity
      ensures readBuffer == old(readBuffer) || fresh(readBuffer)
      ensures chunk == [] ==> rc == StreamClosed && View() == old(View()) && dispatched == old(dispatched)
      ensures chunk != [] ==> rc == ReadOk && old(dispatched) <= dispatched
      ensures chunk != [] ==>
        Step(View(), dispatched[|old(dispatched)|..]) == Advance(Received(old(View()), chunk), memory)
    {
      if chunk == [] {
        return StreamClosed;
      }
      Receive(chunk);
      Switch(memory);
      rc := ReadOk;
    }
  }
}
