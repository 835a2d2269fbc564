/** The wire header: rtEncoder.c's big-endian cursor operations and rtMessageHeader.c's
    Init, Encode and Decode, with the header copies of rtrouted.c. */
module MessageHeader {
  import opened Sequences

  type Byte = b: int | 0 <= b < 0x100
  type UInt16 = n: int | 0 <= n < 0x1_0000
  type UInt32 = n: int | 0 <= n < 0x1_0000_0000
  type Bytes = seq<Byte>

  const MARKER: UInt16 := 0xAAAA
  const VERSION: UInt16 := 2
  const TOPIC_SIZE := 128
  const SIZE_WITHOUT_STRINGS := 32
  /** What a header takes at most: both topics one short of their arrays. */
  const MAX_HEADER := SIZE_WITHOUT_STRINGS + 2 * (TOPIC_SIZE - 1)

  // ----------------------------------------------------------- numbers on the wire

  function Net16(n: UInt16): (r: Bytes)
    ensures |r| == 2
  {
    [n / 0x100, n % 0x100]
  }

  function Net32(n: UInt32): (r: Bytes)
    ensures |r| == 4
  {
    [n / 0x100_0000, n / 0x1_0000 % 0x100, n / 0x100 % 0x100, n % 0x100]
  }

  function Host16(s: Bytes): UInt16
    requires |s| >= 2
  {
    s[0] as int * 0x100 + s[1]
  }

  function Host32(s: Bytes): UInt32
    requires |s| >= 4
  {
    s[0] as int * 0x100_0000 + s[1] as int * 0x1_0000 + s[2] as int * 0x100 + s[3]
  }

  lemma Net16Host(n: UInt16, rest: Bytes)
    ensures Host16(Net16(n) + rest) == n && (Net16(n) + rest)[2..] == rest
  {}

  /** A number from its four digits to the base 256. */
  lemma Digits(n: UInt32)
    ensures n / 0x1_0000 == n / 0x100 / 0x100 && n / 0x100_0000 == n / 0x1_0000 / 0x100
    ensures n == n / 0x100_0000 * 0x100_0000 + n / 0x1_0000 % 0x100 * 0x1_0000 + n / 0x100 % 0x100 * 0x100 + n % 0x100
  {}

  lemma Net32Host(n: UInt32, rest: Bytes)
    ensures Host32(Net32(n) + rest) == n && (Net32(n) + rest)[4..] == rest
  {
    Digits(n);
    var s := Net32(n) + rest;
    assert s[0] == Net32(n)[0] && s[1] == Net32(n)[1] && s[2] == Net32(n)[2] && s[3] == Net32(n)[3];
  }

  method EncodeUInt16(buff: array<Byte>, at: nat, n: UInt16) returns (next: nat)
    requires at + 2 <= buff.Length
    modifies buff
    ensures next == at + 2 && buff[..next] == old(buff[..at]) + Net16(n)
    ensures forall i :: next <= i < buff.Length ==> buff[i] == old(buff[i])
  {
    buff[at], buff[at + 1] := n / 0x100, n % 0x100;
    next := at + 2;
  }

  method EncodeUInt32(buff: array<Byte>, at: nat, n: UInt32) returns (next: nat)
    requires at + 4 <= buff.Length
    modifies buff
    ensures next == at + 4 && buff[..next] == old(buff[..at]) + Net32(n)
    ensures forall i :: next <= i < buff.Length ==> buff[i] == old(buff[i])
  {
    buff[at], buff[at + 1] := n / 0x100_0000, n / 0x1_0000 % 0x100;
    buff[at + 2], buff[at + 3] := n / 0x100 % 0x100, n % 0x100;
    next := at + 4;
  }

  function WireString(s: Bytes): Bytes
    requires |s| < 0x1_0000_0000
  {
    Net32(|s|) + s
  }

  method EncodeString(buff: array<Byte>, at: nat, s: Bytes) returns (next: nat)
    requires |s| < 0x1_0000_0000 && at + 4 + |s| <= buff.Length
    modifies buff
    ensures next == at + 4 + |s| && buff[..next] == old(buff[..at]) + WireString(s)
    ensures forall i :: next <= i < buff.Length ==> buff[i] == old(buff[i])
  {
    var from := EncodeUInt32(buff, at, |s|);
    var i := 0;
    while i < |s|
      invariant i <= |s|
      invariant buff[..from] == old(buff[..at]) + Net32(|s|)
      invariant buff[from..from + i] == s[..i]
      invariant forall j :: from + i <= j < buff.Length ==> buff[j] == old(buff[j])
    {
      buff[from + i] := s[i];
      i := i + 1;
    }
    next := from + |s|;
    TakeMore(buff[..], from, next);
    assert buff[..][..from] == buff[..from] && buff[..][from..next] == buff[from..next];
  }

  lemma TakeMore(s: Bytes, i: nat, j: nat)
    requires i <= j <= |s|
    ensures s[..j] == s[..i] + s[i..j]
  {}

  // ------------------------------------------------------------------- headers

  /** A char array of the header struct. */
  type CharArray = s: Bytes | |s| == TOPIC_SIZE witness Zeros(TOPIC_SIZE)

  function Zeros(n: nat): (r: Bytes)
    ensures |r| == n && forall i :: 0 <= i < n ==> r[i] == 0
  {
    seq(n, i requires 0 <= i < n => 0)
  }

  const ZEROS: CharArray := Zeros(TOPIC_SIZE)

  /** The C string at the start of a buffer: up to the first NUL. */
  function CStr(s: Bytes): (r: Bytes)
    ensures |r| <= |s| && 0 !in r && s[..|r|] == r
    ensures 0 in s <==> |r| < |s|
    ensures |r| < |s| ==> s[|r|] == 0
  {
    s[..IndexOf(s, 0)]
  }

  lemma CStrIs(s: Bytes, t: Bytes)
    requires |t| < |s| && s[..|t|] == t && 0 !in t
    ensures CStr(s) == t <==> s[|t|] == 0
  {
    if s[|t|] == 0 {
      IndexOfAt(s, 0, |t|);
    }
  }

  datatype Header = Header(version: UInt16, headerLength: UInt16, sequenceNumber: UInt32, flags: UInt32,
                           controlData: UInt32, payloadLength: UInt32, topicLength: UInt32, topic: CharArray,
                           replyTopicLength: UInt32, replyTopic: CharArray)

  /** rtMessageHeader_Init. */
  const INIT := Header(VERSION, 0, 0, 0, 0, 0, 0, ZEROS, 0, ZEROS)

  /** Both topics are NUL-terminated within their arrays. */
  predicate Terminated(h: Header) { 0 in h.topic && 0 in h.replyTopic }

  lemma InitTerminated()
    ensures Terminated(INIT) && CStr(INIT.topic) == [] && CStr(INIT.replyTopic) == []
  {
    assert ZEROS[0] == 0;
    CStrIs(ZEROS, []);
  }

  /** The initial header says nothing. */
  lemma InitContent()
    ensures ContentOf(INIT) == Content([], [], 0, 0, 0, 0) && INIT.version == 2 && INIT.headerLength == 0
  {
    InitTerminated();
  }

  function WireLength(h: Header): (n: UInt16)
    requires Terminated(h)
    ensures n <= MAX_HEADER
  {
    SIZE_WITHOUT_STRINGS + |CStr(h.topic)| + |CStr(h.replyTopic)|
  }

  /** The bytes Encode writes. The struct's own version field is not among them. */
  function Wire(h: Header): (r: Bytes)
    requires Terminated(h)
    ensures |r| == WireLength(h)
  {
    Net16(MARKER) + (Net16(VERSION) + (Net16(WireLength(h)) + (Net32(h.sequenceNumber) + (Net32(h.flags) +
    (Net32(h.controlData) + (Net32(h.payloadLength) + (WireString(CStr(h.topic)) +
    (WireString(CStr(h.replyTopic)) + Net16(MARKER)))))))))
  }

  /** memcpy of the first `n` bytes over a char array. */
  function Overwrite(a: CharArray, s: Bytes, n: nat): CharArray
    requires n <= |s| && n <= TOPIC_SIZE
  {
    s[..n] + a[n..]
  }

  /** The fixed part, up to payload_length, over what the struct held before. */
  function DecodeFixed(h: Header, s: Bytes): Header
    requires |s| >= 20
  {
    h.(version := Host16(s), headerLength := Host16(s[2..]), sequenceNumber := Host32(s[4..]),
       flags := Host32(s[8..]), controlData := Host32(s[12..]), payloadLength := Host32(s[16..]))
  }

  /** The same, byte by byte. */
  lemma FixedFields(h: Header, s: Bytes)
    requires |s| >= 20
    ensures DecodeFixed(h, s) ==
              h.(version := s[0] as int * 0x100 + s[1], headerLength := s[2] as int * 0x100 + s[3],
                 sequenceNumber := s[4] as int * 0x100_0000 + s[5] as int * 0x1_0000 + s[6] as int * 0x100 + s[7],
                 flags := s[8] as int * 0x100_0000 + s[9] as int * 0x1_0000 + s[10] as int * 0x100 + s[11],
                 controlData := s[12] as int * 0x100_0000 + s[13] as int * 0x1_0000 + s[14] as int * 0x100 + s[15],
                 payloadLength := s[16] as int * 0x100_0000 + s[17] as int * 0x1_0000 + s[18] as int * 0x100 + s[19])
  {}

  /** From the reply topic's length on. */
  function DecodeReply(h: Header, s: Bytes): (Header, bool)
    requires |s| >= 4 + (TOPIC_SIZE - 1) + 2
  {
    var k := Host32(s);
    if k >= TOPIC_SIZE then (h.(replyTopicLength := k), false)
    else (h.(replyTopicLength := k, replyTopic := Overwrite(h.replyTopic, s[4..], k)), Host16(s[4 + k..]) == MARKER)
  }

  /** From the topic's length on. */
  function DecodeTopics(h: Header, s: Bytes): (Header, bool)
    requires |s| >= 2 * (4 + TOPIC_SIZE - 1) + 2
  {
    var n := Host32(s);
    if n >= TOPIC_SIZE then (h.(topicLength := n), false)
    else DecodeReply(h.(topicLength := n, topic := Overwrite(h.topic, s[4..], n)), s[4 + n..])
  }

  lemma TopicTooLong(h: Header, s: Bytes, n: UInt32)
    requires |s| >= 2 * (4 + TOPIC_SIZE - 1) + 2 && n == Host32(s) >= TOPIC_SIZE
    ensures DecodeTopics(h, s) == (h.(topicLength := n), false)
  {}

  /** `mid` is the struct with the topic in it, `rest` what is left to decode. */
  lemma DecodeTopicsStep(h: Header, s: Bytes, n: UInt32, mid: Header, rest: Bytes)
    requires |s| >= 2 * (4 + TOPIC_SIZE - 1) + 2 && n == Host32(s) < TOPIC_SIZE && rest == s[4 + n..]
    requires mid == h.(topicLength := n, topic := Overwrite(h.topic, s[4..], n))
    ensures DecodeTopics(h, s) == DecodeReply(mid, rest)
  {}

  /** Decode over the old contents of the struct, with whether it returned RT_OK. */
  function Decoded(h: Header, s: Bytes): (Header, bool)
    requires |s| >= MAX_HEADER
  {
    if Host16(s) != MARKER then (h, false)
    else DecodeTopics(DecodeFixed(h, s[2..]), s[22..])
  }

  /** What the decoder accepts, whatever the struct held: the marker at both ends, and topics
      shorter than their arrays. */
  predicate Acceptable(s: Bytes)
    requires |s| >= MAX_HEADER
  {
    && Host16(s) == MARKER && Host32(s[22..]) < TOPIC_SIZE
    && var n := Host32(s[22..]);
       && Host32(s[26 + n..]) < TOPIC_SIZE
       && var k := Host32(s[26 + n..]);
          Host16(s[30 + n + k..]) == MARKER
  }

  lemma DecodedIff(h: Header, s: Bytes)
    requires |s| >= MAX_HEADER
    ensures Decoded(h, s).1 <==> Acceptable(s)
  {
    if Host16(s) == MARKER && Host32(s[22..]) < TOPIC_SIZE {
      var n := Host32(s[22..]);
      var rest := s[26 + n..];
      assert s[22..][4 + n..] == rest;
      if Host32(rest) < TOPIC_SIZE { assert rest[4 + Host32(rest)..] == s[30 + n + Host32(rest)..]; }
    }
  }

  /** A decoder that fails behind the start marker has filled in the fixed fields and the topic's
      length all the same. */
  lemma FailureLeaves(h: Header, s: Bytes)
    requires |s| >= MAX_HEADER && !Acceptable(s)
    ensures var h' := Decoded(h, s).0;
            if Host16(s) != MARKER then h' == h
            else && h'.topicLength == Host32(s[22..]) && h'.version == Host16(s[2..])
                 && h'.sequenceNumber == Host32(s[6..]) && h'.payloadLength == Host32(s[18..])
  {
    assert s[2..][4..] == s[6..] && s[2..][16..] == s[18..];
  }

  /** What a receiver gets to know of a header. */
  datatype Content = Content(topic: Bytes, replyTopic: Bytes, sequenceNumber: UInt32, flags: UInt32,
                             controlData: UInt32, payloadLength: UInt32)

  function ContentOf(h: Header): Content {
    Content(CStr(h.topic), CStr(h.replyTopic), h.sequenceNumber, h.flags, h.controlData, h.payloadLength)
  }

  // ---------------------------------------------------------------- round trip

  /** The part of the wire from the fixed fields on. */
  lemma DecodeFixedWire(h: Header, version: UInt16, length: UInt16, c: Header, rest: Bytes)
    ensures var s := Net16(version) + (Net16(length) + (Net32(c.sequenceNumber) + (Net32(c.flags) +
                     (Net32(c.controlData) + (Net32(c.payloadLength) + rest)))));
            && DecodeFixed(h, s) == h.(version := version, headerLength := length,
                 sequenceNumber := c.sequenceNumber, flags := c.flags, controlData := c.controlData,
                 payloadLength := c.payloadLength)
            && s[20..] == rest
  {
    var s4 := Net32(c.payloadLength) + rest;
    var s3 := Net32(c.controlData) + s4;
    var s2 := Net32(c.flags) + s3;
    var s1 := Net32(c.sequenceNumber) + s2;
    var s0 := Net16(length) + s1;
    var s := Net16(version) + s0;
    Net16Host(version, s0);
    Net16Host(length, s1);
    Net32Host(c.sequenceNumber, s2);
    Net32Host(c.flags, s3);
    Net32Host(c.controlData, s4);
    Net32Host(c.payloadLength, rest);
    assert s[2..] == s0 && s[4..] == s1 && s[8..] == s2 && s[12..] == s3 && s[16..] == s4;
  }

  lemma WireStringTail(t: Bytes, rest: Bytes)
    requires |t| < TOPIC_SIZE
    ensures var s := WireString(t) + rest; Host32(s) == |t| && s[4..][..|t|] == t && s[4 + |t|..] == rest
  {
    assert WireString(t) + rest == Net32(|t|) + (t + rest);
    Net32Host(|t|, t + rest);
  }

  lemma DecodeTopicsWire(h: Header, t: Bytes, r: Bytes, junk: Bytes)
    requires |t| < TOPIC_SIZE && |r| < TOPIC_SIZE
    requires |WireString(t) + (WireString(r) + (Net16(MARKER) + junk))| >= 2 * (4 + TOPIC_SIZE - 1) + 2
    ensures DecodeTopics(h, WireString(t) + (WireString(r) + (Net16(MARKER) + junk))) ==
              (h.(topicLength := |t|, topic := Overwrite(h.topic, t, |t|),
                  replyTopicLength := |r|, replyTopic := Overwrite(h.replyTopic, r, |r|)), true)
  {
    var end := Net16(MARKER) + junk;
    var second := WireString(r) + end;
    var first := WireString(t) + second;
    WireStringTail(t, second);
    WireStringTail(r, end);
    Net16Host(MARKER, junk);
    assert Overwrite(h.topic, first[4..], |t|) == Overwrite(h.topic, t, |t|);
    assert Overwrite(h.replyTopic, second[4..], |r|) == Overwrite(h.replyTopic, r, |r|);
  }

  function FixedWire(h: Header, rest: Bytes): Bytes
    requires Terminated(h)
  {
    Net16(VERSION) + (Net16(WireLength(h)) + (Net32(h.sequenceNumber) + (Net32(h.flags) +
    (Net32(h.controlData) + (Net32(h.payloadLength) + rest)))))
  }

  lemma WireNested(h: Header, junk: Bytes)
    requires Terminated(h)
    ensures Wire(h) + junk == Net16(MARKER) + FixedWire(h,
              WireString(CStr(h.topic)) + (WireString(CStr(h.replyTopic)) + (Net16(MARKER) + junk)))
  {}

  /** Decoding what was encoded, over any old struct contents and whatever follows. */
  lemma DecodeWire(h0: Header, h: Header, junk: Bytes)
    requires Terminated(h) && |Wire(h) + junk| >= MAX_HEADER
    ensures var t, r := CStr(h.topic), CStr(h.replyTopic);
            Decoded(h0, Wire(h) + junk) ==
              (Header(VERSION, WireLength(h), h.sequenceNumber, h.flags, h.controlData, h.payloadLength,
                      |t|, Overwrite(h0.topic, t, |t|), |r|, Overwrite(h0.replyTopic, r, |r|)), true)
  {
    var t, r := CStr(h.topic), CStr(h.replyTopic);
    var first := WireString(t) + (WireString(r) + (Net16(MARKER) + junk));
    WireNested(h, junk);
    Net16Host(MARKER, FixedWire(h, first));
    DecodeFixedWire(h0, VERSION, WireLength(h), h, first);
    var s := Wire(h) + junk;
    assert s[22..] == s[2..][20..];
    DecodeTopicsWire(DecodeFixed(h0, s[2..]), t, r, junk);
  }

  /** Decode inverts Encode exactly when the struct it fills holds a NUL where each
      topic ends, as it does after Init: DecodeStr copies no terminator. */
  lemma RoundTripIff(h0: Header, h: Header, junk: Bytes)
    requires Terminated(h) && |Wire(h) + junk| >= MAX_HEADER
    ensures var (h', ok) := Decoded(h0, Wire(h) + junk);
            && ok && h'.headerLength == |Wire(h)| && h'.topicLength == |CStr(h.topic)|
            && h'.replyTopicLength == |CStr(h.replyTopic)|
            && (ContentOf(h') == ContentOf(h) <==>
                  h0.topic[|CStr(h.topic)|] == 0 && h0.replyTopic[|CStr(h.replyTopic)|] == 0)
  {
    DecodeWire(h0, h, junk);
    var t, r := CStr(h.topic), CStr(h.replyTopic);
    CStrIs(Overwrite(h0.topic, t, |t|), t);
    CStrIs(Overwrite(h0.replyTopic, r, |r|), r);
  }

  /** A stale struct: the struct still holds "AB", the header read has no topic. The client's
      reader decodes into such a struct when it tries again after a failed attempt, since
      all attempts share one message record. */
  lemma StaleTopic(h0: Header)
    requires CStr(h0.topic) == [65, 66]
    ensures Terminated(INIT)
    ensures var s := Wire(INIT) + Zeros(MAX_HEADER);
            Decoded(h0, s).1 && ContentOf(Decoded(h0, s).0) != ContentOf(INIT)
  {
    assert h0.topic[0] == CStr(h0.topic)[0];
    InitTerminated();
    RoundTripIff(h0, INIT, Zeros(MAX_HEADER));
  }

  // ---------------------------------------------------------- rtrouted's copies

  /** strncpy of at most TOPIC_SIZE - 1 bytes into a zeroed array. */
  function StrNCpy(s: CharArray): (r: CharArray)
  {
    Overwrite(ZEROS, s, if |CStr(s)| < TOPIC_SIZE then |CStr(s)| else TOPIC_SIZE - 1)
  }

  /** The header rtRouted_ForwardMessage sends on (build without encryption). */
  function Forward(h: Header, subscription: UInt32): Header {
    Header(h.version, h.headerLength, h.sequenceNumber, h.flags, subscription, h.payloadLength,
           h.topicLength, StrNCpy(h.topic), h.replyTopicLength, StrNCpy(h.replyTopic))
  }

  const REQUEST: UInt32 := 0x01
  const RESPONSE: UInt32 := 0x02
  const UNDELIVERABLE: UInt32 := 0x04

  /** prep_reply_header_from_request. */
  function ReplyTo(h: Header): Header {
    Header(h.version, h.headerLength, h.sequenceNumber, RESPONSE, 0, 0,
           h.replyTopicLength, StrNCpy(h.replyTopic), h.topicLength, StrNCpy(h.topic))
  }

  lemma StrNCpyContent(s: CharArray)
    requires 0 in s
    ensures CStr(StrNCpy(s)) == CStr(s) && 0 in StrNCpy(s)
  {
    var r := StrNCpy(s);
    CStrIs(r, CStr(s));
    assert r[TOPIC_SIZE - 1] == 0;
  }

  lemma FreshRoundTrip(h: Header, junk: Bytes)
    requires Terminated(h) && |Wire(h) + junk| >= MAX_HEADER
    ensures Decoded(INIT, Wire(h) + junk).1 && Terminated(Decoded(INIT, Wire(h) + junk).0)
    ensures ContentOf(Decoded(INIT, Wire(h) + junk).0) == ContentOf(h)
  {
    RoundTripIff(INIT, h, junk);
    var h' := Decoded(INIT, Wire(h) + junk).0;
    assert |CStr(h'.topic)| < TOPIC_SIZE && |CStr(h'.replyTopic)| < TOPIC_SIZE;
  }

  /** Sent, read by the broker, forwarded, read by the subscriber: only the control data
      has become the subscription's id. */
  lemma ForwardPreserves(h: Header, subscription: UInt32, junk: Bytes, junk': Bytes)
    requires Terminated(h) && |Wire(h) + junk| >= MAX_HEADER && |junk'| >= MAX_HEADER
    ensures var atBroker := Decoded(INIT, Wire(h) + junk).0;
            var sentOn := Forward(atBroker, subscription);
            && Terminated(sentOn)
            && Decoded(INIT, Wire(sentOn) + junk').1
            && ContentOf(Decoded(INIT, Wire(sentOn) + junk').0) == ContentOf(h).(controlData := subscription)
  {
    FreshRoundTrip(h, junk);
    var atBroker := Decoded(INIT, Wire(h) + junk).0;
    StrNCpyContent(atBroker.topic);
    StrNCpyContent(atBroker.replyTopic);
    FreshRoundTrip(Forward(atBroker, subscription), junk');
  }

  /** A reply header carries the request's sequence number back to its reply topic. */
  lemma ReplyTurnsAround(h: Header)
    requires Terminated(h)
    ensures Terminated(ReplyTo(h))
    ensures ContentOf(ReplyTo(h)) == Content(CStr(h.replyTopic), CStr(h.topic), h.sequenceNumber, RESPONSE, 0, 0)
  {
    StrNCpyContent(h.topic);
    StrNCpyContent(h.replyTopic);
  }

  // ------------------------------------------------------------ the header object

  class MessageHeader {
    var version: UInt16
    var headerLength: UInt16
    var sequenceNumber: UInt32
    var flags: UInt32
    var controlData: UInt32
    var payloadLength: UInt32
    var topicLength: UInt32
    var topic: CharArray
    var replyTopicLength: UInt32
    var replyTopic: CharArray

    function View(): Header
      reads this
    {
      Header(version, headerLength, sequenceNumber, flags, controlData, payloadLength,
             topicLength, topic, replyTopicLength, replyTopic)
    }

    constructor ()
      ensures View() == INIT
    {
      version, headerLength, sequenceNumber, flags, controlData, payloadLength := VERSION, 0, 0, 0, 0, 0;
      topicLength, topic, replyTopicLength, replyTopic := 0, ZEROS, 0, ZEROS;
    }

    method Init()
      modifies this
      ensures View() == INIT
    {
      version, headerLength, sequenceNumber, flags, controlData, payloadLength := VERSION, 0, 0, 0, 0, 0;
      topicLength, topic, replyTopicLength, replyTopic := 0, ZEROS, 0, ZEROS;
    }

    /** Writes header_length bytes, records that length, and touches nothing else. */
    method Encode(buff: array<Byte>)
      requires Terminated(View()) && buff.Length >= MAX_HEADER
      modifies this`headerLength, buff
      ensures headerLength == WireLength(old(View()))
      ensures buff[..headerLength] == Wire(old(View()))
      ensures forall i :: headerLength <= i < buff.Length ==> buff[i] == old(buff[i])
    {
      ghost var h := View();
      var t, r := CStr(topic), CStr(replyTopic);
      headerLength := SIZE_WITHOUT_STRINGS + |t| + |r|;
      var at := EncodeFixed(buff);
      at := EncodeString(buff, at, t);
      at := EncodeString(buff, at, r);
      at := EncodeUInt16(buff, at, MARKER);
      WireLeft(h);
    }

    /** The part of Encode before the strings. */
    method EncodeFixed(buff: array<Byte>) returns (at: nat)
      requires buff.Length >= MAX_HEADER
      modifies buff
      ensures at == 22 && buff[..22] == FixedLeft(View())
      ensures forall i :: 22 <= i < buff.Length ==> buff[i] == old(buff[i])
    {
      at := EncodeUInt16(buff, 0, MARKER);
      at := EncodeUInt16(buff, at, VERSION);
      at := EncodeUInt16(buff, at, headerLength);
      at := EncodeUInt32(buff, at, sequenceNumber);
      at := EncodeUInt32(buff, at, flags);
      at := EncodeUInt32(buff, at, controlData);
      at := EncodeUInt32(buff, at, payloadLength);
    }

    method DecodeFixedPart(buff: array<Byte>)
      requires buff.Length >= MAX_HEADER
      modifies this
      ensures View() == DecodeFixed(old(View()), buff[2..])
    {
      FixedFields(View(), buff[2..]);
      assert forall i :: 0 <= i < 20 ==> buff[2..][i] == buff[i + 2];
      version := DecodeUInt16(buff, 2);
      headerLength := DecodeUInt16(buff, 4);
      sequenceNumber := DecodeUInt32(buff, 6);
      flags := DecodeUInt32(buff, 10);
      controlData := DecodeUInt32(buff, 14);
      payloadLength := DecodeUInt32(buff, 18);
    }

    /** Fills the struct from the buffer; on failure the fields before the fault have changed. */
    method Decode(buff: array<Byte>) returns (ok: bool)
      requires buff.Length >= MAX_HEADER
      modifies this
      ensures (View(), ok) == Decoded(old(View()), buff[..])
    {
      if DecodeUInt16(buff, 0) != MARKER {
        return false;
      }
      DecodeFixedPart(buff);
      assert buff[..][2..] == buff[2..] && buff[..][22..] == buff[22..];
      ok := DecodeTopicPart(buff, 22);
    }

    method DecodeTopicPart(buff: array<Byte>, at: nat) returns (ok: bool)
      requires at + 2 * (4 + TOPIC_SIZE - 1) + 2 <= buff.Length
      modifies this`topicLength, this`topic, this`replyTopicLength, this`replyTopic
      ensures (View(), ok) == DecodeTopics(old(View()), buff[at..])
    {
      ghost var h, s := View(), buff[at..];
      topicLength := DecodeUInt32(buff, at);
      if topicLength >= TOPIC_SIZE {
        ok := false;
        TopicTooLong(h, s, topicLength);
        assert View() == h.(topicLength := topicLength);
      } else {
        ghost var mid := h.(topicLength := topicLength, topic := Overwrite(h.topic, s[4..], topicLength));
        assert s[4..] == buff[at + 4..] && s[4 + topicLength..] == buff[at + 4 + topicLength..];
        DecodeTopicsStep(h, s, topicLength, mid, s[4 + topicLength..]);
        ghost var rest := buff[at + 4 + topicLength..];
        ok := DecodeTopicReply(buff, at + 4, mid);
        assert (View(), ok) == DecodeReply(mid, rest);
      }
    }

    /** From the topic's bytes on; `mid` is the struct with them in it. */
    method DecodeTopicReply(buff: array<Byte>, at: nat, ghost mid: Header) returns (ok: bool)
      requires topicLength < TOPIC_SIZE && at + topicLength + 4 + (TOPIC_SIZE - 1) + 2 <= buff.Length
      requires mid == View().(topic := Overwrite(topic, buff[at..], topicLength))
      modifies this`topic, this`replyTopicLength, this`replyTopic
      ensures (View(), ok) == DecodeReply(mid, buff[at + old(topicLength)..])
    {
      DecodeTopic(buff, at);
      assert View() == mid;
      ok := DecodeReplyPart(buff, at + topicLength);
    }

    /** memcpy of the topic's bytes, without a terminator. */
    method DecodeTopic(buff: array<Byte>, at: nat)
      requires at + topicLength <= buff.Length && topicLength <= TOPIC_SIZE
      modifies `topic
      ensures topic == Overwrite(old(topic), buff[at..], topicLength)
    {
      assert buff[at..][..topicLength] == buff[at..at + topicLength];
      topic := buff[at..at + topicLength] + topic[topicLength..];
    }

    method DecodeReplyPart(buff: array<Byte>, at: nat) returns (ok: bool)
      requires at + 4 + (TOPIC_SIZE - 1) + 2 <= buff.Length
      modifies this`replyTopicLength, this`replyTopic
      ensures (View(), ok) == DecodeReply(old(View()), buff[at..])
    {
      ghost var s := buff[at..];
      replyTopicLength := DecodeUInt32(buff, at);
      if replyTopicLength >= TOPIC_SIZE {
        return false;
      }
      ghost var k := replyTopicLength;
      replyTopic := buff[at + 4..at + 4 + replyTopicLength] + replyTopic[replyTopicLength..];
      assert s[4..][..k] == buff[at + 4..at + 4 + k];
      ok := DecodeUInt16(buff, at + 4 + replyTopicLength) == MARKER;
    }
  }

  function DecodeUInt16(buff: array<Byte>, at: nat): UInt16
    requires at + 2 <= buff.Length
    reads buff
  {
    buff[at] as int * 0x100 + buff[at + 1]
  }

  function DecodeUInt32(buff: array<Byte>, at: nat): UInt32
    requires at + 4 <= buff.Length
    reads buff
  {
    buff[at] as int * 0x100_0000 + buff[at + 1] as int * 0x1_0000 + buff[at + 2] as int * 0x100 + buff[at + 3]
  }

  function FixedLeft(h: Header): Bytes {
    Net16(MARKER) + Net16(VERSION) + Net16(h.headerLength) + Net32(h.sequenceNumber) + Net32(h.flags)
    + Net32(h.controlData) + Net32(h.payloadLength)
  }

  lemma WireLeft(h: Header)
    requires Terminated(h)
    ensures Wire(h) == FixedLeft(h.(headerLength := WireLength(h))) + WireString(CStr(h.topic))
                       + WireString(CStr(h.replyTopic)) + Net16(MARKER)
  {}
}
