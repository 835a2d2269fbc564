/** The broker's reader on streams with bytes between the frames that are no frames: it starts
    over behind them. */
module Resync {
  import opened MessageHeader
  import opened Framing

  /** A preamble with a wrong marker or version. */
  predicate BadPreamble(j: Bytes) {
    |j| == PREAMBLE_LENGTH && (Host16(j) != MARKER || Host16(j[2..]) != VERSION)
  }

  /** A good preamble, and a header of the length it announces that cannot be decoded whatever
      stands behind it in the buffer. */
  ghost predicate BadHeader(j: Bytes) {
    && PREAMBLE_LENGTH < |j| <= READ_BUFFER_SIZE && Host16(j) == MARKER && Host16(j[2..]) == VERSION
    && Host16(j[4..]) == |j| && Undecodable(j)
  }

  ghost predicate Undecodable(j: Bytes) {
    forall rest: Bytes {:trigger j + rest} :: |j + rest| >= MAX_HEADER ==> !Decoded(INIT, j + rest).1
  }

  /** One that announces a topic longer than the header can hold is such a header. */
  lemma LongTopicUndecodable(j: Bytes)
    requires |j| >= 26 && Host32(j[22..]) >= TOPIC_SIZE
    ensures Undecodable(j)
  {
    forall rest: Bytes | |j + rest| >= MAX_HEADER ensures !Decoded(INIT, j + rest).1 {
      var s := j + rest;
      assert forall i :: 22 <= i < 26 ==> s[22..][i - 22] == s[i] == j[i] == j[22..][i - 22];
    }
  }

  datatype Item = Good(frame: Frame) | Junk(bytes: Bytes)

  ghost predicate Skippable(i: Item) { i.Junk? ==> BadPreamble(i.bytes) || BadHeader(i.bytes) }

  function ItemBytes(i: Item): Bytes { match i case Good(f) => Raw(f) case Junk(j) => j }

  function ItemsBytes(items: seq<Item>): Bytes {
    if items == [] then [] else ItemBytes(items[0]) + ItemsBytes(items[1..])
  }

  function FramesOf(items: seq<Item>): seq<Frame> {
    if items == [] then []
    else match items[0]
      case Good(f) => [f] + FramesOf(items[1..])
      case Junk(_) => FramesOf(items[1..])
  }

  // ------------------------------------------------------------------- one item

  lemma ReceivedStarts(c: Client, j: Bytes)
    requires c.bytesRead == 0 && |j| <= |c.buffer|
    ensures Received(c, j).buffer == j + c.buffer[|j|..]
  {}

  lemma PreambleSeen(j: Bytes, rest: Bytes)
    requires |j| >= PREAMBLE_LENGTH
    ensures var s := j[..PREAMBLE_LENGTH] + rest;
            Host16(s) == Host16(j) && Host16(s[2..]) == Host16(j[2..]) && Host16(s[4..]) == Host16(j[4..])
  {
    var s := j[..PREAMBLE_LENGTH] + rest;
    assert forall i :: 0 <= i < 6 ==> s[i] == j[i];
  }

  lemma SkipPreamble(c: Client, j: Bytes, tail: Bytes, memory: Memory) returns (c': Client)
    requires Between(c) && BadPreamble(j)
    ensures Between(c') && FeedWhole(c, j + tail, memory) == FeedWhole(c', tail, memory)
  {
    var c0 := Received(c, j);
    assert (j + tail)[..6] == j && (j + tail)[6..] == tail;
    var s, rest := WholeStep(c, j + tail, j, tail, memory);
    ReceivedStarts(c, j);
    assert j[..6] == j;
    PreambleSeen(j, c.buffer[6..]);
    c' := s.client;
    assert s == Step(Restarted(c0), []);
    AfterNothing(c', rest);
  }

  /** The first read of a bad header: the reader waits for the rest of it. */
  lemma EnterHeader(c: Client, j: Bytes, tail: Bytes, memory: Memory) returns (c1: Client)
    requires Between(c) && BadHeader(j)
    ensures FeedWhole(c, j + tail, memory) == FeedWhole(c1, j[6..] + tail, memory)
    ensures c1.state == ReadHeader && c1.bytesRead == 6 && c1.bytesToRead == |j| && c1.header == INIT
    ensures |c1.buffer| == READ_BUFFER_SIZE && c1.buffer[..6] == j[..6]
  {
    assert (j + tail)[..6] == j[..6] && (j + tail)[6..] == j[6..] + tail;
    var s, rest := WholeStep(c, j + tail, j[..6], j[6..] + tail, memory);
    ReceivedStarts(c, j[..6]);
    PreambleSeen(j, c.buffer[6..]);
    c1 := s.client;
    assert s == Step(c1, []);
    AfterNothing(c1, rest);
  }

  /** The rest of a bad header is in. */
  lemma HeaderFails(c: Client, j: Bytes, c0: Client, memory: Memory)
    requires BadHeader(j) && c.state == ReadHeader && c.bytesRead == 6 && c.bytesToRead == |j| && c.header == INIT
    requires |c.buffer| == READ_BUFFER_SIZE && c.buffer[..6] == j[..6] && c0 == Received(c, j[6..])
    ensures |c0.buffer| >= MAX_HEADER && c0.state == ReadHeader
    ensures Advance(c0, memory).dispatched == [] && Between(Advance(c0, memory).client)
  {
    assert c0.buffer == j + c.buffer[|j|..] by { assert j == j[..6] + j[6..]; }
    HeaderUndecoded(j, c.buffer[|j|..], c0);
  }

  lemma HeaderUndecoded(j: Bytes, rest: Bytes, c: Client)
    requires Undecodable(j) && |j + rest| == READ_BUFFER_SIZE && c.buffer == j + rest && c.header == INIT
    requires c.state == ReadHeader && c.bytesRead == c.bytesToRead
    ensures !Decoded(c.header, c.buffer).1
  {}

  lemma LeaveHeader(c: Client, j: Bytes, tail: Bytes, memory: Memory) returns (c': Client)
    requires BadHeader(j) && c.state == ReadHeader && c.bytesRead == 6 && c.bytesToRead == |j| && c.header == INIT
    requires |c.buffer| == READ_BUFFER_SIZE && c.buffer[..6] == j[..6]
    ensures Between(c') && FeedWhole(c, j[6..] + tail, memory) == FeedWhole(c', tail, memory)
  {
    var left := j[6..];
    Slices(left, tail, 0, |left|);
    assert left[0..] + tail == left + tail && left[0..|left|] == left && left[|left|..] + tail == tail;
    var s, rest := WholeStep(c, left + tail, left, tail, memory);
    HeaderFails(c, j, Received(c, left), memory);
    c' := s.client;
    assert s == Step(c', []);
    AfterNothing(c', rest);
  }

  lemma SkipJunk(c: Client, j: Bytes, tail: Bytes, memory: Memory) returns (c': Client)
    requires Between(c) && (BadPreamble(j) || BadHeader(j))
    ensures Between(c') && FeedWhole(c, j + tail, memory) == FeedWhole(c', tail, memory)
  {
    if BadPreamble(j) {
      c' := SkipPreamble(c, j, tail, memory);
    } else {
      var c1 := EnterHeader(c, j, tail, memory);
      c' := LeaveHeader(c1, j, tail, memory);
    }
  }

  lemma TakeFrame(c: Client, f: Frame, tail: Bytes, memory: Memory) returns (c': Client)
    requires Between(c)
    ensures FeedWhole(c, Raw(f) + tail, memory) == AfterFrame(f, c', FeedWhole(c', tail, memory))
    ensures f.payload != [] ==> Between(c')
  {
    var input := Raw(f) + tail;
    var sizes := seq(|input|, i => 0);
    Enters(c, f, tail, sizes, memory);
    var r := FeedFrame(Run(c, sizes, Feed(c, input, sizes, memory)), f, 0, |Raw(f)|, tail, memory);
    c' := r.client;
    AnyCutIsWhole(c, input, sizes, memory);
    AnyCutIsWhole(c', tail, r.sizes, memory);
  }

  // -------------------------------------------------------------------- streams

  lemma {:induction false} FeedItems(c: Client, items: seq<Item>, memory: Memory)
    requires Between(c) && forall i :: i in items ==> Skippable(i)
    ensures FeedWhole(c, ItemsBytes(items), memory) == Expected(FramesOf(items))
    decreases |items|
  {
    if items == [] {
    } else {
      var tail := ItemsBytes(items[1..]);
      assert items[0] in items && forall i :: i in items[1..] ==> i in items;
      match items[0]
      case Good(f) =>
        var c' := TakeFrame(c, f, tail, memory);
        ExpectedFirst(FramesOf(items), c');
        if f.payload != [] { FeedItems(c', items[1..], memory); }
      case Junk(j) =>
        var c' := SkipJunk(c, j, tail, memory);
        FeedItems(c', items[1..], memory);
    }
  }

  /** However a stream of frames with such junk between them is cut: the frames are delivered as
      if the junk were not there. */
  lemma JunkIsSkipped(items: seq<Item>, sizes: seq<nat>, memory: Memory)
    requires (forall i :: i in items ==> Skippable(i)) && |sizes| >= |ItemsBytes(items)|
    ensures Delivers(Feed(Start(memory), ItemsBytes(items), sizes, memory), FramesOf(items))
  {
    AnyCutIsWhole(Start(memory), ItemsBytes(items), sizes, memory);
    FeedItems(Start(memory), items, memory);
  }
}
