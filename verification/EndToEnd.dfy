/** A message's whole way: framed by its sender, read by the broker, dispatched, forwarded
    and decoded by the subscriber. */
module EndToEnd {
  import opened Counters
  import opened Sequences
  import opened TopicTree
  import opened TreeQueries
  import opened MessageHeader
  import opened Framing
  import opened Broker
  import FlatBroker
  import Listeners
  import Requests

  lemma BrokerHeader(f: Frame)
    ensures Terminated(HeaderAtBroker(f)) && ContentOf(HeaderAtBroker(f)) == ContentOf(f.header)
  {
    MessageIsFrame(f);
    var h := HeaderAtBroker(f);
    assert |CStr(h.topic)| < TOPIC_SIZE && |CStr(h.replyTopic)| < TOPIC_SIZE;
  }

  /** The broker looks up the topic that the sender wrote into the header. */
  lemma TopicAsSent(f: Frame, topic: string)
    requires (forall c :: c in topic ==> c as int < 0x100) && CStr(f.header.topic) == BytesOf(topic)
    ensures TopicText(HeaderAtBroker(f)) == topic
  {
    MessageIsFrame(f);
    TextRoundTrip(topic);
  }

  /** What rtRouted_ForwardMessage sends for a subscription. */
  function Forwarded(f: Frame, id: UInt32): AnyFrame { AnyFrame.Frame(Forward(HeaderAtBroker(f), id), f.payload) }

  lemma ForwardedRight(f: Frame, id: UInt32)
    ensures WellFormed(Forwarded(f, id))
    ensures ContentOf(Forwarded(f, id).header) == ContentOf(f.header).(controlData := id)
  {
    BrokerHeader(f);
    StrNCpyContent(HeaderAtBroker(f).topic);
    StrNCpyContent(HeaderAtBroker(f).replyTopic);
  }

  /** A receiver that decodes the frame into an initialised struct, whatever lies behind it
      in the buffer, gets the sender's content and finds the payload after the header. */
  ghost predicate Understood(g: Frame, content: Content, payload: Bytes, junk: Bytes) {
    |Raw(g) + junk| >= MAX_HEADER ==>
      var (h, ok) := Decoded(INIT, Raw(g) + junk);
      && ok && ContentOf(h) == content && h.payloadLength == |payload|
      && h.headerLength + h.payloadLength == |Raw(g)| && Raw(g)[h.headerLength..] == payload
  }

  lemma FrameUnderstood(g: Frame, junk: Bytes)
    ensures Understood(g, ContentOf(g.header), g.payload, junk)
  {
    if |Raw(g) + junk| >= MAX_HEADER {
      assert Raw(g) + junk == Wire(g.header) + (g.payload + junk);
      RoundTripIff(INIT, g.header, g.payload + junk);
      FreshRoundTrip(g.header, g.payload + junk);
    }
  }

  /** The i-th thing the broker does with the message is to send it to the client, as a frame
      it understands as the publisher's, with the subscription's id as control data. */
  ghost predicate IsSent(b: State, f: Frame, client: ClientId, id: UInt32, junk: Bytes, i: nat) {
    && Shape(b.tree.nodes) && Terminated(HeaderAtBroker(f)) && Dispatchable(b, HeaderAtBroker(f))
    && var out, g := Dispatched(b, HeaderAtBroker(f), f.payload), Forwarded(f, id);
       && i < |out| && out[i] == Sent(client, g.header, g.payload) && WellFormed(g)
       && Understood(g, ContentOf(f.header).(controlData := id), f.payload, junk)
  }

  /** The i-th listed route of a published message, if it is a subscriber's, gets it. */
  lemma PublishedIsHeard(b: State, f: Frame, i: nat, junk: Bytes)
    requires Inv(b) && Terminated(HeaderAtBroker(f)) && IndexReliable(b, HeaderAtBroker(f))
    requires i < |Listed(b, HeaderAtBroker(f))| && Dispatchable(b, HeaderAtBroker(f))
    requires !b.entries[Listed(b, HeaderAtBroker(f))[i].data].internal
    ensures var e := b.entries[Listed(b, HeaderAtBroker(f))[i].data]; IsSent(b, f, e.client, e.id, junk, i)
  {
    var h := HeaderAtBroker(f);
    DispatchRight(b, h, f.payload);
    var e := b.entries[Listed(b, h)[i].data];
    ForwardedRight(f, e.id);
    FrameUnderstood(Forwarded(f, e.id), junk);
  }

  lemma AnsweredAt(t: Tree, exp: string, ptr: RouteData) returns (i: nat)
    requires Shape(t.nodes) && Answers(t, exp, ptr)
    ensures i < |GetTopicRoutes(t, exp)| && GetTopicRoutes(t, exp)[i].data == ptr
  {
    var h :| h in GetTopicRoutes(t, exp) && h.data == ptr;
    i :| 0 <= i < |GetTopicRoutes(t, exp)| && GetTopicRoutes(t, exp)[i] == h;
  }

  /** The i-th listed route of a message, if it is the broker's own: its handler is given the
      message as the sender framed it, header content and payload. */
  lemma OwnHandlerIsGiven(b: State, f: Frame, i: nat)
    requires Inv(b) && Terminated(HeaderAtBroker(f)) && IndexReliable(b, HeaderAtBroker(f))
    requires i < |Listed(b, HeaderAtBroker(f))| && Dispatchable(b, HeaderAtBroker(f))
    requires b.entries[Listed(b, HeaderAtBroker(f))[i].data].internal
    ensures var out := Dispatched(b, HeaderAtBroker(f), f.payload);
            i < |out| && out[i] == Handled(HeaderAtBroker(f), f.payload)
    ensures ContentOf(HeaderAtBroker(f)) == ContentOf(f.header)
  {
    DispatchRight(b, HeaderAtBroker(f), f.payload);
    BrokerHeader(f);
  }

  /** After start-up with these topics, whatever is done that spares the broker's own route, a
      message to one of them is given to its handler. */
  lemma OwnTopicIsHandled(topics: seq<string>, ptr: RouteData, acts: seq<Act>, b: State, f: Frame, topic: string)
    returns (i: nat)
    requires Goes(START, [Boot(topics, ptr)] + acts, b) && topic in topics && topic != ""
    requires FlatBroker.OwnKept(topics, ptr, topic, acts, b)
    requires Terminated(HeaderAtBroker(f)) && FlatBroker.FullTopics(HeaderAtBroker(f))
    requires TopicText(HeaderAtBroker(f)) == topic
    ensures Inv(b) && Dispatchable(b, HeaderAtBroker(f))
    ensures var out := Dispatched(b, HeaderAtBroker(f), f.payload);
            i < |out| && out[i] == Handled(HeaderAtBroker(f), f.payload)
    ensures ContentOf(HeaderAtBroker(f)) == ContentOf(f.header)
  {
    FlatBroker.OwnRouteStays(topics, ptr, acts, b, topic);
    i := AnsweredAt(b.tree, topic, ptr);
    DispatchRight(b, HeaderAtBroker(f), f.payload);
    OwnHandlerIsGiven(b, f, i);
  }

  /** The topics of rtrouted's own route are such topics. */
  lemma OwnTopicsNamed(topic: string)
    requires topic in BOOT_TOPICS
    ensures topic != "" && !EndsInDot(topic)
  {
    TopicLengths();
    InboxTopicsPlain();
    DiscoveryTopicsPlain();
    var i :| 0 <= i < |BOOT_TOPICS| && BOOT_TOPICS[i] == topic;
  }

  lemma SubscriptionIsSent(b: State, client: ClientId, r: Request, ptr: RouteData, acts: seq<Act>, b': State, f: Frame,
                           junk: Bytes) returns (i: nat)
    requires FlatBroker.Ruled(b) && r.add && r.topic != "" && FindById(b.routes, b.entries, client, r.routeId).None?
    requires Goes(b, [Hear(client, r, ptr)] + acts, b')
    requires FlatBroker.Kept(b, Hear(client, r, ptr), r.topic, ptr, FlatBroker.SubscriptionEntry(client, r), acts, b')
    requires Terminated(HeaderAtBroker(f)) && FlatBroker.FullTopics(HeaderAtBroker(f))
    requires var topic := TopicText(HeaderAtBroker(f));
             topic == r.topic || FlatBroker.LeadsTo(b', topic, FlatBroker.Place(FlatBroker.SubsOf(b), r.topic))
    ensures IsSent(b', f, client, r.routeId, junk, i)
  {
    var topic := TopicText(HeaderAtBroker(f));
    FlatBroker.SubscriptionStays(b, client, r, ptr, acts, b', topic);
    i := AnsweredAt(b'.tree, topic, ptr);
    DispatchRight(b', HeaderAtBroker(f), f.payload);
    PublishedIsHeard(b', f, i, junk);
  }

  /** From a client's AddListener on: whatever the others do that spares its subscription,
      and whatever else it adds and removes, a message to the expression, or to a topic that
      leads where the expression was registered, is sent to the client as a frame it
      understands, and the control data in it finds the callback. */
  lemma SubscriberIsCalled(b: State, client: ClientId, r: Request, ptr: RouteData, acts: seq<Act>, b': State, f: Frame,
                           junk: Bytes, l: Listeners.Table, callback: Listeners.Callback, ops: seq<Listeners.Op>)
    returns (i: nat)
    requires FlatBroker.Ruled(b) && r.add && r.topic != "" && FindById(b.routes, b.entries, client, r.routeId).None?
    requires Goes(b, [Hear(client, r, ptr)] + acts, b')
    requires FlatBroker.Kept(b, Hear(client, r, ptr), r.topic, ptr, FlatBroker.SubscriptionEntry(client, r), acts, b')
    requires Terminated(HeaderAtBroker(f)) && FlatBroker.FullTopics(HeaderAtBroker(f))
    requires var topic := TopicText(HeaderAtBroker(f));
             topic == r.topic || FlatBroker.LeadsTo(b', topic, FlatBroker.Place(FlatBroker.SubsOf(b), r.topic))
    requires Listeners.Inv(l) && l.issued + 1 + |ops| < WRAP && r.routeId == l.issued + 1
    requires Listeners.Add(l, r.topic, callback).1 == Listeners.Done && Listeners.RemoveListener(r.topic) !in ops
    ensures IsSent(b', f, client, r.routeId, junk, i)
    ensures var l' := Listeners.Run(Listeners.Add(l, r.topic, callback).0, ops);
            Listeners.CallbackFor(l', r.routeId) == Some(callback)
  {
    i := SubscriptionIsSent(b, client, r, ptr, acts, b', f, junk);
    Listeners.AddedIsCalled(l, r.topic, callback, ops);
  }

  /** What the broker sends back for a request nobody listens for. */
  function Bounced(f: Frame, id: UInt32): AnyFrame
    requires Terminated(HeaderAtBroker(f))
  {
    AnyFrame.Frame(Forward(Bounce(HeaderAtBroker(f)), id), [])
  }

  /** Its content: the request's, to the reply topic, flagged as an undeliverable response. */
  function BouncedContent(f: Frame, id: UInt32): Content {
    var c := ContentOf(f.header);
    Content(c.replyTopic, c.replyTopic, c.sequenceNumber, BouncedFlags(c.flags), id, 0)
  }

  lemma BouncedRight(f: Frame, id: UInt32)
    requires Terminated(HeaderAtBroker(f))
    ensures WellFormed(Bounced(f, id)) && ContentOf(Bounced(f, id).header) == BouncedContent(f, id)
  {
    BrokerHeader(f);
    var h := Bounce(HeaderAtBroker(f));
    BounceContent(HeaderAtBroker(f));
    StrNCpyContent(h.topic);
    StrNCpyContent(h.replyTopic);
  }

  /** The reader takes a message for a response when the flag says so, and makes this of it;
      `t` is the request it is for. */
  function ResponseOf(c: Content, payload: Bytes, t: Requests.Ticket): Requests.Response
    requires HasFlag(c.flags, RESPONSE)
  {
    Requests.Response(c.sequenceNumber, HasFlag(c.flags, UNDELIVERABLE), payload, t)
  }

  /** A response that carries the number of a pending request without aliases settles it. */
  lemma SettledBy(c: Requests.Table, r: Requests.Response)
    requires Requests.Inv(c) && r.answers in c.entries && Requests.Faithful(r)
    requires forall u :: u in c.pending ==> !Requests.Alias(u, r.answers)
    ensures var c1 := Requests.Deliver(c, r);
            && r.answers in c1.entries
            && Requests.Next(c1, Requests.Collect(r.answers)).results[r.answers] ==
                 if r.undeliverable then Requests.NoLongerAvailable else Requests.Answered(r)
  {
    Requests.ReceiverExact(c.pending, r);
  }

  /** The reply topic as the broker reads it. */
  function ReplyText(f: Frame): string { TextOf(CStr(f.header.replyTopic)) }

  lemma BouncesToReply(f: Frame)
    requires Terminated(HeaderAtBroker(f))
    ensures TopicText(Bounce(HeaderAtBroker(f))) == ReplyText(f)
  {
    BrokerHeader(f);
    BounceContent(HeaderAtBroker(f));
  }

  /** The call waiting under `t` returns RT_OBJECT_NO_LONGER_AVAILABLE once the bounce is in. */
  ghost predicate ReturnsGone(f: Frame, id: UInt32, c: Requests.Table, t: Requests.Ticket) {
    && HasFlag(BouncedContent(f, id).flags, RESPONSE)
    && var c1 := Requests.Deliver(c, ResponseOf(BouncedContent(f, id), [], t));
       t in c1.entries && Requests.Next(c1, Requests.Collect(t)).results[t] == Requests.NoLongerAvailable
  }

  /** The call is waiting with the number of the request, which no other pending one has. */
  ghost predicate Waits(f: Frame, c: Requests.Table, t: Requests.Ticket) {
    && Requests.Inv(c) && t in c.entries && f.header.sequenceNumber == Requests.SeqOf(t)
    && forall u :: u in c.pending ==> !Requests.Alias(u, t)
  }

  lemma SettledAsGone(f: Frame, id: UInt32, c: Requests.Table, t: Requests.Ticket)
    requires Waits(f, c, t)
    ensures ReturnsGone(f, id, c, t)
  {
    BouncedFlagsRight(f.header.flags);
    SettledBy(c, ResponseOf(BouncedContent(f, id), [], t));
  }

  /** The i-th thing the broker does with the request is to send it back to the client, who
      understands it as an undeliverable response with the request's number. */
  ghost predicate SentBack(b: State, f: Frame, client: ClientId, ptr: RouteData, junk: Bytes, i: nat) {
    && Shape(b.tree.nodes) && Terminated(HeaderAtBroker(f)) && Dispatchable(b, HeaderAtBroker(f)) && ptr in b.entries
    && var out := Dispatched(b, HeaderAtBroker(f), f.payload);
       var g := Bounced(f, b.entries[ptr].id);
       && i < |out| && out[i] == Sent(client, g.header, g.payload) && WellFormed(g)
       && Understood(g, BouncedContent(f, b.entries[ptr].id), [], junk)
  }

  /** A request nobody listens for: the client whose route `ptr` is at its reply topic is sent
      the bounce, and its waiting call returns. */
  lemma UnmatchedRequestReturns(b: State, f: Frame, client: ClientId, ptr: RouteData, junk: Bytes,
                                c: Requests.Table, t: Requests.Ticket) returns (i: nat)
    requires Broker.Inv(b) && Terminated(HeaderAtBroker(f)) && IndexReliable(b, HeaderAtBroker(f))
    requires Listed(b, HeaderAtBroker(f)) == [] && HasFlag(f.header.flags, REQUEST)
    requires Answers(b.tree, ReplyText(f), ptr) && ptr in b.entries && OwnedBy(b.entries[ptr], client)
    requires Waits(f, c, t)
    ensures SentBack(b, f, client, ptr, junk, i) && ReturnsGone(f, b.entries[ptr].id, c, t)
  {
    var h, id := HeaderAtBroker(f), b.entries[ptr].id;
    DispatchRight(b, h, f.payload);
    BouncesToReply(f);
    i := AnsweredAt(b.tree, ReplyText(f), ptr);
    BouncedRight(f, id);
    FrameUnderstood(Bounced(f, id), junk);
    SettledAsGone(f, id, c, t);
  }

  /** From the requester's hello on: whatever the others do in between that spares its inbox,
      its request to a
      topic nobody listens to comes back to itself. */
  lemma RequesterIsTold(b: State, client: ClientId, ptr: RouteData, acts: seq<Act>, b': State, f: Frame, junk: Bytes,
                        c: Requests.Table, t: Requests.Ticket, hello: Act) returns (i: nat)
    requires hello == Hello(client, ReplyText(f), ptr) && FlatBroker.Ruled(b) && Goes(b, [hello] + acts, b')
    requires FlatBroker.Kept(b, hello, ReplyText(f), ptr, FlatBroker.InboxEntry(client, ReplyText(f)), acts, b')
    requires Terminated(HeaderAtBroker(f)) && FlatBroker.FullTopics(HeaderAtBroker(f)) && ReplyText(f) != ""
    requires HasFlag(f.header.flags, REQUEST) && Waits(f, c, t)
    ensures Broker.Inv(b') && ptr in b'.entries
    ensures Listed(b', HeaderAtBroker(f)) == [] ==> SentBack(b', f, client, ptr, junk, i)
    ensures ReturnsGone(f, b'.entries[ptr].id, c, t)
  {
    BouncesToReply(f);
    FlatBroker.InboxStays(b, client, ReplyText(f), ptr, acts, b');
    SettledAsGone(f, b'.entries[ptr].id, c, t);
    i := 0;
    if Listed(b', HeaderAtBroker(f)) == [] {
      i := UnmatchedRequestReturns(b', f, client, ptr, junk, c, t);
    }
  }

  /** The call waiting under `t` returns RT_OK with this payload once the response is in. */
  ghost predicate ReturnsPayload(content: Content, payload: Bytes, c: Requests.Table, t: Requests.Ticket) {
    && HasFlag(content.flags, RESPONSE)
    && var c1 := Requests.Deliver(c, ResponseOf(content, payload, t));
       && t in c1.entries && Requests.Next(c1, Requests.Collect(t)).results[t].Answered?
       && Requests.Next(c1, Requests.Collect(t)).results[t].r.body == payload
  }

  lemma SettledAsAnswered(f: Frame, content: Content, c: Requests.Table, t: Requests.Ticket)
    requires Waits(f, c, t) && content.flags == f.header.flags && content.sequenceNumber == f.header.sequenceNumber
    requires HasFlag(f.header.flags, RESPONSE) && !HasFlag(f.header.flags, UNDELIVERABLE)
    ensures ReturnsPayload(content, f.payload, c, t)
  {
    SettledBy(c, ResponseOf(content, f.payload, t));
  }

  /** From the requester's hello on, whatever the others do that spares its inbox: a response to
      its inbox with its request's number is sent to it as a frame it understands, and its call
      returns RT_OK with the responder's payload. */
  lemma ResponseIsReceived(b: State, client: ClientId, ptr: RouteData, acts: seq<Act>, b': State, f: Frame, junk: Bytes,
                           c: Requests.Table, t: Requests.Ticket, inbox: string) returns (i: nat)
    requires FlatBroker.Ruled(b) && Goes(b, [Hello(client, inbox, ptr)] + acts, b') && inbox != ""
    requires FlatBroker.Kept(b, Hello(client, inbox, ptr), inbox, ptr, FlatBroker.InboxEntry(client, inbox), acts, b')
    requires Terminated(HeaderAtBroker(f)) && FlatBroker.FullTopics(HeaderAtBroker(f))
    requires TopicText(HeaderAtBroker(f)) == inbox && Waits(f, c, t)
    requires HasFlag(f.header.flags, RESPONSE) && !HasFlag(f.header.flags, UNDELIVERABLE)
    ensures IsSent(b', f, client, 0, junk, i)
    ensures ReturnsPayload(ContentOf(f.header).(controlData := 0), f.payload, c, t)
  {
    FlatBroker.InboxStays(b, client, inbox, ptr, acts, b');
    i := AnsweredAt(b'.tree, inbox, ptr);
    DispatchRight(b', HeaderAtBroker(f), f.payload);
    PublishedIsHeard(b', f, i, junk);
    SettledAsAnswered(f, ContentOf(f.header).(controlData := 0), c, t);
  }
}
