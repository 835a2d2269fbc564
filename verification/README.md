# rtMessage, modelled and proved

rtMessage is a publish/subscribe bus: the broker `rtrouted`, the client library
`rtConnection`, and the containers and codecs under both. This project models its
logic in Dafny and proves what the code promises of it.

How a part is modelled follows how it is written. Each group has a value specification
(what one call does to the whole state), lemmas about that specification (invariants over
whole runs, refinements, round trips), and a class or a method with the source's own loops
and updates that is proved to do what the specification says.

- **Routing tree** (`TopicTree`, `TreeInvariant`, `TreeQueries`, `TreeNames`, `TreeRefinement`,
  `TreeSteps`, `Tokenizer`, `RoutingTree`): topics and routes with links both ways, the derived
  index `routeList2`, table placeholders, pruning, and the refinement of every run to a flat
  picture, names with their placeholders and a map from names to routes. A topic is named by its
  path. A route record is named by the caller's pointer and a serial number, so that a freed
  record and a later one for the same pointer stay apart.
- **Broker and wire** (`MessageHeader`, `Framing`, `FramingBounds`, `Resync`, `Broker`, `FlatBroker`,
  `Rtrouted`, `EndToEnd`): the header codec, the incremental reader fed arbitrary recv chunks and
  arbitrary bytes, subscriptions, disconnects, dispatch with its one bounce, the refinement of
  the broker to a flat table of subscriptions, a message's whole way from publisher to
  subscriber's callback, and an unmatched request's way back to its caller.
- **Concurrency** (`ThreadPool`, `Requests`, `Callbacks`, `Listeners`): one step per region
  between lock and unlock; theorems are over every interleaving of the steps.
- **Containers and codecs** (`List`, `Vector`, `HashMap`, `Base64`): the linked list with its free
  list on real objects and links, the growing vector in its array, the rehashing map, the
  text codec against section 4 of RFC 4648.
- **Data provider** (`Utility`, `Provider`): splitting and trimming of queries, and resolution of
  paths with row ids.
- `Sequences`, `Text` and `Counters` hold what the others share.

Where the code does not do what its comments or its callers count on, the model follows the
code, and a lemma says exactly when the promise holds:

- RemoveTopic leaves freed records in the index of the topics above
  (`TreeInvariant.CutExactIff`, `TreeQueries.StaleAfterRemoveTopic`).
- The duplicate check tests whether a list was ever made, not whether it holds a route
  (`TreeInvariant.RefusedIff`, `TreeQueries.EmptiedTopicRefuses`,
  `TreeRefinement.EmptiedTopicArises`).
- The child scan counts on names like row ids never being registered and on `{i}` being the only
  placeholder. Clients register inboxes that end in a process id, and nothing checks the other.
  Row ids do no harm: in every run they stand before the placeholders and are found by name
  (`TreeNames.ReachableFindsByName`). Of two spellings of the placeholder the one registered first
  answers (`TreeRefinement.FirstPlaceholderAnswers`). The refinement holds with either.
- Unsubscribing an expression the sender has no route for cuts that topic away whoever is
  registered there or below (`Broker.UnsubscribeSparesIff`, `Broker.UnsubscribeHits`).
  `FlatBroker.ActSparesIff` says exactly which acts take a client's route away.
- A client that asks twice for `_RTROUTED.ADVISORY` under one id leaves a freed route in the
  tree when it goes (`Broker.SubscribeKeepsIff`, `Broker.AdvisoryTwice`, `Broker.AdvisoryDangles`).
- A header decoded into a struct that is not freshly initialised may keep the end of an older
  topic (`MessageHeader.RoundTripIff`, `MessageHeader.StaleTopic`). The retry loop of
  rtConnection_Read (rtConnection.c:1492-1582) decodes into such structs.
- A frame without payload makes the next recv ask for nothing, which reads as the end of the
  stream (`Framing.StreamDelivered`).
- The broker's reader takes header and payload lengths on trust
  (`FramingBounds.AnyStreamBoundedIff`, `FramingBounds.ShortHeaderBreaks`).
- A task submitted while some free worker is about to leave after a time-out and nobody is busy or
  on the way to the queue may be run by nobody: the signal may find no waiting thread, or be used
  up by the one that leaves (`ThreadPool.RunTaskStrandsIff`, `ThreadPool.TaskStranded`,
  `ThreadPool.SignalLost`), and StopAllThread can find tasks queued with nobody busy
  (`ThreadPool.StopWhenIdle`, `ThreadPool.StopCanCancel`).
- RunTask counts a worker only once that has the lock, so tasks in quick succession create more
  workers than the maximum (`ThreadPool.MaximumKeptIff`, `ThreadPool.MaximumExceeded`).
- The shrink test of the hash map divides integers and so halves every table above the least size
  that has three nodes to four buckets or fewer
  (`HashMap.RemoveKeepsLightIff`, `HashMap.RemoveTooFull`).
- The Base64 decoder ignores left-over bits and whatever follows a first padding character
  (`Base64.EncodesBackIff`, `Base64.LastCharIgnored`).
- A set query whose name has no dot hangs the trimming loop unless some prefix the loop gets to
  reads Name={...} (`Utility.EndsIffCanTrim`, `Utility.Hangs`).

`dafny verify dfyconfig.toml` checks the whole project.

## Model

| member | source | states |
|---|---|---|
| TopicTree.FindKid | rtRoutingTree.c:168-204 | the child a name leads to is a listed child that equals the name or is a `{` placeholder for a digit-led, `[` or `*` token; no child is returned only if none matches |
| TopicTree.FindRoute | rtRoutingTree.c:215-234 | the record found has the caller's pointer, and none is found only if no registered record has it |
| TopicTree.EnsureKidShape | rtRoutingTree.c:162-213 | a child is found or hung in so that sibling names stay distinct and the tree stays a tree |
| TopicTree.Outside | rtRoutingTree.c:144 | dropping a subtree from a topic list keeps exactly the topics outside it and no repeats |
| TopicTree.Surviving | rtRoutingTree.c:145-148 | the records that remain are exactly those whose topic list did not just run empty |
| TreeInvariant.WalkCreateFollowsWalk | rtRoutingTree.c:459-463 | the creating walk ends where the plain walk ends, and reports a creation for the last token exactly if the plain walk finds nothing |
| TreeInvariant.AddKeepsInvIff | rtRoutingTree.c:436-482 | AddTopicRoute keeps the whole invariant (back links agree both ways, no repeats, distinct siblings, registered records) if and only if the topic does not list that pointer's route yet or err_on_dup is set and the topic is not the advisory one; the index stays exact when the pair is new |
| TreeInvariant.RefusedIff | rtRoutingTree.c:465-470 | the duplicate error is returned exactly for an existing topic that ever had a route list, never for the advisory topic |
| TreeInvariant.RejectedReAdd | rtRoutingTree.c:465-470 | registering a route again where it is listed, with an error on duplicates, is refused and changes nothing in the tree |
| TreeInvariant.RemoveRouteKeeps | rtRoutingTree.c:591-605 | RemoveRoute keeps the invariant and the exactness of the index, and takes out exactly the records of that pointer |
| TreeInvariant.RemoveRouteKeepsNeeded | rtRoutingTree.c:265-321 | from every tree the invariant allows, dead branches included, RemoveRoute keeps exactly the topics some other route needs, their other routes in order, and leaves no leaf without a route |
| TreeInvariant.LeafHasRoute | rtRoutingTree.c:303-308 | after pruning a topic other than the root has a child or a route |
| TreeInvariant.CutKeeps | rtRoutingTree.c:132-182 | cutting a topic away with its subtree keeps the invariant: every record forgets exactly the topics cut |
| TreeInvariant.CutAssigned | rtRoutingTree.c:132-182 | RemoveTopic drops exactly the topic-route pairs of the cut subtree |
| TreeInvariant.CutExactIff | rtRoutingTree.c:607-625 | RemoveTopic leaves the index exact if and only if the topic hangs at the root or every route of the doomed subtree is also assigned elsewhere below its parent |
| TreeInvariant.RemoveTopicKeeps | rtRoutingTree.c:607-625 | RemoveTopic keeps the invariant whatever the expression |
| TreeInvariant.StepKeepsInv | rtRoutingTree.c:436-625 | one call of any mutator keeps the invariant; one that is not RemoveTopic and ties no pair again keeps the index exact |
| TreeInvariant.RunKeepsInv | rtRoutingTree.c:436-625 | the same over whole runs from any tree that satisfies the invariant |
| TreeInvariant.ReachableInv | rtRoutingTree.c:420-625 | every tree built up from nothing satisfies the invariant, and its index is exact as long as RemoveTopic was not used |
| TreeQueries.TokenizeRoundTrip | rtRoutingTree.c:111-130 | the tokens joined by dots, with a final dot put back, are the expression; only the empty expression has none |
| TreeQueries.FullNamesDistinct | rtRoutingTree.c:61-69 | different topics have different full names |
| TreeQueries.FullNameExtends | rtRoutingTree.c:61-69 | a child's full name is its parent's, a dot and its own name |
| TreeQueries.ResolveCorrect | rtRoutingTree.c:627-665 | with an exact index ResolvePartialPath names one topic for each distinct route assigned below the path and for no other, and each is a topic that route is assigned to |
| TreeQueries.StaleAfterRemoveTopic | rtRoutingTree.c:607-625 | a concrete two-level tree whose index lists a freed record after RemoveTopic |
| TreeQueries.WalkNorm | rtRoutingTree.c:162-213 | where topics are not named like row instances and `{i}` is the only placeholder, the child scan down the tree is one lookup of the normalised path |
| TreeQueries.InstanceTokensInvisible | rtRoutingTree.c:185-202 | replacing `{i}` tokens by instance ids, aliases or wildcards does not change what a lookup returns |
| TreeQueries.RowFindsPlaceholder | rtRoutingTree.c:185-202 | a digit-led id, a bracketed alias and `*` each lead where `{i}` leads, wherever in the expression they stand |
| TreeNames.FoundByName | rtRoutingTree.c:170-204 | where names like row ids stand before the placeholders, a token finds the child of its own name, and only if there is none does a row id, alias or wildcard find the first placeholder |
| TreeNames.RunKeepsRows | rtRoutingTree.c:162-213 | every run of mutators keeps names like row ids before the placeholders in every list of children |
| TreeNames.ReachableFindsByName | rtRoutingTree.c:162-213 | so in every tree built up from nothing the child scan finds by name whenever the name is registered, whatever row ids and placeholders were registered in whatever order |
| TreeRefinement.WalkIsSeek | rtRoutingTree.c:162-213 | where row ids stand before placeholders, as in every run, the child scan down the tree is a search through the names: the name itself, or else the first placeholder for a row id, alias or wildcard |
| TreeRefinement.AddIsFlat | rtRoutingTree.c:436-482 | AddTopicRoute, return code included, does to the flat picture (names, the placeholders of each in order, tables, topics with a list, routes by path in registration order, known pointers) exactly what the flat operation does, which places the route where its tokens lead and makes a name where they lead nowhere |
| TreeRefinement.DropRouteIsFlat | rtRoutingTree.c:591-605 | so does RemoveRoute: the pointer goes from every path, and a name stays exactly if a route is left at or below it |
| TreeRefinement.DropTopicIsFlat | rtRoutingTree.c:607-625 | so does RemoveTopic: the names at and below go, and with them every pointer that loses its last topic |
| TreeRefinement.TreeRefinesFlat | rtRoutingTree.c:436-625 | every run of mutators on the tree is a run of the flat picture and ends as what the flat run comes to, with no rule for the names registered |
| TreeRefinement.TreeFollowsFlat | rtRoutingTree.c:436-625 | and the tree goes through every run the flat picture allows |
| TreeRefinement.LookupIsFlat | rtRoutingTree.c:484-575 | GetTopicRoutes of a full path answers from the flat picture, a table for its `{i}` row |
| TreeRefinement.PartialIsFlat | rtRoutingTree.c:484-575 | with an exact index a path with a final dot is answered by exactly the pointers registered below it, each once |
| TreeRefinement.RunAnswersFlat | rtRoutingTree.c:420-625 | after every run from the empty tree every full path is answered by the pointers registered there and not removed, in registration order |
| TreeRefinement.FirstPlaceholderAnswers | rtRoutingTree.c:185-202 | two calls that register two spellings of the placeholder below one topic, in either order, leave the same names and routes, and the one registered first answers for the row ids |
| TreeRefinement.AddKeepsFound | rtRoutingTree.c:436-482 | an expression that leads to a topic leads there after any AddTopicRoute of any expression |
| TreeRefinement.DropRouteKeepsFound | rtRoutingTree.c:591-605 | and after any RemoveRoute as long as the topic lists another pointer |
| TreeRefinement.CutKeepsFound | rtRoutingTree.c:607-625 | and after any RemoveTopic that does not take that topic away |
| TreeRefinement.EmptiedTopicArises | rtRoutingTree.c:465-470 | three calls lead to a topic that answers nobody and still refuses a registration as a duplicate |
| TreeQueries.AddedIsAnsweredIff | rtRoutingTree.c:549-574 | a pointer new to the tree will be among the routes returned for the expression it is added under exactly when the Add is not refused and the topic is not yet there or is no table |
| TreeQueries.EmptiedTopicRefuses | rtRoutingTree.c:465-470 | a topic that lost its only route but stays for routes below it answers nobody and still refuses a registration as a duplicate |
| TreeSteps.AssignInSteps | rtRoutingTree.c:475-480 | pushing the route and propagating upwards step by step marks exactly the strict ancestors below the root |
| TreeSteps.PruneSomeStep | rtRoutingTree.c:281-320 | one round of the depth-first loop takes the tree from having the first kids done to having one more done |
| TreeSteps.CutRecords | rtRoutingTree.c:132-160 | dropping topic-route pairs one at a time over the subtree leaves the same records as taking the subtree's topics out of every list at once |
| Tokenizer.WorkArea.TokenizeExpression | rtRoutingTree.c:111-130 | for expressions that fit the work area, the k-th recorded token is the k-th piece of the expression, NUL-terminated inside the buffer |
| Tokenizer.Tokens | rtRoutingTree.c:111-130 | reading the work area back gives the expression's pieces in order |
| RoutingTree.RoutingTree.ScanKids | rtRoutingTree.c:168-204 | the loop over the children returns the first that matches |
| RoutingTree.RoutingTree.CreateTreeTopic | rtRoutingTree.c:56-85 | appends one empty topic to the parent and flags the parent when the name opens with `{` |
| RoutingTree.RoutingTree.EnsureChild | rtRoutingTree.c:162-213 | finds or creates the child and says which |
| RoutingTree.RoutingTree.Descend | rtRoutingTree.c:496-502 | the token loop ends at the topic the whole path leads to, or at none |
| RoutingTree.RoutingTree.GetTreeRoute | rtRoutingTree.c:215-234 | finds the registered record of a caller pointer |
| RoutingTree.RoutingTree.OptimizeTopicsBackpropagate | rtRoutingTree.c:256-263 | adds the route once to the index of the topic and of every ancestor below the root |
| RoutingTree.RoutingTree.EnsureTreeRoute | rtRoutingTree.c:450-457 | makes and registers a record only for an unknown pointer |
| RoutingTree.RoutingTree.EnsureTopic | rtRoutingTree.c:459-463 | walks the tokens, creating what is missing, and reports whether the last was created |
| RoutingTree.RoutingTree.AssignTo | rtRoutingTree.c:472-480 | pushes the route, records the topic once, updates the strict ancestors |
| RoutingTree.RoutingTree.AddTopicRoute | rtRoutingTree.c:436-482 | the whole new tree and the return code are those of the specification about which the invariant and refinement lemmas speak |
| RoutingTree.RoutingTree.GetTopicRoutes | rtRoutingTree.c:484-575 | returns the routes the specification gives for full paths, tables and partial paths, and changes nothing |
| RoutingTree.RoutingTree.ResolvePartialPath | rtRoutingTree.c:627-665 | returns the full name of the first topic of each indexed route, in index order |
| RoutingTree.RoutingTree.FinishChild | rtRoutingTree.c:293-308 | takes the route out of a child's two lists and the child out of the tree if nothing is left of it |
| RoutingTree.RoutingTree.RemoveRouteFromTopicTree | rtRoutingTree.c:272-321 | the recursion leaves exactly the pruned subtree, everything else as it was |
| RoutingTree.RoutingTree.RemoveRoute | rtRoutingTree.c:591-605 | the whole new tree is that of the specification |
| RoutingTree.RoutingTree.DropTopicFromRoute | rtRoutingTree.c:144-148 | takes one topic out of a record and the record out of the tree when its list runs empty |
| RoutingTree.RoutingTree.DropTopicFromItsRoutes | rtRoutingTree.c:139-151 | the loop does so for every route of the topic |
| RoutingTree.RoutingTree.RemoveTopicFromRoutes | rtRoutingTree.c:132-160 | the recursion does so for every topic of the subtree |
| RoutingTree.RoutingTree.RemoveChild | rtRoutingTree.c:177-182 | cuts the child with its subtree and fixes up the records |
| RoutingTree.RoutingTree.RemoveTopic | rtRoutingTree.c:607-625 | the whole new tree is that of the specification; only an exact match as first match is cut |
| MessageHeader.EncodeUInt16 | rtEncoder.c:79-86 | writes the two bytes most significant first at the cursor and nothing elsewhere |
| MessageHeader.EncodeUInt32 | rtEncoder.c:26-33 | the same for four bytes |
| MessageHeader.EncodeString | rtEncoder.c:46-58 | writes the length and the bytes, and nothing behind them |
| MessageHeader.Net32Host | rtEncoder.c:26-44 | reading a number back from its network bytes gives the number and leaves the rest of the input |
| MessageHeader.CStr | rtMessageHeader.c:63-64 | the C string is the part before the first NUL, the whole array if there is none |
| MessageHeader.DecodeWire | rtMessageHeader.c:86-134 | decoding an encoded header over any old struct succeeds and fills every field, with the topics copied over what the arrays held |
| MessageHeader.RoundTripIff | rtMessageHeader.c:50-134 | Decode inverts Encode for topic, reply topic, sequence number, flags, control data and payload length if and only if the struct decoded into holds a NUL where each topic ends |
| MessageHeader.StaleTopic | rtEncoder.c:60-66 | a concrete stale struct for which decoding does not give the header that was encoded |
| MessageHeader.DecodedIff | rtMessageHeader.c:86-134 | bytes are decoded if and only if the marker stands at both ends and both topics are shorter than their arrays, whatever the struct held |
| MessageHeader.FailureLeaves | rtMessageHeader.c:90-105 | a decoder that fails behind the start marker has filled in the fixed fields and the topic length all the same |
| MessageHeader.InitContent | rtMessageHeader.c:28-39 | a header that has just been initialised says nothing |
| MessageHeader.FreshRoundTrip | rtMessageHeader.c:27-134 | into an initialised struct Decode always inverts Encode |
| MessageHeader.ForwardPreserves | rtrouted.c:671-692 | encode, decode, unencrypted forward, encode, decode changes nothing but control_data, which becomes the subscription id |
| MessageHeader.ReplyTurnsAround | rtrouted.c:778-797 | a reply header goes to the reply topic with the request's sequence number and only the response flag |
| MessageHeader.MessageHeader.Init | rtMessageHeader.c:27-48 | every field gets its initial value, both arrays all NUL |
| MessageHeader.MessageHeader.Encode | rtMessageHeader.c:50-84 | writes exactly header_length bytes, the wire form, touches nothing behind them and records that length |
| MessageHeader.MessageHeader.Decode | rtMessageHeader.c:86-134 | the struct and the return code are those of the decoding function, failures included |
| Framing.IntoInBounds | rtrouted.c:1548-1678 | inside a frame bytes_read <= bytes_to_read <= capacity, and a recv asks for nothing exactly at the end of a frame without payload |
| Framing.ReadOne | rtrouted.c:1569-1674 | one recv of any size moves the reader on inside the frame by that much, or completes it and dispatches its header and payload |
| Framing.FeedFrame | rtrouted.c:1548-1678 | all reads of the rest of a frame, from any position inside it and whatever recv returns, dispatch it once and go on behind it, or read as the end of the stream if it has no payload |
| Framing.StreamDelivered | rtrouted.c:1520-1527 | for every cut of the stream into recv chunks the frames before the first one without payload are dispatched once each and in order, the counters stay in bounds throughout, and the stream reads as closed exactly if there is a frame without payload |
| Framing.MessageIsFrame | rtrouted.c:1610-1625 | the header the broker holds has the sender's content |
| FramingBounds.AdvanceBoundsIff | rtrouted.c:1588-1645 | for bytes of any kind one recv leaves the counters within the buffer and the range of int if and only if a header length it completes is at least 6 and at most the buffer, and a payload length it completes leaves the new size an int |
| Framing.CutsAgree | rtrouted.c:1548-1678 | for bytes of any kind two cuts of one stream into recv chunks give the same messages, end alike and keep or leave the bounds alike |
| FramingBounds.AnyStreamBoundedIff | rtrouted.c:1548-1678 | for every stream of bytes, however it is cut, the counters stay in bounds throughout if and only if every length in the bytes that the reader comes upon fits, which is a condition on the bytes alone |
| FramingBounds.ShortHeaderBreaks | rtrouted.c:1604-1605 | the right marker and version and a header length under 6 take the counters out of bounds |
| FramingBounds.HeaderBoundedIff | rtrouted.c:1588-1645 | an encoded header, however it is cut, is read in bounds if and only if twice the header and the payload it announces fit an int |
| Resync.JunkIsSkipped | rtrouted.c:1598-1625 | preambles with a wrong marker or version, and headers that cannot be decoded, between the frames of a stream are skipped, however it is cut: the frames are delivered as if they were not there |
| Resync.LongTopicUndecodable | rtMessageHeader.c:100-106 | a header that announces a topic longer than the struct can hold is one that cannot be decoded |
| Framing.ConnectedClient.Reset | rtrouted.c:1520-1527 | back to waiting for a preamble, with an initialised header |
| Framing.ConnectedClient.Receive | rtrouted.c:1569-1584 | copies the chunk behind what is there and counts it |
| Framing.ConnectedClient.OnPreamble | rtrouted.c:1588-1608 | a wrong marker or version starts over; otherwise the header length is asked for |
| Framing.ConnectedClient.DecodeHeader | rtrouted.c:1614 | decodes the buffer into the header struct and changes nothing else |
| Framing.ConnectedClient.AfterHeader | rtrouted.c:1614-1645 | a bad header starts over; after a good one the payload is asked for and the buffer grown if it is too small |
| Framing.ConnectedClient.OnPayload | rtrouted.c:1648-1673 | hands header and payload to the dispatcher once, starts over and shrinks a grown buffer |
| Framing.ConnectedClient.Read | rtrouted.c:1548-1678 | a recv of nothing closes; any other does one step of the reader specification, dispatches included |
| Broker.AddRouteKeeps | rtrouted.c:426-437 | a new route with a fresh pointer keeps tree, vector and live entries in agreement |
| Broker.AliasKeepsIff | rtrouted.c:469-480 | an alias keeps them in agreement if and only if it is not the advisory topic registered again by its own route |
| Broker.ClearRouteKeeps | rtrouted.c:482-491 | clearing a route removes exactly its pointer from the tree and keeps the agreement |
| Broker.SubscribeKeepsIff | rtrouted.c:799-876 | a subscribe or unsubscribe message keeps the agreement if and only if it is not that repeated advisory subscription |
| Broker.AdvisoryTwice | rtrouted.c:469-480 | from every state any client gets there by subscribing to the advisory topic twice under one new id |
| Broker.AdvisoryDangles | rtrouted.c:469-491 | after a repeated advisory subscription, clearing the route leaves the topic listing a freed pointer |
| Broker.UnsubscribeSparesIff | rtrouted.c:849-870 | an unsubscribe leaves every other client's routes, and what every topic lists of them, as they were if and only if the sender has a route of that expression or everything at and below the topic cut away is its own |
| Broker.UnsubscribeHits | rtrouted.c:866-870 | a concrete client without routes whose unsubscribe takes another client's topic away |
| Broker.ClearClientRight | rtrouted.c:493-507 | after a disconnect the vector is the old one filtered in order, no record and no list of the tree has the client's routes, the index has of them at most records freed before (none if it was exact), and everybody else's routes keep their topics and order |
| Broker.GoneClientHearsNothing | rtrouted.c:493-507 | whatever the other clients do after that, no dispatch sends anything to a client that has been cleared |
| Broker.NewRouteHeardIff | rtrouted.c:426-437 | a new route for a topic not ending in a dot is among those the topic is answered with exactly when the topic was not there or was no table before |
| Broker.SubscriberHeardIff | rtrouted.c:834-839 | so a client that subscribes under a new id is a receiver exactly then |
| Broker.SubscribedIsFoundIff | rtrouted.c:834-862 | a route subscribed under a new id is the one that an unsubscribe of the same expression by the same sender finds, if and only if the expression fits the entry |
| Broker.UnsubscribeClears | rtrouted.c:849-865 | an unsubscribe by a sender that has a route of the expression clears one such route from vector, entries and every list, and all other routes keep their places |
| Broker.UnsubscribeUndoes | rtrouted.c:834-865 | subscribing under a new id and unsubscribing again leaves vector, entries and what every topic lists as they were |
| Broker.FoundByIdIsFirst | rtrouted.c:825-833 | the lookup by id takes the first such route of the vector |
| Broker.FoundByExpressionIsFirst | rtrouted.c:852-862 | and so does the lookup by expression |
| Broker.AddTopicsKeeps | rtrouted.c:1899-1911 | one pointer may be registered without an error on duplicates under any number of different topics |
| Broker.BootTopicsDiffer | rtrouted.c:1905-1911 | the six topics of the broker's own route are different topics without row ids |
| Broker.BrokerReachable | rtrouted.c:426-507 | tree, vector and live entries agree after every sequence of start-up (one route under all its topics), hellos, subscribe messages and disconnects without that repetition |
| Broker.BouncedFlagsRight | rtrouted.c:1503-1504 | the bounce clears the request flag, sets response and undeliverable, and leaves the other flags |
| Broker.BounceContent | rtrouted.c:1502-1505 | the bounced header has the reply topic as topic, the request's sequence number and no payload |
| Broker.ListIsLive | rtrouted.c:1459-1471 | the list dispatch walks holds live routes, each once; for a topic ending in a dot this needs an exact index |
| Broker.DispatchRight | rtrouted.c:1444-1518 | a matched message goes to each listed route once and is not bounced; an unmatched request is turned around exactly once; nothing else happens to an unmatched message |
| FlatBroker.TakeIsFlat | rtrouted.c:426-507 | start-up, hello, subscribe message and disconnect do to the flat broker (vector, entries and the flat picture of the tree) exactly what its own operations do, whatever topics are registered |
| FlatBroker.DispatchIsFlat | rtrouted.c:1444-1518 | for full topics what dispatch does, bounce included, is told by the flat broker alone: one event for each subscription, in the order they were made |
| FlatBroker.RunRefinesFlat | rtrouted.c:426-507 | every run of the broker is a run of the flat broker and ends as what that comes to |
| FlatBroker.RunFollowsFlat | rtrouted.c:426-507 | and the broker goes through every run the flat broker allows |
| FlatBroker.StartUpFits | rtrouted.c:1899-1911 | start-up is such a run |
| FlatBroker.BrokerIsFlat | rtrouted.c:426-1518 | after every run from start-up the broker sends every message to a full topic to exactly the live subscriptions to it, once each and in order, and bounces an unmatched request once |
| FlatBroker.ActSparesIff | rtrouted.c:426-507 | one act of anybody leaves a client's route listed at its topic, with its expression leading there, if and only if it is not that client's leaving, nor an unsubscribe that drops this very route, nor one that cuts the topic away; all of it can be told before the act |
| FlatBroker.StaysListed | rtrouted.c:426-507 | so over every run of such acts, other clients' unsubscribes included, the route stays listed and its expression goes on leading there |
| FlatBroker.InboxStays | rtrouted.c:893-912 | so a client's inbox goes on being answered with its route after its hello, as long as nobody makes a table of it |
| FlatBroker.SubscriptionStays | rtrouted.c:834-839 | so does a client's new subscription, for every topic that leads to where it was registered |
| FlatBroker.UnsubscribedLater | rtrouted.c:849-865 | after any run that spares a subscription its client can take it back: exactly that route goes from vector, entries and lists |
| FlatBroker.OthersDoNotFind | rtrouted.c:856 | no other client's unsubscribe finds a route |
| FlatBroker.AliasIsRegistered | rtrouted.c:455-467 | a subscribe message under an id in use registers that route at one more topic, or is refused as a duplicate and leaves the tree's topics as they were |
| FlatBroker.UnsubscribedTopicGone | rtrouted.c:863-868 | an unsubscribe that finds no route takes the topic away with all below it, and leaves what every other topic lists |
| FlatBroker.OwnRouteStays | rtrouted.c:1899-1911 | after start-up the broker's own route goes on being answered at each of its topics whatever is done that spares it |
| Rtrouted.Router.AddRoute | rtrouted.c:426-437 | registers entry, vector slot and topic |
| Rtrouted.Router.ClearRoute | rtrouted.c:482-491 | takes the route out of vector and tree and frees it |
| Rtrouted.Router.ClearClientRoutes | rtrouted.c:493-507 | the loop, which stays put after a removal, terminates and clears exactly the client's routes in vector order |
| Rtrouted.Router.FindRouteById | rtrouted.c:825-833 | finds the sender's first route with the id |
| Rtrouted.Router.FindRouteByExpression | rtrouted.c:852-862 | finds the sender's first route with the expression |
| Rtrouted.Router.OnMessageSubscribe | rtrouted.c:799-876 | alias, new route, removed route or removed topic, as the specification says |
| Rtrouted.Router.HandToRoutes | rtrouted.c:1460-1494 | one event per listed route, in list order |
| Rtrouted.Router.DispatchMessageFromClient | rtrouted.c:1444-1518 | terminates after at most two passes with the events of the specification |
| EndToEnd.FrameUnderstood | rtConnection.c:1492-1551 | a receiver that decodes a frame into an initialised struct gets the sender's content and finds the payload right behind the header |
| EndToEnd.PublishedIsHeard | rtrouted.c:671-776 | each subscriber listed for a published message is sent a frame it understands as the publisher's content and payload, with its own subscription id as control data |
| EndToEnd.OwnHandlerIsGiven | rtrouted.c:1484-1485 | the broker's own route, where it is listed for a message, is given the message's header content and payload |
| EndToEnd.OwnTopicIsHandled | rtrouted.c:1444-1911 | so after start-up and any run that spares the own route a message to one of its topics is handed to its handler with the sender's content and payload |
| EndToEnd.OwnTopicsNamed | rtrouted.c:1905-1911 | the start-up topics are such topics |
| EndToEnd.TopicAsSent | rtrouted.c:1444-1470 | the topic looked up is the text the sender wrote into the header |
| EndToEnd.SubscriptionIsSent | rtrouted.c:834-1518 | after a client's subscribe message under a new id and any run that spares its route, a message to the expression, or to a topic that leads to the same place, is sent to the client as a frame it understands with that id as control data |
| EndToEnd.SubscriberIsCalled | rtConnection.c:1298-1310 | so from AddListener on such a message reaches the client and its control data finds the callback, whatever else the client adds and removes |
| EndToEnd.SettledBy | rtConnection.c:1092-1117 | a response with the number of a pending request that has no alias settles that request: unavailable if flagged undeliverable, answered otherwise |
| EndToEnd.UnmatchedRequestReturns | rtrouted.c:1495-1509 | a request nobody listens for is sent back to the client whose route is at its reply topic, as an empty response flagged undeliverable with its number, and the call waiting for that number returns RT_OBJECT_NO_LONGER_AVAILABLE |
| EndToEnd.RequesterIsTold | rtrouted.c:893-1509 | from the requester's hello on, after any run that spares its inbox, unsubscribes of others included, its request to a topic nobody listens to comes back to itself and its call returns |
| EndToEnd.ResponseIsReceived | rtConnection.c:1092-1609 | and a response to its inbox with its request's number is sent to it as a frame it understands, and its call returns RT_OK with the responder's payload |
| ThreadPool.StepKeepsInv | rtThreadPool.c:89-336 | every locked region keeps: the counters count the workers, tasks start in submission order, and each submission is queued, running on one worker or done |
| ThreadPool.BusyAtMostStarted | rtThreadPool.c:121-131 | busyThreadCount never exceeds threadCount |
| ThreadPool.RunTaskStrandsIff | rtThreadPool.c:293-336 | RunTask leaves its task with somebody to run it, whichever thread the signal reaches, except in exactly these states: the counters show a free worker, some worker has timed out and not left yet, and nobody is busy or on the way to the queue |
| ThreadPool.StepStrandsNobody | rtThreadPool.c:115-155 | no other step strands a queued task |
| ThreadPool.ReachableSafe | rtThreadPool.c:89-336 | in every interleaving with at least one worker allowed and no RunTask in such a state, no queued task is stranded |
| ThreadPool.EveryTaskIsKept | rtThreadPool.c:89-336 | in every interleaving at all the tasks of all calls of RunTask, and no others, are queued, running or done, and are started in the order of the calls |
| ThreadPool.RunTaskQueues | rtThreadPool.c:299-332 | RunTask puts its task behind those queued and takes none away, and reports it pending if and only if all started workers are busy and no more are allowed |
| ThreadPool.RunTaskTouches | rtThreadPool.c:312-332 | it brings in a new worker exactly when all started ones are busy and more are allowed, wakes at most the waiting worker the signal reaches, and touches nobody else |
| ThreadPool.MaximumKeptIff | rtThreadPool.c:319-326 | it takes the pool over its maximum if and only if all started workers are busy, fewer than the maximum have started and the others are created and not through their first lock |
| ThreadPool.OnlyRunTaskCreates | rtThreadPool.c:115-155 | nothing else brings a worker in |
| ThreadPool.MaximumExceeded | rtThreadPool.c:319-326 | two tasks in a row give a new pool of one two workers |
| ThreadPool.StopStops | rtThreadPool.c:261-263 | from the stop on, whatever happens, no task is started, queued tasks stay queued and no worker is left waiting |
| ThreadPool.CanLeave | rtThreadPool.c:121-155 | and the workers of a stopped pool can all leave, each with one step |
| ThreadPool.LoneWorker | rtThreadPool.c:115-141 | a pool of one runs its first task and waits |
| ThreadPool.TaskStranded | rtThreadPool.c:142-145 | from there the window leads to a queued task with no worker at all |
| ThreadPool.PairStarted | rtThreadPool.c:115-131 | a pool of two runs its first two tasks |
| ThreadPool.PairWaits | rtThreadPool.c:115-141 | both workers wait, and one of them times out |
| ThreadPool.SignalLost | rtThreadPool.c:140-145 | from there a timed-out worker that uses up the signal leaves a task queued with nobody but a sleeping worker |
| ThreadPool.CanDrain | rtThreadPool.c:115-132 | from every safe state the workers on their own can get through the whole queue |
| ThreadPool.StopWhenIdle | rtThreadPool.c:265-269 | a stopper who sees nobody busy finds the queue empty unless some worker is woken or created and not yet through the lock |
| ThreadPool.StopCanCancel | rtThreadPool.c:265-269 | the comment's assumption fails: a pool stopped right after its first submission cancels it with nobody ever busy |
| ThreadPool.WorkerPool.RunTask | rtThreadPool.c:293-336 | enqueues, then wakes, creates or reports pending |
| ThreadPool.WorkerPool.DequeTask | rtThreadPool.c:89-113 | takes the front task while running |
| ThreadPool.WorkerPool.AtLoopTop | rtThreadPool.c:122-141 | takes a task, waits or leaves |
| ThreadPool.WorkerPool.FirstLock | rtThreadPool.c:120-121 | counts the worker in |
| ThreadPool.WorkerPool.TaskReturned | rtThreadPool.c:129-131 | counts it idle and goes on |
| ThreadPool.WorkerPool.WaitReturned | rtThreadPool.c:140-150 | leaves on a time-out without looking at the queue, otherwise goes on |
| ThreadPool.WorkerPool.StopAllThread | rtThreadPool.c:261-277 | stops the pool, wakes all waiting workers and reports cancelled tasks exactly if some are queued |
| Requests.StepKeepsInv | rtConnection.c:1001-1138 | every locked region keeps the pending list without repeats, one record per pending request, and every stored or returned answer carrying its request's number |
| Requests.ResultsStay | rtConnection.c:1092-1117 | a request that has returned keeps its result whatever arrives later |
| Requests.GivenUpReturns | rtConnection.c:1119-1121 | a call whose wait ends with an error returns that error, is off the list and has no record; all others keep place, record and result |
| Requests.CollectedReturns | rtConnection.c:1092-1121 | a call that is woken returns its own response, unavailable if that is flagged undeliverable and an error if there is none, and is forgotten likewise |
| Requests.FailedSendReturns | rtConnection.c:1031-1035 | a request that cannot be sent has drawn a number and returned an error, and is not on the list |
| Requests.IssuedWaits | rtConnection.c:1024-1030 | a request that is sent waits at the head of the list with nothing in its record |
| Requests.ArrivedIsRecorded | rtConnection.c:1593-1609 | a response goes into the record of the one request it is for and posts it once |
| Requests.ReachableOutstanding | rtConnection.c:1001-1138 | in every interleaving the list holds exactly the requests that were sent and whose calls have not returned, newest first, and as many numbers are drawn as there were sends |
| Requests.NumbersDistinctIff | rtConnection.c:1020-1032 | pending sequence numbers are distinct if and only if no two pending requests were drawn a multiple of 2^32 draws apart |
| Requests.ReceiverExact | rtConnection.c:1595-1608 | a response goes to its own request, to nobody, or to an alias of it; without aliases to its own if that is pending and to nobody otherwise |
| Requests.LateResponseIff | rtConnection.c:1593-1609 | a response whose request has gone is given to another request if and only if one waits that is a multiple of 2^32 draws apart |
| Requests.LateResponseIgnored | rtConnection.c:1593-1609 | a call that has given up keeps its error for good, and a response to it that comes in later changes nothing while fewer than 2^32 numbers are in flight |
| Requests.AnswersAreOwn | rtConnection.c:1001-1138 | in every interleaving with fewer than 2^32 numbers in flight pending numbers are distinct and RT_OK comes with the response to that very request, its own number, not flagged undeliverable |
| Requests.RequestTable.FetchAdd | rtConnection.c:1021-1025 | hands out the ticket modulo 2^32 |
| Requests.RequestTable.Enqueue | rtConnection.c:1020-1039 | puts the request in front of the list, or takes it off again when the send fails |
| Requests.RequestTable.OnResponse | rtConnection.c:1593-1609 | gives the response to the first pending request with its number |
| Requests.RequestTable.AfterWait | rtConnection.c:1092-1122 | turns the record into the result and dequeues the request |
| Callbacks.StepKeepsInv | rtConnection.c:1720-1819 | every region keeps the queue in arrival order, the calls made equal to the messages taken off, and the thread awake |
| Callbacks.PushesArrive | rtConnection.c:1628-1653 | every message pushed is counted, whatever the callback thread is doing |
| Callbacks.PushedBehind | rtConnection.c:1635 | a push puts one new message behind those queued and takes none away |
| Callbacks.HandledOnceInOrder | rtConnection.c:1628-1653 | in every interleaving each message pushed is in the queue or has been handed to a callback, once and in the order of the pushes, and the thread is not asleep while one is queued nor after a stop has been signalled |
| Callbacks.SleepsAtCheck | rtConnection.c:1742-1747 | the thread goes to sleep only where it has just found the queue empty and no stop |
| Callbacks.NextInHand | rtConnection.c:1800-1815 | with a callback done the next message is in hand at once |
| Callbacks.EveryPushCanBeCalled | rtConnection.c:1760-1815 | while the threads run every message pushed can be handed to its callback, once and in order |
| Callbacks.CanDrain | rtConnection.c:1760-1815 | while running the callback thread can hand out everything that has arrived |
| Callbacks.StopEndsThread | rtConnection.c:1905-1918 | once run_threads is cleared and the condition signalled, whatever happens next: no callback is entered, the callback thread takes at most two more steps and is never blocked before it has exited, so the join returns |
| Callbacks.StopThreadsEndsThread | rtConnection.c:1905-1918 | the two halves of the stop with anything in between and afterwards: no callback is entered from the first on, and from the second on the thread takes at most two more steps and is never blocked before it has exited |
| Callbacks.CallbackQueue.PushMessage | rtConnection.c:1633-1652 | appends the message and signals a waiting thread |
| Callbacks.CallbackQueue.CheckQueue | rtConnection.c:1725-1749 | exits, waits or takes the front |
| Callbacks.CallbackQueue.AfterWait | rtConnection.c:1744-1756 | takes the front, or exits when stopped |
| Callbacks.CallbackQueue.BeforeCallback | rtConnection.c:1766-1794 | calls the listener unless stopped |
| Callbacks.CallbackQueue.AfterCallback | rtConnection.c:1802-1814 | removes the handled item and takes the next front |
| Listeners.StepKeepsInv | rtConnection.c:1260-1353 | adding and removing keep expressions and ids of the listeners in use distinct and every id one that was issued |
| Listeners.ReachableInv | rtConnection.c:1260-1353 | so they are after any run of fewer than 2^32 calls from the empty table |
| Listeners.RemovedNeverCalled | rtConnection.c:1326-1340 | a message that carries a removed listener's id never runs a callback, whatever is put into its slot later |
| Listeners.AddedIsCalled | rtConnection.c:1298-1303 | the id of a listener that was added finds its callback after any later adding and removing that does not remove it, as long as fewer than 2^32 ids are issued |
| Listeners.AddReturns | rtConnection.c:1270-1303 | AddListener is refused exactly for an expression in use, out of memory exactly if otherwise no slot is free, and else takes one free slot; the table changes only then |
| Listeners.RemoveReturns | rtConnection.c:1326-1345 | RemoveListener succeeds exactly for an expression in use, after which it is not in use and all other listeners stay |
| Listeners.ListenerTable.AddListener | rtConnection.c:1268-1303 | refuses an expression in use, reports a full table, otherwise fills the first free slot with the next id |
| Listeners.ListenerTable.RemoveListener | rtConnection.c:1325-1343 | frees the slot of the expression and reports its id, or an unknown expression |
| Listeners.ListenerTable.FindCallback | rtConnection.c:1777-1786 | finds the callback of the id in use |
| List.RtList.GetFreeItem | rtList.c:45-61 | recycles the head of the free list, data and all, and allocates only when it is empty |
| List.RtList.SetFreeItem | rtList.c:63-77 | the item becomes the head of the free list |
| List.RtList.PushFront | rtList.c:128-149 | the contents grow at the front; the item is recycled if one is spare and then keeps its data for rtListReuseData, and only otherwise does the list own one more |
| List.RtList.PushBack | rtList.c:150-171 | the same at the back |
| List.RtList.InsertBefore | rtList.c:172-194 | the same before a given item |
| List.RtList.InsertAfter | rtList.c:195-217 | the same after a given item |
| List.RtList.Unlink | rtList.c:229-236 | front, back, size and all links are those of the list without the item |
| List.RtList.RemoveItem | rtList.c:218-245 | the contents lose that position, the item heads the free list, its data is destroyed once if asked for, and the list owns the items it owned |
| List.RtList.RemoveItemWithData | rtList.c:246-261 | removes the first item with the data, or reports that there is none |
| List.RtList.RemoveItemByCompare | rtList.c:262-278 | removes the first match only |
| List.RtList.RecycleAll | rtList.c:284-295 | the loop moves every item to the free list, last one on top, destroying each data once in order |
| List.RtList.RemoveAllItems | rtList.c:280-299 | nothing is left in the list, every item is on the free list, and none is lost |
| List.GapFilled | rtList.c:183-189 | the four pointer assignments of an insertion link exactly the sequence with the item at its position |
| List.TookPool | rtList.c:45-61 | the items the list owns, in use or spare, stay as they were over a push that finds a spare one, and are one more otherwise |
| Vector.Vector.PushBack | rtVector.c:68-90 | appends, and grows by 16 slots exactly when the array is missing or would be full, so a slot stays unused |
| Vector.Vector.ShiftDown | rtVector.c:109-113 | the shifting loop, which reads one slot past the last element, stays inside the array |
| Vector.Vector.RemoveItem | rtVector.c:92-124 | removes the first occurrence, keeps the order, and says whether there was one |
| Vector.Vector.RemoveItemByCompare | rtVector.c:126-158 | the same for the first match |
| Vector.Vector.Find | rtVector.c:184-201 | returns the first match or the null pointer |
| Vector.Vector.At | rtVector.c:160-166 | returns the element, or the null pointer past the end |
| HashMap.ResizeKeeps | rtHashMap.c:189-221 | rehashing into twice or half as many buckets puts every node where its hash selects and keeps every lookup and the number of nodes |
| HashMap.SetRepresents | rtHashMap.c:223-247 | Set on a representation of a finite map represents the map with the key set, growth included |
| HashMap.RemoveRepresents | rtHashMap.c:272-285 | Remove on a representation represents the map without the key, shrinking included |
| HashMap.RunRefines | rtHashMap.c:189-285 | through every run of Set and Remove the table represents the finite map updated alongside |
| HashMap.HashMapIsMap | rtHashMap.c:223-285 | so lookups answer from the map, the size is the map's and that of all buckets together, keys sit in the bucket their hash selects, and the bucket count is 16 doubled |
| HashMap.SetKeepsLight | rtHashMap.c:235-239 | with the default factor Set keeps at most three nodes to four buckets |
| HashMap.SetRunsLight | rtHashMap.c:235-239 | and so does every run of Set |
| HashMap.RemoveKeepsLightIff | rtHashMap.c:277-280 | Remove keeps that bound if and only if the table is at its least size or the nodes left fit half as many buckets: the shrink test halves every such table above the least size |
| HashMap.SetGrowsIff | rtHashMap.c:235-239 | Set doubles the buckets exactly for a new key that leaves more than three nodes to four buckets |
| HashMap.RemoveShrinksIff | rtHashMap.c:277-280 | Remove halves them exactly if there are more than 16 and fewer than two nodes to each are left |
| HashMap.HashIsSpelled | rtHashMap.c:287-296 | the string hash is what the key spells in base 31 with signed characters, reduced to an int once |
| HashMap.CharIsSigned | rtHashMap.c:290-293 | its characters are signed bytes |
| HashMap.BucketMeans | rtHashMap.c:287-296 | the bucket is its absolute value modulo their number, the most negative int standing for 2^64 - 2^31 |
| HashMap.RemoveTooFull | rtHashMap.c:277-280 | any fourteen keys set from nothing and one of them removed leave thirteen nodes to sixteen buckets |
| HashMap.HashTable.Resize | rtHashMap.c:189-221 | the nested loops rehash every node once, in bucket order |
| HashMap.HashTable.Set | rtHashMap.c:223-247 | overwrites the node of the key or appends one, after growing when the table is too full |
| HashMap.HashTable.Get | rtHashMap.c:249-256 | the value of the key, if any |
| HashMap.HashTable.Remove | rtHashMap.c:272-285 | takes the key's node out, shrinks by the code's own test, and says whether there was one |
| Base64.CharRoundTrip | rtBase64.c:30-60 | every sextet's character decodes to the sextet and is not the padding character |
| Base64.ShiftsAreSextets | rtBase64.c:91-98 | the shift and mask expressions are the four six-bit groups of the 24 bits that section 4 of RFC 4648 forms |
| Base64.GroupRoundTrip | rtBase64.c:175-177 | the decoder's shift expressions give the three octets back |
| Base64.EncodedLength | rtBase64.c:73-76 | four characters for every three bytes begun, within the decoder's limit for up to 1026 bytes |
| Base64.RoundTrip | rtBase64.c:62-201 | decoding the encoding of 1 to 1026 bytes gives the bytes back |
| Base64.DecodeFailsIff | rtBase64.c:171-198 | a text is rejected exactly if it is longer than 1368 characters, or no whole number of groups, or a character that is read, which leaves the padding out, is outside the alphabet |
| Base64.LastCharIgnored | rtBase64.c:148-152 | behind a padding character in the last place but one any character is accepted |
| Base64.EncodesBackIff | rtBase64.c:132-201 | an accepted text is the encoding of what it decodes to if and only if its last group leaves only zero bits over and is fully padded |
| Base64.Encode | rtBase64.c:62-130 | more than 1026 bytes are refused; otherwise the buffer holds the text and its terminator with at most two characters to spare |
| Base64.Decode | rtBase64.c:132-201 | returns exactly the decoded bytes in a buffer of their length, or the error |
| Text.JoinSplit | dataProvider/dmUtility.h:117-130 | the tokens put together with the delimiter are the text, and none contains it |
| Utility.SplitString | dataProvider/dmUtility.h:117-130 | the loop pushes exactly the text's pieces, empty ones included |
| Utility.ParseMultisetValue | dataProvider/dmUtility.h:96-115 | accepts exactly texts in braces and returns the name-value pairs of the pieces that have one `=` |
| Utility.MultisetRoundTrip | dataProvider/dmUtility.h:96-115 | a printed list of pairs without `,` and `=` in them is read back as it was |
| Utility.BracedMeans | dataProvider/dmUtility.h:98 | what counts as a multi-set value is exactly a text between an opening and a closing brace |
| Utility.MultiSetMeans | dataProvider/dmUtility.h:90 | and the set query of one is exactly a name without `=`, an `=` and such a value |
| Utility.EndsIffCanTrim | dataProvider/dmProviderDatabase.cpp:238-247 | the trimming loop ends if and only if the name has a dot or some prefix the loop gets to reads Name={...}; any other query hangs it |
| Utility.Hangs | dataProvider/dmProviderDatabase.cpp:238-247 | every name without a dot hangs it with every value that does not open with a brace |
| Utility.TrimsToParent | dataProvider/dmProviderDatabase.cpp:229-247 | for a dotted name and a value not opening with `{` what is left is the name up to its last dot |
| Utility.TrimToObject | dataProvider/dmProviderDatabase.cpp:229-247 | the loop returns the first trimmed text without `=`, and fails exactly when that is empty after more than one round |
| Utility.SetQueryString | dataProvider/dmProviderDatabase.cpp:220-257 | splits at the first `=`, trims the object name, and fails on a query without a value |
| Provider.ProviderIsOfNames | dataProvider/dmProviderDatabase.cpp:429-484 | the walk over a path returns the provider of its names, row ids erased: the object the whole name names, unless some longer prefix left the database below one found before |
| Provider.FullNameJoins | dataProvider/dmProviderDatabase.cpp:449-451 | the name put together token by token is the names joined by dots |
| Provider.IdsErased | dataProvider/dmProviderDatabase.cpp:466-471 | for a path with an id after each list object the provider is that of the path without the ids, and isListItem is true exactly if the path ends in an id and the walk over the names does not fail |
| Provider.WalkPath | dataProvider/dmProviderDatabase.cpp:435-480 | the token loop, early return included, computes the walk over all tokens |
| Provider.GetProviderByObjectName | dataProvider/dmProviderDatabase.cpp:429-484 | an empty path has no provider and leaves the flag alone; any other gets the provider of its names and the flag |

## Left out

- RoutingTree.RoutingTree.AddTopicRoute: topics are entries of a map by path and lists are sequences, not linked objects, so pointer aliasing between tree, routes and lists is not captured; expressions have to fit the work area (fewer than 512 bytes, at most 32 tokens), which the code does not check.
- RoutingTree.RoutingTree.RemoveTopic: asks for a tree that satisfies the invariant, because on others the code follows freed records.
- RoutingTree.RoutingTree.ResolvePartialPath: asks that the index hold no freed record, which an exact index implies; a stale one leads the code to freed records.
- Tokenizer.Tokens: asks for an expression that fits the work area.
- Tokenizer.WorkArea.TokenizeExpression: asks the same, and each lookup has a work area of its own, where the code shares one static buffer.
- RoutingTree.RoutingTree.GetTopicRoutes: asks for expressions that fit the work area, as AddTopicRoute does.
- RoutingTree.RoutingTree.RemoveChild: asks for a tree that satisfies the invariant, as RemoveTopic does.
- Framing.StreamDelivered: frames are such that twice the header and the payload together fit an int, which HeaderBoundedIff shows to be the exact bound for the reader's counters, and growing succeeds; FramingBounds says when the counters stay in range for any bytes.
- Framing.ConnectedClient.Read: asks for counters in bounds, because beyond them the code reads and writes outside its buffer.
- FlatBroker.BrokerIsFlat: speaks of topics without a final dot; those are answered from the index, which ListIsLive and PartialIsFlat cover.
- EndToEnd.SubscriberIsCalled: the client's hand-over from its reader to the callback thread is the queue of Callbacks, which is a model of its own, and the subscribe message is taken to arrive; the topic must be no table in the end.
- Broker.DispatchRight: for topics that end in a dot it asks for an exact index; a stale one makes the code follow freed records.
- Rtrouted.Router.DispatchMessageFromClient: the broker's own handler is recorded as an event and its effect, OnMessageSubscribe, is a call of its own afterwards, so a handler that changes the list being walked is not captured; nor is the EBADF branch, which clears the sender's routes in mid-walk.
- Rtrouted.Router.AddRoute: asks for an expression that fits the tree's work area.
- Rtrouted.Router.OnMessageSubscribe: the message body is already parsed and validated, and the reply and the advisory message are not sent.
- Requests.FailedSendReturns: the retry after RT_NO_CONNECTION, which connects again and draws a new number, is not modelled.
- Requests.AnswersAreOwn: fewer than 2^32 sequence numbers are in flight; NumbersDistinctIff and LateResponseIff say exactly what happens otherwise. The removal on the time-out path, which the code does without the mutex, is one step.
- EndToEnd.FrameUnderstood: the client's reader is the decoding of a whole frame; that it collects header and payload with ReadUntil into two buffers, and tries again after an error, is not modelled.
- Listeners.RemovedNeverCalled: fewer than 2^32 ids are issued, since the id counter wraps after that. The id is read inside the locked region; the code reads it once more after unlocking for the subscribe message.
- HashMap.HashTable.Set: buckets are sequences of nodes rather than vectors of pointers, keys are copied strings, and the load test is exact where the code divides floats.
- Base64.Decode: asks for a text that is not empty, because on an empty one the code reads before its start.
- Utility.TrimToObject: asks for a text on which the loop ends; EndsIffCanTrim covers the others.
- Utility.SetQueryString: asks for a query on which the loop ends; EndsIffCanTrim covers the others.
- ThreadPool.ReachableSafe: task bodies, time and the list of thread records are not modelled; a worker's wait may end by signal, spuriously or by time-out at any moment, and a wait that has timed out may use up a signal sent before the worker has the lock.
- ThreadPool.WorkerPool.StopAllThread: the wait for idleCond and its time budget before the last lock are not modelled.
- Allocation always succeeds; reference counts and buffers (rtBuffer.c, rtRetainable.c, rtMemory.c) are not modelled.
- Sockets, select, connecting, reconnecting, registration, configuration, the start-up of the daemon beyond its own route, and signals are not modelled; recv is any chunk and sendmsg an event.
- Encryption (rtCipher.c and the WITH_SPAKE2 branches) is not part of this model.
- Round-trip times, benchmarking, the traffic monitor, logging, diagnostics, discovery messages and samples are not modelled.
- The ENABLE_ROUTE2_QUICK_GET_OPTIMIZATION block, which its own comment calls wrong for several routes, is left out.
- Message bodies (rtMessage.c) are opaque bytes or parsed records.
- Teardown of the thread pool and of a connection depends on the lifetime of freed locks and is left out.
- buildProviderTree is left out: it makes a name without a dot its own parent, so that the tree it builds is none.
- dmValue, dmQueryResult, rtTime.c, rtSemaphore.c and rtError.c are left out: conversions and wrappers around system calls without state of their own.
