/** The broker against a flat one: a map from topics to the subscriptions there, in the
    order they were made, and no tree. */
module FlatBroker {
  import opened Sequences
  import opened TopicTree
  import opened TreeInvariant
  import opened TreeQueries
  import opened TreeNames
  import opened TreeRefinement
  import opened MessageHeader
  import opened Broker

  datatype Subs = Subs(flat: Flat, routes: seq<RouteData>, entries: map<RouteData, Entry>)

  const NOBODY := Subs(EMPTY_FLAT, [], map[])

  // ------------------------------------------------------------- the flat operations

  function Register(s: Subs, ptr: RouteData, e: Entry, exp: string): Subs {
    Subs(FlatAdd(s.flat, exp, ptr, false).0, s.routes + [ptr], s.entries[ptr := e])
  }

  function Forget(s: Subs, ptr: RouteData): Subs {
    Subs(FlatDropRoute(s.flat, ptr), RemoveFirst(s.routes, ptr), s.entries - {ptr})
  }

  function ForgetAll(s: Subs, ptrs: seq<RouteData>): Subs
    decreases |ptrs|
  {
    if ptrs == [] then s else ForgetAll(Forget(s, ptrs[0]), ptrs[1..])
  }

  function RegisterAll(f: Flat, topics: seq<string>, ptr: RouteData): Flat
    decreases |topics|
  {
    if topics == [] then f else RegisterAll(FlatAdd(f, topics[0], ptr, false).0, topics[1..], ptr)
  }

  function Obey(s: Subs, sender: ClientId, r: Request, ptr: RouteData): Subs {
    if r.add then
      match FindById(s.routes, s.entries, sender, r.routeId)
      case Some(p) => s.(flat := FlatAdd(s.flat, r.topic, p, true).0)
      case None => Register(s, ptr, Entry(false, sender, r.routeId, Stored(r.topic)), r.topic)
    else
      match FindByExpression(s.routes, s.entries, sender, r.topic)
      case Some(p) => Forget(s, p)
      case None => s.(flat := FlatDropTopic(s.flat, r.topic))
  }

  function FlatTake(s: Subs, a: Act): Subs {
    match a
    case Boot(topics, ptr) =>
      Subs(RegisterAll(s.flat, topics, ptr), s.routes + [ptr], s.entries[ptr := Entry(true, 0, 0, "_RTROUTED.>")])
    case Hello(sender, inbox, ptr) => Register(s, ptr, Entry(false, sender, 0, Stored(inbox)), inbox)
    case Hear(sender, request, ptr) => Obey(s, sender, request, ptr)
    case Leave(client) => ForgetAll(s, Owned(s.routes, s.entries, client))
  }

  /** Proper, told from the flat broker. */
  predicate FlatProper(s: Subs, a: Act) {
    && (!a.Leave? ==> a.ptr !in s.entries)
    && (a.Boot? ==> BootTopics(a.topics))
    && (a.Hear? && a.request.add && a.request.topic == ADVISORY ==>
          var p := FindById(s.routes, s.entries, a.sender, a.request.routeId);
          p.Some? ==> !FlatTied(s.flat, a.request.topic, p.value))
  }

  // --------------------------------------------------------------- step by step

  ghost function SubsOf(b: State): Subs { Subs(FlatOf(b.tree), b.routes, b.entries) }

  ghost predicate Ruled(b: State) { Broker.Inv(b) && RowsFirst(b.tree.nodes) }

  lemma ProperIsFlat(b: State, a: Act)
    requires Ruled(b)
    ensures Proper(b, a) <==> FlatProper(SubsOf(b), a)
  {
    if a.Hear? && a.request.add && a.request.topic == ADVISORY {
      var p := FindById(b.routes, b.entries, a.sender, a.request.routeId);
      if p.Some? { UsedIsFlat(b.tree, Add(a.request.topic, p.value, true)); }
    }
  }

  lemma RegisterIsFlat(b: State, ptr: RouteData, e: Entry, exp: string)
    requires Ruled(b) && ptr !in b.entries
    ensures Ruled(AddRoute(b, ptr, e, exp)) && SubsOf(AddRoute(b, ptr, e, exp)) == Register(SubsOf(b), ptr, e, exp)
  {
    AddRouteKeeps(b, ptr, e, exp);
    AddRows(b.tree, exp, ptr, false);
    AddIsFlat(b.tree, Add(exp, ptr, false));
  }

  lemma ForgetIsFlat(b: State, ptr: RouteData)
    requires Ruled(b)
    ensures Ruled(ClearRoute(b, ptr)) && SubsOf(ClearRoute(b, ptr)) == Forget(SubsOf(b), ptr)
  {
    ClearRouteKeeps(b, ptr);
    RemoveRouteRows(b.tree, ptr);
    DropRouteIsFlat(b.tree, ptr);
  }

  lemma {:induction false} ForgetAllIsFlat(b: State, ptrs: seq<RouteData>)
    requires Ruled(b)
    ensures Ruled(ClearAll(b, ptrs)) && SubsOf(ClearAll(b, ptrs)) == ForgetAll(SubsOf(b), ptrs)
    decreases |ptrs|
  {
    if ptrs == [] {
    } else {
      ForgetIsFlat(b, ptrs[0]);
      ForgetAllIsFlat(ClearRoute(b, ptrs[0]), ptrs[1..]);
    }
  }

  lemma RegisterOneKeeps(t: Tree, exp: string, ptr: RouteData, paths: set<Path>)
    requires TreeInvariant.Inv(t) && OnlyAt(t, ptr, paths) && NoInstances(Tokenize(exp)) && Tokenize(exp) !in paths
    ensures var t' := AddTopicRoute(t, exp, ptr, false).0;
            TreeInvariant.Inv(t') && OnlyAt(t', ptr, paths + {Tokenize(exp)})
  {
    NewPathTiesNothing(t, exp, ptr, paths);
    AddKeepsInvIff(t, exp, ptr, false);
    AddTopicOnlyAt(t, exp, ptr, paths);
  }

  lemma {:induction false} RegisterAllIsFlat(t: Tree, topics: seq<string>, ptr: RouteData, paths: set<Path>)
    requires TreeInvariant.Inv(t) && RowsFirst(t.nodes) && OnlyAt(t, ptr, paths) && BootTopics(topics)
    requires forall i :: 0 <= i < |topics| ==> Tokenize(topics[i]) !in paths
    ensures var t' := AddTopics(t, topics, ptr);
            RowsFirst(t'.nodes) && FlatOf(t') == RegisterAll(FlatOf(t), topics, ptr)
    decreases |topics|
  {
    if topics == [] {
    } else {
      var exp := topics[0];
      RegisterOneKeeps(t, exp, ptr, paths);
      AddRows(t, exp, ptr, false);
      AddIsFlat(t, Add(exp, ptr, false));
      RegisterAllIsFlat(AddTopicRoute(t, exp, ptr, false).0, topics[1..], ptr, paths + {Tokenize(exp)});
    }
  }

  lemma BootIsFlat(b: State, topics: seq<string>, ptr: RouteData)
    requires Ruled(b) && ptr !in b.entries && BootTopics(topics)
    ensures var b' := Take(b, Boot(topics, ptr)); Ruled(b') && SubsOf(b') == FlatTake(SubsOf(b), Boot(topics, ptr))
  {
    BootKeeps(b, topics, ptr);
    forall p, h | Assigned(b.tree.nodes, p, h) ensures h.data != ptr { RoutesAreLive(b.tree, p, h); }
    RegisterAllIsFlat(b.tree, topics, ptr, {});
  }

  lemma ObeyIsFlat(b: State, sender: ClientId, r: Request, ptr: RouteData)
    requires Ruled(b) && ptr !in b.entries && !AdvisoryAgain(b, sender, r)
    ensures var b' := Subscribe(b, sender, r, ptr).0; Ruled(b') && SubsOf(b') == Obey(SubsOf(b), sender, r, ptr)
  {
    SubscribeKeepsIff(b, sender, r, ptr);
    if r.add {
      match FindById(b.routes, b.entries, sender, r.routeId)
      case Some(p) =>
        AddRows(b.tree, r.topic, p, true);
        AddIsFlat(b.tree, Add(r.topic, p, true));
      case None => RegisterIsFlat(b, ptr, Entry(false, sender, r.routeId, Stored(r.topic)), r.topic);
    } else {
      match FindByExpression(b.routes, b.entries, sender, r.topic)
      case Some(p) => ForgetIsFlat(b, p);
      case None =>
        RemoveTopicRows(b.tree, r.topic);
        DropTopicIsFlat(b.tree, r.topic);
    }
  }

  lemma TakeIsFlat(b: State, a: Act)
    requires Ruled(b) && Proper(b, a)
    ensures Ruled(Take(b, a)) && SubsOf(Take(b, a)) == FlatTake(SubsOf(b), a)
  {
    match a
    case Boot(topics, ptr) => BootIsFlat(b, topics, ptr);
    case Hello(sender, inbox, ptr) => RegisterIsFlat(b, ptr, Entry(false, sender, 0, Stored(inbox)), inbox);
    case Hear(sender, request, ptr) => ObeyIsFlat(b, sender, request, ptr);
    case Leave(client) => ForgetAllIsFlat(b, Owned(b.routes, b.entries, client));
  }

  // ----------------------------------------------------------------------- runs

  function FlatGo(s: Subs, acts: seq<Act>): Subs
    decreases |acts|
  {
    if acts == [] then s else FlatGo(FlatTake(s, acts[0]), acts[1..])
  }

  predicate FlatGoes(s: Subs, acts: seq<Act>)
    decreases |acts|
  {
    acts == [] || (FlatProper(s, acts[0]) && FlatGoes(FlatTake(s, acts[0]), acts[1..]))
  }

  /** Every run of the broker stands for a run of the flat one. */
  lemma {:induction false} RunRefinesFlat(b: State, acts: seq<Act>, b': State)
    requires Ruled(b) && Goes(b, acts, b')
    ensures FlatGoes(SubsOf(b), acts) && SubsOf(b') == FlatGo(SubsOf(b), acts)
    ensures Ruled(b')
    decreases |acts|
  {
    if acts == [] {
    } else {
      ProperIsFlat(b, acts[0]);
      TakeIsFlat(b, acts[0]);
      RunRefinesFlat(Take(b, acts[0]), acts[1..], b');
    }
  }

  /** And the broker goes through every run the flat one allows. */
  lemma {:induction false} RunFollowsFlat(b: State, acts: seq<Act>) returns (b': State)
    requires Ruled(b) && FlatGoes(SubsOf(b), acts)
    ensures Goes(b, acts, b')
    decreases |acts|
  {
    if acts == [] {
      b' := b;
    } else {
      ProperIsFlat(b, acts[0]);
      TakeIsFlat(b, acts[0]);
      b' := RunFollowsFlat(Take(b, acts[0]), acts[1..]);
    }
  }

  // ------------------------------------------------------------------- dispatch

  /** The live subscriptions to a topic, in the order they were made. */
  function Receivers(s: Subs, h: Header): seq<RouteData> { Lookup(s.flat, TopicText(h)) }

  function Events(entries: map<RouteData, Entry>, ptrs: seq<RouteData>, h: Header, payload: Bytes): (es: seq<Event>)
    requires forall p :: p in ptrs ==> p in entries
    ensures |es| == |ptrs| && forall i :: 0 <= i < |ptrs| ==> es[i] == EventOf(entries[ptrs[i]], h, payload)
  {
    if ptrs == [] then [] else [EventOf(entries[ptrs[0]], h, payload)] + Events(entries, ptrs[1..], h, payload)
  }

  predicate AllLive(s: Subs, h: Header) { forall p :: p in Receivers(s, h) ==> p in s.entries }

  /** One event per receiver in order; an unmatched request goes back to its reply topic. */
  function FlatDispatched(s: Subs, h: Header, payload: Bytes): seq<Event>
    requires Terminated(h) && AllLive(s, h) && AllLive(s, Bounce(h))
  {
    if Receivers(s, h) != [] then Events(s.entries, Receivers(s, h), h, payload)
    else if HasFlag(h.flags, REQUEST) then Events(s.entries, Receivers(s, Bounce(h)), Bounce(h), [])
    else []
  }

  lemma FanoutIsFlat(entries: map<RouteData, Entry>, hs: seq<RouteRef>, ptrs: seq<RouteData>, h: Header, payload: Bytes)
    requires Live(entries, hs) && Datas(hs) == ptrs
    ensures forall p :: p in ptrs ==> p in entries
    ensures Fanout(entries, hs, h, payload) == Events(entries, ptrs, h, payload)
  {
    forall p | p in ptrs ensures p in entries {
      var i :| 0 <= i < |ptrs| && ptrs[i] == p;
      assert hs[i] in hs;
    }
  }

  ghost predicate FullTopics(h: Header)
    requires Terminated(h)
  {
    !EndsInDot(TopicText(h)) && !EndsInDot(TopicText(Bounce(h)))
  }

  lemma ListedIsFlat(b: State, h: Header)
    requires Ruled(b) && !EndsInDot(TopicText(h))
    ensures Datas(Listed(b, h)) == Receivers(SubsOf(b), h) && Live(b.entries, Listed(b, h))
    ensures NoDup(Receivers(SubsOf(b), h))
  {
    LookupIsFlat(b.tree, TopicText(h));
    ListIsLive(b, TopicText(h));
  }

  /** What dispatch does with the message can be told from the flat broker alone: it goes to
      each receiver once. */
  ghost predicate AsFlat(b: State, h: Header, payload: Bytes)
    requires Shape(b.tree.nodes) && Terminated(h)
  {
    var s := SubsOf(b);
    && NoDup(Receivers(s, h)) && AllLive(s, h) && AllLive(s, Bounce(h)) && Dispatchable(b, h)
    && Dispatched(b, h, payload) == FlatDispatched(s, h, payload)
  }

  lemma DispatchIsFlat(b: State, h: Header, payload: Bytes)
    requires Ruled(b) && Terminated(h) && FullTopics(h)
    ensures AsFlat(b, h, payload)
  {
    var s, back := SubsOf(b), Bounce(h);
    ListedIsFlat(b, h);
    ListedIsFlat(b, back);
    FanoutIsFlat(b.entries, Listed(b, h), Receivers(s, h), h, payload);
    FanoutIsFlat(b.entries, Listed(b, back), Receivers(s, back), back, []);
  }

  /** Start-up is such a run, with one route under all of the broker's own topics. */
  lemma StartUpFits(ptr: RouteData)
    ensures FlatGoes(NOBODY, [Boot(BOOT_TOPICS, ptr)])
  {
    BootTopicsDiffer();
    LastAct(NOBODY, Boot(BOOT_TOPICS, ptr));
  }

  lemma LastAct(s: Subs, a: Act)
    requires FlatProper(s, a)
    ensures FlatGoes(s, [a])
  {}

  lemma StartIsFlat()
    ensures Ruled(START) && SubsOf(START) == NOBODY
  {
    EmptyTreeInv();
    EmptyIsFlat();
  }

  /** After every run from start-up a message to a full topic goes to exactly the live
      subscriptions to that topic, once each, in the order they were made. */
  lemma BrokerIsFlat(acts: seq<Act>, b: State, h: Header, payload: Bytes)
    requires Goes(START, acts, b) && Terminated(h) && FullTopics(h)
    ensures Ruled(b) && SubsOf(b) == FlatGo(NOBODY, acts) && AsFlat(b, h, payload)
  {
    StartIsFlat();
    RunRefinesFlat(START, acts, b);
    DispatchIsFlat(b, h, payload);
  }

  // ------------------------------------------------------- how long a route is listed

  /** `ptr` is a route with entry `e`, registered at `p`, and `exp` leads there. */
  predicate ListedFor(s: Subs, exp: string, p: Path, ptr: RouteData, e: Entry) {
    && FlatLocate(s.flat, exp) == Some(p) && ptr in FlatAt(s.flat.at, p)
    && ptr in s.routes && ptr in s.entries && s.entries[ptr] == e
  }

  /** The act is not the leaving of the client that owns the route, nor an unsubscribe that
      drops this very route or cuts the topic `p` away. */
  predicate Spares(s: Subs, a: Act, p: Path, ptr: RouteData, e: Entry) {
    match a
    case Hear(sender, request, _) =>
      request.add || (match FindByExpression(s.routes, s.entries, sender, request.topic)
                      case Some(own) => own != ptr
                      case None => !CutsOff(s.flat, request.topic, p))
    case Leave(c) => !OwnedBy(e, c)
    case _ => true
  }

  lemma AddKeepsListed(f: Flat, topic: string, data: RouteData, errOnDup: bool, exp: string, ptr: RouteData)
    requires Tidy(f.names) && FlatTied(f, exp, ptr)
    ensures var f' := FlatAdd(f, topic, data, errOnDup).0;
            Tidy(f'.names) && FlatLocate(f', exp) == FlatLocate(f, exp) && FlatTied(f', exp, ptr)
  {
    AddKeepsTidy(f, topic, data, errOnDup);
    AddKeepsFound(f, topic, data, errOnDup, exp);
  }

  lemma {:induction false} AddsKeepListed(f: Flat, topics: seq<string>, data: RouteData, exp: string, ptr: RouteData)
    requires Tidy(f.names) && FlatTied(f, exp, ptr)
    ensures var f' := RegisterAll(f, topics, data); FlatLocate(f', exp) == FlatLocate(f, exp) && FlatTied(f', exp, ptr)
    decreases |topics|
  {
    if topics == [] {
    } else {
      AddKeepsListed(f, topics[0], data, false, exp, ptr);
      AddsKeepListed(FlatAdd(f, topics[0], data, false).0, topics[1..], data, exp, ptr);
    }
  }

  /** Forgetting another route keeps this one listed. */
  lemma ForgetKeepsListed(b: State, other: RouteData, exp: string, p: Path, ptr: RouteData, e: Entry)
    requires Ruled(b) && ListedFor(SubsOf(b), exp, p, ptr, e) && ptr != other
    ensures ListedFor(Forget(SubsOf(b), other), exp, p, ptr, e)
  {
    NamesTidy(b.tree.nodes);
    DropRouteKeepsFound(SubsOf(b).flat, other, exp, ptr);
  }

  lemma {:induction false} ForgetAllKeepsListed(b: State, ptrs: seq<RouteData>, exp: string, p: Path, ptr: RouteData,
                                                e: Entry)
    requires Ruled(b) && ListedFor(SubsOf(b), exp, p, ptr, e) && ptr !in ptrs
    ensures ListedFor(ForgetAll(SubsOf(b), ptrs), exp, p, ptr, e)
    decreases |ptrs|
  {
    if ptrs == [] {
    } else {
      ForgetKeepsListed(b, ptrs[0], exp, p, ptr, e);
      ForgetIsFlat(b, ptrs[0]);
      ForgetAllKeepsListed(ClearRoute(b, ptrs[0]), ptrs[1..], exp, p, ptr, e);
    }
  }

  lemma {:induction false} ForgetAllForgets(s: Subs, ptrs: seq<RouteData>)
    ensures forall p :: p in ForgetAll(s, ptrs).entries ==> p in s.entries && p !in ptrs
    decreases |ptrs|
  {
    if ptrs == [] {
    } else {
      ForgetAllForgets(Forget(s, ptrs[0]), ptrs[1..]);
    }
  }

  lemma CutSparesIffOutside(b: State, topic: string, exp: string, p: Path, ptr: RouteData)
    requires Ruled(b) && FlatLocate(FlatOf(b.tree), exp) == Some(p) && ptr in FlatAt(FlatOf(b.tree).at, p)
    ensures var f' := FlatDropTopic(FlatOf(b.tree), topic);
            FlatLocate(f', exp) == Some(p) && ptr in FlatAt(f'.at, p) <==> !CutsOff(FlatOf(b.tree), topic, p)
  {
    NamesTidy(b.tree.nodes);
    if !CutsOff(FlatOf(b.tree), topic, p) { CutKeepsFound(FlatOf(b.tree), topic, exp); }
  }

  lemma HearSparesIff(b: State, a: Act, exp: string, p: Path, ptr: RouteData, e: Entry)
    requires Ruled(b) && Proper(b, a) && ListedFor(SubsOf(b), exp, p, ptr, e) && a.Hear?
    ensures ListedFor(FlatTake(SubsOf(b), a), exp, p, ptr, e) <==> Spares(SubsOf(b), a, p, ptr, e)
  {
    var s, r := SubsOf(b), a.request;
    NamesTidy(b.tree.nodes);
    if r.add {
      match FindById(s.routes, s.entries, a.sender, r.routeId)
      case Some(own) => AddKeepsListed(s.flat, r.topic, own, true, exp, ptr);
      case None => AddKeepsListed(s.flat, r.topic, a.ptr, false, exp, ptr);
    } else {
      match FindByExpression(s.routes, s.entries, a.sender, r.topic)
      case Some(own) => if own != ptr { ForgetKeepsListed(b, own, exp, p, ptr, e); }
      case None => CutSparesIffOutside(b, r.topic, exp, p, ptr);
    }
  }

  /** The brokers that list the route. */
  ghost function Listings(exp: string, p: Path, ptr: RouteData, e: Entry): iset<Subs> {
    iset s: Subs | ListedFor(s, exp, p, ptr, e)
  }

  lemma Forgotten(s: Subs, ptrs: seq<RouteData>, exp: string, p: Path, ptr: RouteData, e: Entry)
    requires ptr in ptrs
    ensures ForgetAll(s, ptrs) !in Listings(exp, p, ptr, e)
  {
    ForgetAllForgets(s, ptrs);
  }

  lemma NotForgotten(b: State, ptrs: seq<RouteData>, exp: string, p: Path, ptr: RouteData, e: Entry)
    requires Ruled(b) && ListedFor(SubsOf(b), exp, p, ptr, e) && ptr !in ptrs
    ensures ForgetAll(SubsOf(b), ptrs) in Listings(exp, p, ptr, e)
  {
    ForgetAllKeepsListed(b, ptrs, exp, p, ptr, e);
  }

  lemma LeaveSparesIff(b: State, c: ClientId, ptrs: seq<RouteData>, exp: string, p: Path, ptr: RouteData, e: Entry)
    requires Ruled(b) && ListedFor(SubsOf(b), exp, p, ptr, e) && ptrs == Owned(b.routes, b.entries, c)
    ensures ForgetAll(SubsOf(b), ptrs) in Listings(exp, p, ptr, e) <==> !OwnedBy(e, c)
  {
    assert ptr in ptrs <==> OwnedBy(e, c);
    if OwnedBy(e, c) {
      Forgotten(SubsOf(b), ptrs, exp, p, ptr, e);
    } else {
      NotForgotten(b, ptrs, exp, p, ptr, e);
    }
  }

  /** An act leaves a route listed exactly when it spares it, which can be told before the
      act. */
  lemma ActSparesIff(b: State, a: Act, exp: string, p: Path, ptr: RouteData, e: Entry)
    requires Ruled(b) && Proper(b, a) && ListedFor(SubsOf(b), exp, p, ptr, e)
    ensures ListedFor(FlatTake(SubsOf(b), a), exp, p, ptr, e) <==> Spares(SubsOf(b), a, p, ptr, e)
  {
    var s := SubsOf(b);
    NamesTidy(b.tree.nodes);
    match a
    case Boot(topics, other) => AddsKeepListed(s.flat, topics, other, exp, ptr);
    case Hello(_, inbox, other) => AddKeepsListed(s.flat, inbox, other, false, exp, ptr);
    case Hear(_, _, _) => HearSparesIff(b, a, exp, p, ptr, e);
    case Leave(c) => LeaveSparesIff(b, c, Owned(s.routes, s.entries, c), exp, p, ptr, e);
  }

  /** Every act of the run spares the route. */
  predicate Steady(s: Subs, acts: seq<Act>, p: Path, ptr: RouteData, e: Entry)
    decreases |acts|
  {
    acts == [] || (Spares(s, acts[0], p, ptr, e) && Steady(FlatTake(s, acts[0]), acts[1..], p, ptr, e))
  }

  /** So a route stays listed at its topic, and its expression goes on leading
      there, whatever the others register and unsubscribe and whoever else leaves. */
  lemma {:induction false} StaysListed(b: State, acts: seq<Act>, b': State, exp: string, p: Path, ptr: RouteData,
                                       e: Entry)
    requires Ruled(b) && Goes(b, acts, b') && ListedFor(SubsOf(b), exp, p, ptr, e)
    requires Steady(SubsOf(b), acts, p, ptr, e)
    ensures Ruled(b') && ListedFor(SubsOf(b'), exp, p, ptr, e)
    decreases |acts|
  {
    if acts == [] {
    } else {
      ActSparesIff(b, acts[0], exp, p, ptr, e);
      TakeIsFlat(b, acts[0]);
      StaysListed(Take(b, acts[0]), acts[1..], b', exp, p, ptr, e);
    }
  }

  /** Where an expression is registered. */
  function Place(s: Subs, exp: string): Path { Resolve(s.flat.names, [], Tokenize(exp)) }

  ghost predicate LeadsTo(b: State, exp: string, p: Path) { FlatLocate(SubsOf(b).flat, exp) == Some(p) }

  lemma NewRouteListed(b: State, ptr: RouteData, e: Entry, exp: string)
    requires Ruled(b) && exp != ""
    ensures var s := SubsOf(b); ListedFor(Register(s, ptr, e, exp), exp, Place(s, exp), ptr, e)
  {
    TokenizeRoundTrip(exp);
    NamesTidy(b.tree.nodes);
    AddFinds(SubsOf(b).flat, exp, ptr);
  }

  /** What is listed at a topic that is not a table is answered for its full name. */
  lemma ListedIsAnswered(b: State, exp: string, p: Path, ptr: RouteData, e: Entry)
    requires Ruled(b) && !EndsInDot(exp) && ListedFor(SubsOf(b), exp, p, ptr, e) && p !in SubsOf(b).flat.tables
    ensures Answers(b.tree, exp, ptr)
  {
    LookupIsFlat(b.tree, exp);
    AmongDatas(GetTopicRoutes(b.tree, exp), ptr);
  }

  lemma AmongDatas(hs: seq<RouteRef>, ptr: RouteData)
    ensures ptr in Datas(hs) ==> exists h :: h in hs && h.data == ptr
  {
    if i :| 0 <= i < |hs| && Datas(hs)[i] == ptr { assert hs[i] in hs; }
  }

  /** After the act that made the route `ptr` at `exp` with entry `e`, the run spares it, and
      its topic is no table in the end. */
  ghost predicate Kept(b: State, a: Act, exp: string, ptr: RouteData, e: Entry, acts: seq<Act>, b': State) {
    && Steady(FlatTake(SubsOf(b), a), acts, Place(SubsOf(b), exp), ptr, e)
    && Place(SubsOf(b), exp) !in SubsOf(b').flat.tables
  }

  /** A route that has just been made stays listed. */
  lemma RegisteredStays(b: State, a: Act, exp: string, ptr: RouteData, e: Entry, acts: seq<Act>, b': State)
    requires Ruled(b) && Goes(b, [a] + acts, b') && exp != ""
    requires FlatTake(SubsOf(b), a) == Register(SubsOf(b), ptr, e, exp)
    requires Steady(FlatTake(SubsOf(b), a), acts, Place(SubsOf(b), exp), ptr, e)
    ensures Ruled(b') && ListedFor(SubsOf(b'), exp, Place(SubsOf(b), exp), ptr, e)
  {
    var all := [a] + acts;
    assert all[0] == a && all[1..] == acts;
    TakeIsFlat(b, a);
    NewRouteListed(b, ptr, e, exp);
    StaysListed(Take(b, a), acts, b', exp, Place(SubsOf(b), exp), ptr, e);
  }

  /** The entry a hello makes, and the one a subscribe message under a new id makes. */
  function InboxEntry(client: ClientId, inbox: string): Entry { Entry(false, client, 0, Stored(inbox)) }

  function SubscriptionEntry(client: ClientId, r: Request): Entry { Entry(false, client, r.routeId, Stored(r.topic)) }

  /** A client's inbox goes on being answered with its route after its hello, whatever is
      done that spares it, as long as nobody makes a table of it. */
  lemma InboxStays(b: State, client: ClientId, inbox: string, ptr: RouteData, acts: seq<Act>, b': State)
    requires Ruled(b) && inbox != "" && !EndsInDot(inbox) && Goes(b, [Hello(client, inbox, ptr)] + acts, b')
    requires Kept(b, Hello(client, inbox, ptr), inbox, ptr, InboxEntry(client, inbox), acts, b')
    ensures Ruled(b') && Answers(b'.tree, inbox, ptr) && ptr in b'.entries
    ensures OwnedBy(b'.entries[ptr], client) && b'.entries[ptr].id == 0
  {
    var e := InboxEntry(client, inbox);
    RegisteredStays(b, Hello(client, inbox, ptr), inbox, ptr, e, acts, b');
    ListedIsAnswered(b', inbox, Place(SubsOf(b), inbox), ptr, e);
  }

  /** So does a client's new subscription; it is answered for every topic that leads to
      where it was registered. */
  lemma SubscriptionStays(b: State, client: ClientId, r: Request, ptr: RouteData, acts: seq<Act>, b': State,
                          topic: string)
    requires Ruled(b) && r.add && r.topic != "" && FindById(b.routes, b.entries, client, r.routeId).None?
    requires Goes(b, [Hear(client, r, ptr)] + acts, b') && !EndsInDot(topic)
    requires Kept(b, Hear(client, r, ptr), r.topic, ptr, SubscriptionEntry(client, r), acts, b')
    requires topic == r.topic || LeadsTo(b', topic, Place(SubsOf(b), r.topic))
    ensures Ruled(b') && Answers(b'.tree, topic, ptr) && ptr in b'.entries
    ensures OwnedBy(b'.entries[ptr], client) && b'.entries[ptr].id == r.routeId
  {
    var e := SubscriptionEntry(client, r);
    RegisteredStays(b, Hear(client, r, ptr), r.topic, ptr, e, acts, b');
    ListedIsAnswered(b', topic, Place(SubsOf(b), r.topic), ptr, e);
  }

  // --------------------------------------------------------------- unsubscribing later

  /** The route `ptr` is the only one its client has for its expression. */
  ghost predicate OnlyRoute(b: State, client: ClientId, exp: string, ptr: RouteData) {
    forall p :: p in b.entries && OwnedBy(b.entries[p], client) && b.entries[p].expression == exp ==> p == ptr
  }

  /** After any run that spares a subscription its client can take it back: the route goes from
      the vector, the entries and every topic, and all others keep their places. */
  lemma UnsubscribedLater(b: State, client: ClientId, r: Request, ptr: RouteData, acts: seq<Act>, b': State,
                          back: Request, ptr2: RouteData)
    requires Ruled(b) && r.add && 0 < |r.topic| <= MAX_EXPRESSION
    requires FindById(b.routes, b.entries, client, r.routeId).None? && Goes(b, [Hear(client, r, ptr)] + acts, b')
    requires var s := FlatTake(SubsOf(b), Hear(client, r, ptr));
             Steady(s, acts, Place(SubsOf(b), r.topic), ptr, SubscriptionEntry(client, r))
    requires !back.add && back.topic == r.topic && OnlyRoute(b', client, r.topic, ptr)
    ensures Ruled(b') && ptr in b'.entries
    ensures var b'' := Subscribe(b', client, back, ptr2).0;
            && Broker.Inv(b'') && Cleared(b', b'', {ptr}) && ptr !in b''.entries && ptr !in b''.routes
            && ListedNowhere(b''.tree.nodes, ptr)
  {
    RegisteredStays(b, Hear(client, r, ptr), r.topic, ptr, SubscriptionEntry(client, r), acts, b');
    assert HasRoute(b', client, r.topic) by { assert b'.entries[ptr].expression == r.topic; }
    var own := UnsubscribeClears(b', client, back, ptr2);
  }

  /** Nobody else's unsubscribe finds it. */
  lemma OthersDoNotFind(b: State, other: ClientId, exp: string, ptr: RouteData)
    requires ptr in b.entries && !OwnedBy(b.entries[ptr], other)
    ensures FindByExpression(b.routes, b.entries, other, exp) != Some(ptr)
  {}

  /** A subscribe message under an id the sender has a route for registers that route at one more
      topic, or is refused and changes nothing for anybody. */
  lemma AliasIsRegistered(b: State, sender: ClientId, r: Request, ptr: RouteData)
    requires Ruled(b) && r.add && r.topic != "" && FindById(b.routes, b.entries, sender, r.routeId).Some?
    ensures var (b', code) := Subscribe(b, sender, r, ptr);
            var own := FindById(b.routes, b.entries, sender, r.routeId).value;
            && b'.routes == b.routes && b'.entries == b.entries
            && (code == Duplicate <==> Refused(b.tree, r.topic, true))
            && (code == Duplicate ==> b'.tree.nodes == b.tree.nodes)
            && (code == Ok ==> FlatTied(FlatOf(b'.tree), r.topic, own))
  {
    var own := FindById(b.routes, b.entries, sender, r.routeId).value;
    TokenizeRoundTrip(r.topic);
    RefusedIff(b.tree, r.topic, own, true);
    if Refused(b.tree, r.topic, true) {
      RefusedAddIsFlat(b.tree, r.topic, own, true);
    } else {
      NamesTidy(b.tree.nodes);
      AddIsFlat(b.tree, Add(r.topic, own, true));
      AliasFound(FlatOf(b.tree), r.topic, own);
    }
  }

  lemma AliasFound(f: Flat, topic: string, own: RouteData)
    requires Tidy(f.names) && Tokenize(topic) != [] && FlatAdd(f, topic, own, true).1 == Ok
    ensures FlatTied(FlatAdd(f, topic, own, true).0, topic, own)
  {
    SeekMade(f.names, Resolve(f.names, [], Tokenize(topic)), [], Tokenize(topic));
  }

  /** An unsubscribe that finds no route takes the topic of that name away with all below it,
      and what other topics list stays. */
  lemma UnsubscribedTopicGone(b: State, sender: ClientId, r: Request, ptr: RouteData, q: Path)
    requires Ruled(b) && !r.add && !HasRoute(b, sender, r.topic) && FlatCutPoint(FlatOf(b.tree), r.topic) == Some(q)
    ensures var b' := Subscribe(b, sender, r, ptr).0;
            && b'.routes == b.routes && b'.entries == b.entries
            && forall x :: RoutesAt(b'.tree.nodes, x) == if AtOrBelow(x, q) then [] else RoutesAt(b.tree.nodes, x)
  {
    var p, k := Parent(q), Last(q);
    FoundIff(b, sender, r.topic);
    CutPointIsFlat(b.tree, r.topic, q);
    forall x ensures RoutesAt(RemoveTopic(b.tree, r.topic).nodes, x) ==
                       if AtOrBelow(x, q) then [] else RoutesAt(b.tree.nodes, x)
    {
      CutRoutesAt(b.tree, p, k, x);
    }
  }

  lemma CutPointIsFlat(t: Tree, expr: string, q: Path)
    requires TreeInvariant.Inv(t) && RowsFirst(t.nodes) && FlatCutPoint(FlatOf(t), expr) == Some(q)
    ensures q != [] && Parent(q) in t.nodes && Parent(q) + [Last(q)] == q
    ensures RemoveTopic(t, expr) == Cut(t, Parent(q), Last(q))
  {
    var tokens := Tokenize(expr);
    WalkIsSeek(t.nodes, [], Parent(tokens));
    var p := Walk(t.nodes, [], Parent(tokens)).value;
    FindKidIsName(t.nodes, p, Last(tokens));
    KidListed(t.nodes, p, Last(tokens));
    assert q == p + [Last(tokens)] && Parent(q) == p && Last(q) == Last(tokens);
  }

  lemma CutRoutesAt(t: Tree, p: Path, k: string, x: Path)
    requires p in t.nodes
    ensures RoutesAt(Cut(t, p, k).nodes, x) == if AtOrBelow(x, p + [k]) then [] else RoutesAt(t.nodes, x)
  {}

  // ------------------------------------------------------------------ the own route

  const OWN := Entry(true, 0, 0, "_RTROUTED.>")

  /** After start-up the broker's own route is at each of its topics. */
  lemma {:induction false} RegisterAllTies(f: Flat, topics: seq<string>, ptr: RouteData, topic: string)
    requires Tidy(f.names) && topic in topics && topic != ""
    ensures FlatTied(RegisterAll(f, topics, ptr), topic, ptr)
    decreases |topics|
  {
    var f1 := FlatAdd(f, topics[0], ptr, false).0;
    AddKeepsTidy(f, topics[0], ptr, false);
    if topics[0] == topic {
      TokenizeRoundTrip(topic);
      AddFinds(f, topic, ptr);
      AddsKeepListed(f1, topics[1..], ptr, topic, ptr);
    } else {
      RegisterAllTies(f1, topics[1..], ptr, topic);
    }
  }

  /** Where the own route was registered for one of its topics. */
  function OwnPlace(topics: seq<string>, ptr: RouteData, topic: string): Path {
    var l := FlatLocate(RegisterAll(EMPTY_FLAT, topics, ptr), topic);
    if l.Some? then l.value else []
  }

  lemma BootListed(topics: seq<string>, ptr: RouteData, topic: string)
    requires topic in topics && topic != ""
    ensures ListedFor(FlatTake(NOBODY, Boot(topics, ptr)), topic, OwnPlace(topics, ptr, topic), ptr, OWN)
  {
    RegisterAllTies(EMPTY_FLAT, topics, ptr, topic);
  }

  /** After start-up the run spares the own route at the topic, which is no table in the end. */
  ghost predicate OwnKept(topics: seq<string>, ptr: RouteData, topic: string, acts: seq<Act>, b: State) {
    var p := OwnPlace(topics, ptr, topic);
    Steady(FlatTake(NOBODY, Boot(topics, ptr)), acts, p, ptr, OWN) && p !in SubsOf(b).flat.tables
  }

  /** Whatever is done that spares it, the own route goes on being answered at its topics. */
  lemma OwnRouteStays(topics: seq<string>, ptr: RouteData, acts: seq<Act>, b: State, topic: string)
    requires Goes(START, [Boot(topics, ptr)] + acts, b) && topic in topics && topic != "" && !EndsInDot(topic)
    requires OwnKept(topics, ptr, topic, acts, b)
    ensures Ruled(b) && Answers(b.tree, topic, ptr) && ptr in b.entries && b.entries[ptr].internal
  {
    var boot, p := Boot(topics, ptr), OwnPlace(topics, ptr, topic);
    var all := [boot] + acts;
    assert all[0] == boot && all[1..] == acts;
    StartIsFlat();
    TakeIsFlat(START, boot);
    BootListed(topics, ptr, topic);
    StaysListed(Take(START, boot), acts, b, topic, p, ptr, OWN);
    ListedIsAnswered(b, topic, p, ptr, OWN);
  }
}
