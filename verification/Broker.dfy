/** rtrouted.c: routes, subscriptions and dispatch over the routing tree. */
module Broker {
  import opened Sequences
  import opened Text
  import opened TopicTree
  import opened TreeInvariant
  import opened TreeQueries
  import opened MessageHeader

  type ClientId = nat

  /** `client` and `id` are the rtSubscription. `internal` tells the broker's own handler,
      which has no subscription, from rtRouted_ForwardMessage. */
  datatype Entry = Entry(internal: bool, client: ClientId, id: UInt32, expression: string)

  /** `routes` is the vector of route pointers, `entries` what the live ones point to. */
  datatype State = State(tree: Tree, routes: seq<RouteData>, entries: map<RouteData, Entry>)

  const MAX_EXPRESSION := 128

  const START := State(EMPTY_TREE, [], map[])

  predicate OwnedBy(e: Entry, client: ClientId) { !e.internal && e.client == client }

  /** The tree knows no pointer that is not a live entry of the vector. */
  ghost predicate Inv(b: State) {
    && TreeInvariant.Inv(b.tree)
    && NoDup(b.routes) && (forall p :: p in b.routes <==> p in b.entries)
    && (forall h :: h in b.tree.topicsOf ==> h.data in b.entries)
  }

  // ------------------------------------------------------------------ operations

  /** strncpy into the entry's array. */
  function Stored(exp: string): string {
    if |exp| <= MAX_EXPRESSION then exp else exp[..MAX_EXPRESSION]
  }

  /** rtRouted_AddRoute with the pointer malloc returned. */
  ghost function AddRoute(b: State, ptr: RouteData, e: Entry, exp: string): State
    requires Shape(b.tree.nodes)
  {
    State(AddTopicRoute(b.tree, exp, ptr, false).0, b.routes + [ptr], b.entries[ptr := e])
  }

  ghost function AddAlias(b: State, ptr: RouteData, exp: string): (State, Code)
    requires Shape(b.tree.nodes)
  {
    var (t, rc) := AddTopicRoute(b.tree, exp, ptr, true);
    (b.(tree := t), rc)
  }

  ghost function ClearRoute(b: State, ptr: RouteData): State {
    State(RemoveRoute(b.tree, ptr), RemoveFirst(b.routes, ptr), b.entries - {ptr})
  }

  /** The pointers of a client's routes, in vector order. */
  function Owned(routes: seq<RouteData>, entries: map<RouteData, Entry>, client: ClientId): (r: seq<RouteData>)
    ensures forall p :: p in r <==> p in routes && p in entries && OwnedBy(entries[p], client)
  {
    if routes == [] then []
    else
      var rest := Owned(routes[1..], entries, client);
      if routes[0] in entries && OwnedBy(entries[routes[0]], client) then [routes[0]] + rest else rest
  }

  ghost function ClearAll(b: State, ptrs: seq<RouteData>): State
    decreases |ptrs|
  {
    if ptrs == [] then b else ClearAll(ClearRoute(b, ptrs[0]), ptrs[1..])
  }

  /** rtRouted_ClearClientRoutes. */
  ghost function ClearClient(b: State, client: ClientId): State {
    ClearAll(b, Owned(b.routes, b.entries, client))
  }

  /** The first route of the sender with this id, for an alias. */
  function FindById(routes: seq<RouteData>, entries: map<RouteData, Entry>, sender: ClientId, id: UInt32)
    : (r: Option<RouteData>)
    ensures r.Some? ==> r.value in routes && r.value in entries && OwnedBy(entries[r.value], sender)
                        && entries[r.value].id == id
    ensures r.None? ==>
      forall p :: p in routes && p in entries && OwnedBy(entries[p], sender) ==> entries[p].id != id
  {
    if routes == [] then None
    else if routes[0] in entries && OwnedBy(entries[routes[0]], sender) && entries[routes[0]].id == id then
      Some(routes[0])
    else FindById(routes[1..], entries, sender, id)
  }

  /** The first route of the sender with this expression. */
  function FindByExpression(routes: seq<RouteData>, entries: map<RouteData, Entry>, sender: ClientId, exp: string)
    : (r: Option<RouteData>)
    ensures r.Some? ==> r.value in routes && r.value in entries && OwnedBy(entries[r.value], sender)
                        && entries[r.value].expression == exp
    ensures r.None? ==>
      forall p :: p in routes && p in entries && OwnedBy(entries[p], sender) ==> entries[p].expression != exp
  {
    if routes == [] then None
    else if routes[0] in entries && OwnedBy(entries[routes[0]], sender) && entries[routes[0]].expression == exp then
      Some(routes[0])
    else FindByExpression(routes[1..], entries, sender, exp)
  }

  /** Both find the first such route of the vector. */
  lemma {:induction false} FoundByIdIsFirst(routes: seq<RouteData>, entries: map<RouteData, Entry>, sender: ClientId,
                                            id: UInt32, i: nat)
    requires i < |routes| && routes[i] in entries && OwnedBy(entries[routes[i]], sender) && entries[routes[i]].id == id
    requires forall j :: 0 <= j < i && routes[j] in entries && OwnedBy(entries[routes[j]], sender) ==>
               entries[routes[j]].id != id
    ensures FindById(routes, entries, sender, id) == Some(routes[i])
  {
    if i > 0 { FoundByIdIsFirst(routes[1..], entries, sender, id, i - 1); }
  }

  lemma {:induction false} FoundByExpressionIsFirst(routes: seq<RouteData>, entries: map<RouteData, Entry>,
                                                    sender: ClientId, exp: string, i: nat)
    requires i < |routes| && routes[i] in entries && OwnedBy(entries[routes[i]], sender)
    requires entries[routes[i]].expression == exp
    requires forall j :: 0 <= j < i && routes[j] in entries && OwnedBy(entries[routes[j]], sender) ==>
               entries[routes[j]].expression != exp
    ensures FindByExpression(routes, entries, sender, exp) == Some(routes[i])
  {
    if i > 0 { FoundByExpressionIsFirst(routes[1..], entries, sender, exp, i - 1); }
  }

  /** A subscribe message that passed validation. */
  datatype Request = Request(add: bool, topic: string, routeId: UInt32)

  /** The decision in rtRouted_OnMessageSubscribe; `ptr` is what malloc would return. */
  ghost function Subscribe(b: State, sender: ClientId, r: Request, ptr: RouteData): (State, Code)
    requires Shape(b.tree.nodes)
  {
    if r.add then
      match FindById(b.routes, b.entries, sender, r.routeId)
      case Some(p) => AddAlias(b, p, r.topic)
      case None => (AddRoute(b, ptr, Entry(false, sender, r.routeId, Stored(r.topic)), r.topic), Ok)
    else
      match FindByExpression(b.routes, b.entries, sender, r.topic)
      case Some(p) => (ClearRoute(b, p), Ok)
      case None => (b.(tree := RemoveTopic(b.tree, r.topic)), Ok)
  }

  // ------------------------------------------------------------------- invariant

  lemma AddRouteKeeps(b: State, ptr: RouteData, e: Entry, exp: string)
    requires Inv(b) && ptr !in b.entries
    ensures Inv(AddRoute(b, ptr, e, exp)) && (Exact(b.tree) ==> Exact(AddRoute(b, ptr, e, exp).tree))
  {
    assert FindRoute(b.tree.routeList, ptr).None?;
    AddKeepsInvIff(b.tree, exp, ptr, false);
    AddMentions(b.tree, exp, ptr, false);
    PushNew(b.routes, ptr);
  }

  /** Adding makes no record but for the pointer it is given. */
  lemma AddMentions(t: Tree, exp: string, ptr: RouteData, errOnDup: bool)
    requires TreeInvariant.Inv(t)
    ensures forall h :: h in AddTopicRoute(t, exp, ptr, errOnDup).0.topicsOf ==> h in t.topicsOf || h.data == ptr
  {
    EnsureRouteInv(t, ptr);
  }

  lemma ClearRouteKeeps(b: State, ptr: RouteData)
    requires Inv(b)
    ensures var b' := ClearRoute(b, ptr);
            && Inv(b') && (Exact(b.tree) ==> Exact(b'.tree))
            && (forall h :: h in b'.tree.topicsOf <==> h in b.tree.topicsOf && h.data != ptr)
  {
    RemoveRouteKeeps(b.tree, ptr);
    RemoveFirstNoDup(b.routes, ptr);
  }

  /** The one misuse: an alias that its own route already has. Every topic but the
      advisory one is then refused as a duplicate. */
  ghost predicate AdvisoryAgain(b: State, sender: ClientId, r: Request)
    requires Shape(b.tree.nodes)
  {
    && r.add && r.topic == ADVISORY
    && var p := FindById(b.routes, b.entries, sender, r.routeId);
       p.Some? && ReAdds(b.tree, ADVISORY, p.value)
  }

  lemma AddedIsFirst(b: State, ptr: RouteData, e: Entry)
    requires Inv(b) && ptr !in b.entries && !e.internal && FindById(b.routes, b.entries, e.client, e.id).None?
    ensures FindById(b.routes + [ptr], b.entries[ptr := e], e.client, e.id) == Some(ptr)
  {
    assert ptr in b.routes + [ptr];
  }

  /** Any client gets there by asking for the advisory topic twice under one new id. */
  lemma AdvisoryTwice(b: State, sender: ClientId, r: Request, ptr: RouteData, ptr2: RouteData)
    requires Inv(b) && ptr !in b.entries && FindById(b.routes, b.entries, sender, r.routeId).None?
    requires r.add && r.topic == ADVISORY
    ensures var b1 := Subscribe(b, sender, r, ptr).0;
            && Inv(b1) && ptr in b1.entries && ReAdds(b1.tree, r.topic, ptr)
            && AdvisoryAgain(b1, sender, r) && !Inv(Subscribe(b1, sender, r, ptr2).0)
  {
    var e := Entry(false, sender, r.routeId, Stored(r.topic));
    var b1 := AddRoute(b, ptr, e, r.topic);
    AddRouteKeeps(b, ptr, e, r.topic);
    AddedIsTied(b.tree, r.topic, ptr);
    AddedIsFirst(b, ptr, e);
    AliasKeepsIff(b1, ptr, r.topic);
  }

  lemma AddedIsTied(t: Tree, exp: string, ptr: RouteData)
    requires TreeInvariant.Inv(t) && FindRoute(t.routeList, ptr).None? && exp != ""
    requires TreeInvariant.Inv(AddTopicRoute(t, exp, ptr, false).0)
    ensures ReAdds(AddTopicRoute(t, exp, ptr, false).0, exp, ptr)
  {
    TokenizeRoundTrip(exp);
    RefusedIff(t, exp, ptr, false);
    AddedIsFound(t, exp, ptr, false);
    var t' := AddTopicRoute(t, exp, ptr, false).0;
    var h := RouteRef(ptr, t.next);
    assert Assigned(t'.nodes, Locate(t'.nodes, exp).value, h);
    assert h in t'.routeList;
  }

  lemma AliasKeepsIff(b: State, ptr: RouteData, exp: string)
    requires Inv(b) && ptr in b.entries
    ensures Inv(AddAlias(b, ptr, exp).0) <==> !(exp == ADVISORY && ReAdds(b.tree, exp, ptr))
  {
    AddKeepsInvIff(b.tree, exp, ptr, true);
    AddMentions(b.tree, exp, ptr, true);
  }

  lemma DropTopicKeeps(b: State, exp: string)
    requires Inv(b)
    ensures Inv(b.(tree := RemoveTopic(b.tree, exp)))
  {
    RemoveTopicKeeps(b.tree, exp);
    RemoveTopicMentions(b.tree, exp);
  }

  /** Subscribing and unsubscribing keep the invariant except for AdvisoryAgain. */
  lemma SubscribeKeepsIff(b: State, sender: ClientId, r: Request, ptr: RouteData)
    requires Inv(b) && ptr !in b.entries
    ensures Inv(Subscribe(b, sender, r, ptr).0) <==> !AdvisoryAgain(b, sender, r)
  {
    if r.add {
      match FindById(b.routes, b.entries, sender, r.routeId)
      case Some(p) => AliasKeepsIff(b, p, r.topic);
      case None => AddRouteKeeps(b, ptr, Entry(false, sender, r.routeId, Stored(r.topic)), r.topic);
    } else {
      match FindByExpression(b.routes, b.entries, sender, r.topic)
      case Some(p) => ClearRouteKeeps(b, p);
      case None => DropTopicKeeps(b, r.topic);
    }
  }

  lemma RemoveTopicMentions(t: Tree, exp: string)
    requires Shape(t.nodes)
    ensures forall h :: h in RemoveTopic(t, exp).topicsOf ==> h in t.topicsOf
  {}

  lemma {:induction false} RemoveLeavesCopy(s: seq<RouteRef>, h: RouteRef)
    requires h in s
    ensures h in RemoveFirst(s + [h], h)
  {
    var r := s[1..] + [h];
    assert (s + [h])[1..] == r && r[|r| - 1] == h;
    RemoveFirstCons(s + [h], h);
    if s[0] != h {
      RemoveLeavesCopy(s[1..], h);
    }
  }

  lemma AliasListsTwice(b: State, ptr: RouteData, exp: string) returns (q: Path, h: RouteRef)
    requires Inv(b) && exp == ADVISORY && ReAdds(b.tree, exp, ptr)
    ensures var t := AddAlias(b, ptr, exp).0.tree;
            q in t.nodes && q != [] && FindRoute(t.routeList, ptr) == Some(h) && ListsTwice(t.nodes[q].routes, h)
  {
    var t := b.tree;
    var tokens := Tokenize(exp);
    WalkCreateFollowsWalk(t.nodes, [], tokens);
    q, h := Walk(t.nodes, [], tokens).value, FindRoute(t.routeList, ptr).value;
    var s := t.nodes[q].routes;
    assert h in s && AddAlias(b, ptr, exp).0.tree.nodes[q].routes == s + [h];
  }

  ghost predicate ListsTwice(routes: seq<RouteRef>, h: RouteRef) {
    exists s: seq<RouteRef> :: h in s && routes == s + [h]
  }

  lemma AliveItself(m: Topics, q: Path, h: RouteRef)
    requires q in m && h in RemoveFirst(m[q].routes, h)
    ensures Alive(m, q, h)
  {
    assert AtOrBelow(q, q);
  }

  lemma PruneKeepsCopy(t: Tree, ptr: RouteData, q: Path, h: RouteRef)
    requires q in t.nodes && q != [] && FindRoute(t.routeList, ptr) == Some(h) && ListsTwice(t.nodes[q].routes, h)
    ensures Assigned(RemoveRoute(t, ptr).nodes, q, h)
  {
    var s: seq<RouteRef> :| h in s && t.nodes[q].routes == s + [h];
    RemoveLeavesCopy(s, h);
    AliveItself(t.nodes, q, h);
    PruneAt(t.nodes, h, q);
  }

  /** What AdvisoryAgain leads to: the list holds the record twice, clearing the route
      takes one out, and the topic goes on listing a pointer that has been freed. */
  lemma AdvisoryDangles(b: State, ptr: RouteData, exp: string) returns (q: Path, h: RouteRef)
    requires Inv(b) && ptr in b.entries && exp == ADVISORY && ReAdds(b.tree, exp, ptr)
    ensures var b' := ClearRoute(AddAlias(b, ptr, exp).0, ptr);
            Assigned(b'.tree.nodes, q, h) && h.data == ptr && ptr !in b'.entries
  {
    q, h := AliasListsTwice(b, ptr, exp);
    var b1 := AddAlias(b, ptr, exp).0;
    PruneKeepsCopy(b1.tree, ptr, q, h);
    assert ClearRoute(b1, ptr).tree == RemoveRoute(b1.tree, ptr);
  }

  // ------------------------------------------------------------- clearing a client

  /** The elements outside `gone`, in their old order. */
  function Drop<T(==, !new)>(s: seq<T>, gone: set<T>): (r: seq<T>)
    ensures forall x :: x in r <==> x in s && x !in gone
  {
    if s == [] then []
    else if s[0] in gone then Drop(s[1..], gone)
    else [s[0]] + Drop(s[1..], gone)
  }

  lemma {:induction false} DropExcept<T(!new)>(s: seq<T>, x: T, gone: set<T>)
    ensures Drop(Except(s, x), gone) == Drop(s, gone + {x})
  {
    if s == [] {
    } else {
      DropExcept(s[1..], x, gone);
      var rest := Except(s[1..], x);
      if s[0] == x {
        assert Except(s, x) == rest;
      } else {
        assert Except(s, x) == [s[0]] + rest;
        assert ([s[0]] + rest)[1..] == rest;
      }
    }
  }

  lemma {:induction false} DropNothing<T(!new)>(s: seq<T>)
    ensures Drop(s, {}) == s
  {
    if s == [] {
    } else {
      DropNothing(s[1..]);
    }
  }

  /** The route records of other pointers, in their old order. */
  function DropData(s: seq<RouteRef>, gone: set<RouteData>): (r: seq<RouteRef>)
    ensures forall h :: h in r <==> h in s && h.data !in gone
  {
    if s == [] then []
    else if s[0].data in gone then DropData(s[1..], gone)
    else [s[0]] + DropData(s[1..], gone)
  }

  lemma {:induction false} DropDataExcept(s: seq<RouteRef>, h: RouteRef, gone: set<RouteData>)
    requires forall g :: g in s && g.data == h.data ==> g == h
    ensures DropData(Except(s, h), gone) == DropData(s, gone + {h.data})
  {
    if s == [] {
    } else {
      DropDataExcept(s[1..], h, gone);
      var rest := Except(s[1..], h);
      if s[0] == h {
        assert Except(s, h) == rest;
      } else {
        assert Except(s, h) == [s[0]] + rest;
        assert ([s[0]] + rest)[1..] == rest;
      }
    }
  }

  lemma {:induction false} DropDataNone(s: seq<RouteRef>, ptr: RouteData, gone: set<RouteData>)
    requires forall g :: g in s ==> g.data != ptr
    ensures DropData(s, gone) == DropData(s, gone + {ptr})
  {
    if s == [] {
    } else {
      DropDataNone(s[1..], ptr, gone);
    }
  }

  lemma {:induction false} DropDataNothing(s: seq<RouteRef>)
    ensures DropData(s, {}) == s
  {
    if s == [] {
    } else {
      DropDataNothing(s[1..]);
    }
  }

  /** `b'` is `b` without the pointers `gone`, and nothing else has changed for the rest. */
  ghost predicate Cleared(b: State, b': State, gone: set<RouteData>) {
    && b'.routes == Drop(b.routes, gone)
    && b'.entries == b.entries - gone
    && RecordsCleared(b.tree, b'.tree, gone)
    && forall p :: TopicCleared(b.tree.nodes, b'.tree.nodes, p, gone)
  }

  /** The tree's records: those of `gone` are out, the others keep their topics. */
  ghost predicate RecordsCleared(t: Tree, t': Tree, gone: set<RouteData>) {
    forall h {:trigger h in t'.topicsOf} {:trigger h in t.topicsOf} ::
      && (h in t'.topicsOf <==> h in t.topicsOf && h.data !in gone)
      && (h in t'.topicsOf ==> t'.topicsOf[h] == t.topicsOf[h])
  }

  /** A topic with a route of somebody else stays; what stays lists those routes in order. */
  ghost predicate TopicCleared(m: Topics, m': Topics, p: Path, gone: set<RouteData>) {
    && (p in m' ==> p in m && m'[p].routes == DropData(m[p].routes, gone))
    && (p in m && DropData(m[p].routes, gone) != [] ==> p in m')
  }

  /** Without a pointer's record the list is without its pointer. */
  lemma DropsRecord(t: Tree, p: Path, h: RouteRef)
    requires TreeInvariant.Inv(t) && p in t.nodes && h in t.routeList
    ensures DropData(t.nodes[p].routes, {h.data}) == Except(t.nodes[p].routes, h)
  {
    var hs := t.nodes[p].routes;
    forall g | g in hs && g.data == h.data ensures g == h {
      assert Assigned(t.nodes, p, g);
      RoutesAreLive(t, p, g);
    }
    DropDataExcept(hs, h, {});
    DropDataNothing(Except(hs, h));
    assert {} + {h.data} == {h.data};
  }

  lemma DropsNothing(t: Tree, p: Path, ptr: RouteData)
    requires TreeInvariant.Inv(t) && p in t.nodes && FindRoute(t.routeList, ptr).None?
    ensures DropData(t.nodes[p].routes, {ptr}) == t.nodes[p].routes
  {
    var hs := t.nodes[p].routes;
    forall g | g in hs ensures g.data != ptr {
      assert Assigned(t.nodes, p, g);
      RoutesAreLive(t, p, g);
    }
    DropDataNone(hs, ptr, {});
    DropDataNothing(hs);
    assert {} + {ptr} == {ptr};
  }

  lemma ClearRouteTopic(b: State, ptr: RouteData, p: Path)
    requires Inv(b)
    ensures TopicCleared(b.tree.nodes, ClearRoute(b, ptr).tree.nodes, p, {ptr})
  {
    var t := b.tree;
    if p in t.nodes {
      match FindRoute(t.routeList, ptr)
      case None => DropsNothing(t, p, ptr);
      case Some(h) =>
        RemoveRouteKeepsNeeded(t, ptr);
        DropsRecord(t, p, h);
        PrunedClears(t.nodes, RemoveRoute(t, ptr).nodes, p, h);
    } else {
      RemoveRouteAddsNoTopic(t, ptr, p);
    }
  }

  lemma PrunedClears(m: Topics, m': Topics, p: Path, h: RouteRef)
    requires p in m && PrunedRight(m, m', p, h) && DropData(m[p].routes, {h.data}) == Except(m[p].routes, h)
    ensures TopicCleared(m, m', p, {h.data})
  {
    var rest := Except(m[p].routes, h);
    if rest != [] { assert rest[0] in rest && AtOrBelow(p, p) && Assigned(m, p, rest[0]); }
  }

  lemma RemoveRouteAddsNoTopic(t: Tree, ptr: RouteData, p: Path)
    ensures p in RemoveRoute(t, ptr).nodes ==> p in t.nodes
  {}

  lemma ClearRouteCleared(b: State, ptr: RouteData)
    requires Inv(b)
    ensures Cleared(b, ClearRoute(b, ptr), {ptr})
  {
    var b' := ClearRoute(b, ptr);
    assert {} + {ptr} == {ptr};
    RemoveFirstIsExcept(b.routes, ptr);
    DropExcept(b.routes, ptr, {});
    DropNothing(Except(b.routes, ptr));
    ClearRouteKeeps(b, ptr);
    forall p ensures TopicCleared(b.tree.nodes, b'.tree.nodes, p, {ptr}) { ClearRouteTopic(b, ptr, p); }
  }

  lemma {:induction false} DropTwice<T(!new)>(s: seq<T>, g1: set<T>, g2: set<T>)
    ensures Drop(Drop(s, g1), g2) == Drop(s, g1 + g2)
  {
    if s == [] {
    } else {
      DropTwice(s[1..], g1, g2);
    }
  }

  lemma {:induction false} DropDataTwice(s: seq<RouteRef>, g1: set<RouteData>, g2: set<RouteData>)
    ensures DropData(DropData(s, g1), g2) == DropData(s, g1 + g2)
  {
    if s == [] {
    } else {
      DropDataTwice(s[1..], g1, g2);
    }
  }

  lemma ClearedTwice(b: State, b1: State, b2: State, g1: set<RouteData>, g2: set<RouteData>)
    requires Cleared(b, b1, g1) && Cleared(b1, b2, g2)
    ensures Cleared(b, b2, g1 + g2)
  {
    DropTwice(b.routes, g1, g2);
    assert b.entries - g1 - g2 == b.entries - (g1 + g2);
    forall p ensures TopicCleared(b.tree.nodes, b2.tree.nodes, p, g1 + g2) {
      assert TopicCleared(b.tree.nodes, b1.tree.nodes, p, g1);
      assert TopicCleared(b1.tree.nodes, b2.tree.nodes, p, g2);
      if p in b.tree.nodes {
        DropDataTwice(b.tree.nodes[p].routes, g1, g2);
      }
    }
  }

  ghost function Elements<T>(s: seq<T>): set<T> { set x | x in s }

  lemma {:induction false} ClearAllKeeps(b: State, ptrs: seq<RouteData>)
    requires Inv(b)
    ensures Inv(ClearAll(b, ptrs)) && (Exact(b.tree) ==> Exact(ClearAll(b, ptrs).tree))
    decreases |ptrs|
  {
    if ptrs == [] {
    } else {
      ClearRouteKeeps(b, ptrs[0]);
      ClearAllKeeps(ClearRoute(b, ptrs[0]), ptrs[1..]);
    }
  }

  lemma {:induction false} ClearAllCleared(b: State, ptrs: seq<RouteData>)
    requires Inv(b)
    ensures Cleared(b, ClearAll(b, ptrs), Elements(ptrs))
    decreases |ptrs|
  {
    if ptrs == [] {
      NothingCleared(b);
      assert Elements(ptrs) == {};
    } else {
      var b1 := ClearRoute(b, ptrs[0]);
      ClearRouteKeeps(b, ptrs[0]);
      ClearRouteCleared(b, ptrs[0]);
      ClearAllCleared(b1, ptrs[1..]);
      ClearedTwice(b, b1, ClearAll(b, ptrs), {ptrs[0]}, Elements(ptrs[1..]));
      assert Elements(ptrs) == {ptrs[0]} + Elements(ptrs[1..]);
    }
  }

  lemma NothingCleared(b: State)
    ensures Cleared(b, b, {})
  {
    DropNothing(b.routes);
    forall p ensures TopicCleared(b.tree.nodes, b.tree.nodes, p, {}) {
      if p in b.tree.nodes { DropDataNothing(b.tree.nodes[p].routes); }
    }
  }

  /** An index entry left for one of the pointers is a record that had been freed before. */
  ghost predicate IndexCleared(t: Tree, t': Tree, gone: set<RouteData>) {
    forall q, h :: Indexed(t'.nodes, q, h) ==> Indexed(t.nodes, q, h) && (h.data in gone ==> h !in t.topicsOf)
  }

  ghost predicate Indexed(m: Topics, q: Path, h: RouteRef) { q in m && h in m[q].routes2 }

  lemma ClearRouteIndex(b: State, ptr: RouteData)
    requires Inv(b)
    ensures IndexCleared(b.tree, ClearRoute(b, ptr).tree, {ptr})
  {
    var t, t' := b.tree, ClearRoute(b, ptr).tree;
    forall q, h | Indexed(t'.nodes, q, h)
      ensures Indexed(t.nodes, q, h) && (h.data == ptr ==> h !in t.topicsOf)
    {
      if FindRoute(t.routeList, ptr).Some? && q != [] {
        var g := FindRoute(t.routeList, ptr).value;
        assert Below(q, []) && NodeOk(t.nodes[q], t.next);
        RemoveFirstNoDup(t.nodes[q].routes2, g);
      }
    }
  }

  lemma {:induction false} ClearAllIndex(b: State, ptrs: seq<RouteData>)
    requires Inv(b)
    ensures IndexCleared(b.tree, ClearAll(b, ptrs).tree, Elements(ptrs))
    decreases |ptrs|
  {
    if ptrs == [] {
    } else {
      ClearRouteKeeps(b, ptrs[0]);
      ClearRouteIndex(b, ptrs[0]);
      ClearAllIndex(ClearRoute(b, ptrs[0]), ptrs[1..]);
      assert Elements(ptrs) == {ptrs[0]} + Elements(ptrs[1..]);
    }
  }

  /** After a disconnect the vector is the old one without the client's routes, in order;
      no record and no topic's list has them, and the index has of theirs at most what it
      had of records freed before, so nothing if it was exact; everybody else's routes
      keep their topics and their order. */
  lemma ClearClientRight(b: State, client: ClientId)
    requires Inv(b)
    ensures var b' := ClearClient(b, client);
            var gone := Elements(Owned(b.routes, b.entries, client));
            && Inv(b') && Cleared(b, b', gone)
            && (forall p :: p in gone <==> p in b.entries && OwnedBy(b.entries[p], client))
            && IndexCleared(b.tree, b'.tree, gone)
            && (Exact(b.tree) ==> forall q :: q in b'.tree.nodes ==> NoneOf(b'.tree.nodes[q].routes2, gone))
  {
    var ptrs := Owned(b.routes, b.entries, client);
    ClearAllKeeps(b, ptrs);
    ClearAllCleared(b, ptrs);
    ClearAllIndex(b, ptrs);
    var t := ClearAll(b, ptrs).tree;
    if Exact(b.tree) {
      forall q | q in t.nodes ensures NoneOf(t.nodes[q].routes2, Elements(ptrs)) { IndexRegistered(t, q); }
    }
  }

  ghost predicate NoneOf(s: seq<RouteRef>, gone: set<RouteData>) { forall h :: h in s ==> h.data !in gone }

  /** A new route is among those its own topic is answered with exactly when the topic is
      not a table, one with a "{" child. */
  lemma NewRouteHeardIff(b: State, ptr: RouteData, e: Entry, exp: string)
    requires Inv(b) && ptr !in b.entries && exp != "" && !EndsInDot(exp)
    ensures var b' := AddRoute(b, ptr, e, exp);
            Shape(b'.tree.nodes) && (Answers(b'.tree, exp, ptr) <==> NoTable(b.tree, exp))
  {
    TokenizeRoundTrip(exp);
    assert FindRoute(b.tree.routeList, ptr).None?;
    AddedIsAnsweredIff(b.tree, exp, ptr, false);
  }

  /** So a client that subscribes under a new id is a receiver exactly then. */
  lemma SubscriberHeardIff(b: State, sender: ClientId, r: Request, ptr: RouteData)
    requires Inv(b) && ptr !in b.entries
    requires r.add && FindById(b.routes, b.entries, sender, r.routeId).None? && r.topic != "" && !EndsInDot(r.topic)
    ensures var b' := Subscribe(b, sender, r, ptr).0;
            && Shape(b'.tree.nodes) && (Answers(b'.tree, r.topic, ptr) <==> NoTable(b.tree, r.topic))
            && ptr in b'.entries && OwnedBy(b'.entries[ptr], sender) && b'.entries[ptr].id == r.routeId
  {
    NewRouteHeardIff(b, ptr, Entry(false, sender, r.routeId, Stored(r.topic)), r.topic);
  }

  // ------------------------------------------------------------------ unsubscribing

  function RoutesAt(m: Topics, p: Path): seq<RouteRef> { if p in m then m[p].routes else [] }

  /** What a topic lists of routes other than `mine`. */
  function ListOf(m: Topics, p: Path, mine: set<RouteData>): seq<RouteRef> { DropData(RoutesAt(m, p), mine) }

  /** Every topic lists the same routes of other clients, and none of those has gone. */
  ghost predicate OthersKept(b: State, b': State, mine: set<RouteData>) {
    && (forall p :: ListOf(b'.tree.nodes, p, mine) == ListOf(b.tree.nodes, p, mine))
    && (forall ptr :: ptr in b.entries && ptr !in mine ==> ptr in b'.entries && b'.entries[ptr] == b.entries[ptr])
  }

  ghost predicate OnlyMine(m: Topics, p: Path, mine: set<RouteData>) {
    forall h :: Assigned(m, p, h) ==> h.data in mine
  }

  /** No topic that unsubscribing `topic` would cut away is another client's. */
  ghost predicate CutIsMine(t: Tree, topic: string, mine: set<RouteData>)
    requires Shape(t.nodes)
  {
    CutPoint(t, topic).Some? ==>
      forall p :: AtOrBelow(p, CutPoint(t, topic).value + [Last(Tokenize(topic))]) ==> OnlyMine(t.nodes, p, mine)
  }

  lemma {:induction false} DropDataAll(s: seq<RouteRef>, gone: set<RouteData>)
    ensures DropData(s, gone) == [] <==> forall h :: h in s ==> h.data in gone
  {
    if s == [] {
    } else {
      DropDataAll(s[1..], gone);
      assert forall h :: h in s <==> h == s[0] || h in s[1..];
    }
  }

  lemma NothingListedIff(m: Topics, p: Path, mine: set<RouteData>)
    ensures ListOf(m, p, mine) == [] <==> OnlyMine(m, p, mine)
  {
    DropDataAll(RoutesAt(m, p), mine);
    assert forall h :: h in RoutesAt(m, p) <==> Assigned(m, p, h);
  }

  lemma CutLists(t: Tree, p: Path, name: string, x: Path, mine: set<RouteData>)
    requires p in t.nodes
    ensures ListOf(Cut(t, p, name).nodes, x, mine) == if AtOrBelow(x, p + [name]) then [] else ListOf(t.nodes, x, mine)
  {}

  lemma CutSparesIff(b: State, topic: string, mine: set<RouteData>)
    requires Inv(b)
    ensures OthersKept(b, b.(tree := RemoveTopic(b.tree, topic)), mine) <==> CutIsMine(b.tree, topic, mine)
  {
    match CutPoint(b.tree, topic)
    case None =>
    case Some(p) =>
      var k := Last(Tokenize(topic));
      forall x ensures ListOf(RemoveTopic(b.tree, topic).nodes, x, mine) == ListOf(b.tree.nodes, x, mine) <==>
                         !AtOrBelow(x, p + [k]) || OnlyMine(b.tree.nodes, x, mine)
      {
        CutLists(b.tree, p, k, x, mine);
        NothingListedIff(b.tree.nodes, x, mine);
      }
  }

  lemma ClearSparesOthers(b: State, ptr: RouteData, mine: set<RouteData>)
    requires Inv(b) && ptr in mine
    ensures OthersKept(b, ClearRoute(b, ptr), mine)
  {
    ClearRouteCleared(b, ptr);
    assert {ptr} + mine == mine;
    var m, m' := b.tree.nodes, ClearRoute(b, ptr).tree.nodes;
    forall p ensures ListOf(m', p, mine) == ListOf(m, p, mine) {
      assert TopicCleared(m, m', p, {ptr});
      assert RoutesAt(m', p) == DropData(RoutesAt(m, p), {ptr});
      DropDataTwice(RoutesAt(m, p), {ptr}, mine);
    }
  }

  /** An unsubscribe leaves every other client's routes and topics as they were exactly when
      the sender has a route of that expression, or what is cut away instead is its own. */
  lemma UnsubscribeSparesIff(b: State, sender: ClientId, r: Request, ptr: RouteData)
    requires Inv(b) && !r.add
    ensures var mine := Elements(Owned(b.routes, b.entries, sender));
            OthersKept(b, Subscribe(b, sender, r, ptr).0, mine) <==>
              FindByExpression(b.routes, b.entries, sender, r.topic).Some? || CutIsMine(b.tree, r.topic, mine)
  {
    var mine := Elements(Owned(b.routes, b.entries, sender));
    match FindByExpression(b.routes, b.entries, sender, r.topic)
    case Some(p) => ClearSparesOthers(b, p, mine);
    case None => CutSparesIff(b, r.topic, mine);
  }

  // ------------------------------------------------- subscribing and unsubscribing

  lemma GrownLists(m: Topics, m': Topics, p: Path)
    requires Grown(m, m')
    ensures RoutesAt(m', p) == RoutesAt(m, p)
  {}

  lemma AssignLists(m: Topics, at: Path, h: RouteRef, p: Path)
    requires at in m
    ensures RoutesAt(AssignRoute(m, at, h), p) == RoutesAt(m, p) + if p == at then [h] else []
  {}

  lemma AddedRoutes(t: Tree, exp: string, ptr: RouteData, p: Path)
    requires TreeInvariant.Inv(t) && FindRoute(t.routeList, ptr).None?
    ensures var hs := RoutesAt(AddTopicRoute(t, exp, ptr, false).0.nodes, p);
            hs == RoutesAt(t.nodes, p) || hs == RoutesAt(t.nodes, p) + [RouteRef(ptr, t.next)]
  {
    if Tokenize(exp) != [] {
      var w := WalkCreate(t.nodes, [], Tokenize(exp));
      TokenizePlain(exp);
      WalkCreateGrows(t.nodes, [], Tokenize(exp), t.next);
      AddResult(t, exp, ptr, false);
      GrownLists(t.nodes, w.nodes, p);
      AssignLists(w.nodes, w.path, EnsureRoute(t, ptr).1, p);
    }
  }

  lemma NewPointerUnlisted(t: Tree, ptr: RouteData, p: Path)
    requires TreeInvariant.Inv(t) && FindRoute(t.routeList, ptr).None?
    ensures DropData(RoutesAt(t.nodes, p), {ptr}) == RoutesAt(t.nodes, p)
  {
    if p in t.nodes { DropsNothing(t, p, ptr); }
  }

  /** What every topic lists of the others is untouched by a new pointer's registration. */
  lemma AddedBesides(t: Tree, exp: string, ptr: RouteData, p: Path)
    requires TreeInvariant.Inv(t) && FindRoute(t.routeList, ptr).None?
    ensures DropData(RoutesAt(AddTopicRoute(t, exp, ptr, false).0.nodes, p), {ptr}) == RoutesAt(t.nodes, p)
  {
    AddedRoutes(t, exp, ptr, p);
    NewPointerUnlisted(t, ptr, p);
    DropDataSnoc(RoutesAt(t.nodes, p), RouteRef(ptr, t.next), {ptr});
  }

  lemma {:induction false} DropDataSnoc(s: seq<RouteRef>, h: RouteRef, gone: set<RouteData>)
    requires h.data in gone
    ensures DropData(s + [h], gone) == DropData(s, gone)
  {
    if s == [] {
    } else {
      assert (s + [h])[1..] == s[1..] + [h];
      DropDataSnoc(s[1..], h, gone);
    }
  }

  lemma ClearedLists(m: Topics, m': Topics, p: Path, ptr: RouteData)
    requires TopicCleared(m, m', p, {ptr})
    ensures RoutesAt(m', p) == DropData(RoutesAt(m, p), {ptr})
  {}

  /** No topic lists the pointer. */
  ghost predicate ListedNowhere(m: Topics, ptr: RouteData) { forall p, h :: Assigned(m, p, h) ==> h.data != ptr }

  /** The sender has a route of this expression. */
  ghost predicate HasRoute(b: State, sender: ClientId, exp: string) {
    exists p :: p in b.entries && OwnedBy(b.entries[p], sender) && b.entries[p].expression == exp
  }

  lemma FoundIff(b: State, sender: ClientId, exp: string)
    requires Inv(b)
    ensures FindByExpression(b.routes, b.entries, sender, exp).Some? <==> HasRoute(b, sender, exp)
  {
    if p :| p in b.entries && OwnedBy(b.entries[p], sender) && b.entries[p].expression == exp { assert p in b.routes; }
  }

  lemma NewEntryFoundIff(routes: seq<RouteData>, entries: map<RouteData, Entry>, ptr: RouteData, e: Entry,
                         sender: ClientId, exp: string)
    requires FindByExpression(routes, entries, sender, exp).None? && ptr !in entries
    requires forall p :: p in routes <==> p in entries
    ensures FindByExpression(routes + [ptr], entries[ptr := e], sender, exp) ==
              if OwnedBy(e, sender) && e.expression == exp then Some(ptr) else None
  {
    assert ptr in routes + [ptr];
  }

  /** A route that the sender subscribed under a new id is the one an unsubscribe of the same
      expression finds exactly if the expression fits the entry. */
  lemma SubscribedIsFoundIff(b: State, sender: ClientId, r: Request, ptr: RouteData)
    requires Inv(b) && ptr !in b.entries && r.add && FindById(b.routes, b.entries, sender, r.routeId).None?
    requires !HasRoute(b, sender, r.topic)
    ensures var b1 := Subscribe(b, sender, r, ptr).0;
            FindByExpression(b1.routes, b1.entries, sender, r.topic) ==
              if |r.topic| <= MAX_EXPRESSION then Some(ptr) else None
  {
    var e := Entry(false, sender, r.routeId, Stored(r.topic));
    FoundIff(b, sender, r.topic);
    NewEntryFoundIff(b.routes, b.entries, ptr, e, sender, r.topic);
    assert Subscribe(b, sender, r, ptr).0 == AddRoute(b, ptr, e, r.topic);
  }

  /** What an unsubscribe does when the sender has a route of the expression: one such route
      is cleared, and everybody's other routes keep their places everywhere. */
  lemma UnsubscribeClears(b: State, sender: ClientId, r: Request, ptr: RouteData) returns (own: RouteData)
    requires Inv(b) && !r.add && HasRoute(b, sender, r.topic)
    ensures own in b.entries && OwnedBy(b.entries[own], sender) && b.entries[own].expression == r.topic
    ensures var b' := Subscribe(b, sender, r, ptr).0;
            && Inv(b') && Cleared(b, b', {own}) && own !in b'.entries && own !in b'.routes
            && ListedNowhere(b'.tree.nodes, own)
  {
    FoundIff(b, sender, r.topic);
    own := FindByExpression(b.routes, b.entries, sender, r.topic).value;
    ClearRouteKeeps(b, own);
    ClearRouteCleared(b, own);
    var b' := ClearRoute(b, own);
    forall p, h | Assigned(b'.tree.nodes, p, h) ensures h.data != own { RoutesAreLive(b'.tree, p, h); }
  }

  /** `b'` is `b` in vector and entries and in what every topic lists. */
  ghost predicate SameRoutes(b: State, b': State) {
    && b'.routes == b.routes && b'.entries == b.entries
    && forall p :: RoutesAt(b'.tree.nodes, p) == RoutesAt(b.tree.nodes, p)
  }

  lemma AddClearVector(b: State, ptr: RouteData, e: Entry, exp: string)
    requires Inv(b) && ptr !in b.entries
    ensures var b' := ClearRoute(AddRoute(b, ptr, e, exp), ptr); b'.routes == b.routes && b'.entries == b.entries
  {
    RemoveLast(b.routes, ptr);
    PutTaken(b.entries, ptr, e);
  }

  lemma PutTaken(m: map<RouteData, Entry>, ptr: RouteData, e: Entry)
    requires ptr !in m
    ensures m[ptr := e] - {ptr} == m
  {}

  lemma AddClearUndoes(b: State, ptr: RouteData, e: Entry, exp: string, b1: State, b2: State)
    requires Inv(b) && ptr !in b.entries && b1 == AddRoute(b, ptr, e, exp) && b2 == ClearRoute(b1, ptr)
    ensures Inv(b2) && SameRoutes(b, b2) && ListedNowhere(b2.tree.nodes, ptr)
  {
    AddRouteKeeps(b, ptr, e, exp);
    ClearRouteCleared(b1, ptr);
    ClearRouteKeeps(b1, ptr);
    AddClearVector(b, ptr, e, exp);
    AddClearLists(b, ptr, e, exp, b1, b2);
  }

  lemma AddClearLists(b: State, ptr: RouteData, e: Entry, exp: string, b1: State, b2: State)
    requires Inv(b) && ptr !in b.entries && b1 == AddRoute(b, ptr, e, exp) && Inv(b2) && ptr !in b2.entries
    requires forall p :: TopicCleared(b1.tree.nodes, b2.tree.nodes, p, {ptr})
    ensures forall p :: RoutesAt(b2.tree.nodes, p) == RoutesAt(b.tree.nodes, p)
    ensures ListedNowhere(b2.tree.nodes, ptr)
  {
    forall p ensures RoutesAt(b2.tree.nodes, p) == RoutesAt(b.tree.nodes, p) {
      ClearedLists(b1.tree.nodes, b2.tree.nodes, p, ptr);
      AddedBesides(b.tree, exp, ptr, p);
    }
    forall p, h | Assigned(b2.tree.nodes, p, h) ensures h.data != ptr { RoutesAreLive(b2.tree, p, h); }
  }

  /** Subscribing under a new id and unsubscribing again leaves the broker as it was: the
      vector, the entries, and what every topic lists. */
  lemma UnsubscribeUndoes(b: State, sender: ClientId, r: Request, ptr: RouteData, back: Request, ptr2: RouteData)
    requires Inv(b) && ptr !in b.entries && r.add && FindById(b.routes, b.entries, sender, r.routeId).None?
    requires !HasRoute(b, sender, r.topic) && |r.topic| <= MAX_EXPRESSION && !back.add && back.topic == r.topic
    ensures Shape(Subscribe(b, sender, r, ptr).0.tree.nodes)
    ensures var b' := Subscribe(Subscribe(b, sender, r, ptr).0, sender, back, ptr2).0;
            Inv(b') && SameRoutes(b, b') && ListedNowhere(b'.tree.nodes, ptr)
  {
    var e := Entry(false, sender, r.routeId, Stored(r.topic));
    AddRouteKeeps(b, ptr, e, r.topic);
    SubscribedIsFoundIff(b, sender, r, ptr);
    var b1 := AddRoute(b, ptr, e, r.topic);
    AddClearUndoes(b, ptr, e, r.topic, b1, ClearRoute(b1, ptr));
  }

  lemma RemoveLast(s: seq<RouteData>, x: RouteData)
    requires x !in s
    ensures RemoveFirst(s + [x], x) == s
  {
    IndexOfAt(s + [x], x, |s|);
  }

  lemma TwoLevelsCut(a: string, b: string, h: RouteRef)
    requires a != "" && '.' !in a && '.' !in b
    ensures Shape(TwoLevels(a, b, h).nodes) && CutPoint(TwoLevels(a, b, h), a) == Some([]) && Tokenize(a) == [a]
    ensures Assigned(TwoLevels(a, b, h).nodes, [a, b], h)
  {
    TwoLevelsShape(a, b, h);
    OneToken(a);
    assert Parent([a]) == [] && Last([a]) == a;
  }

  /** Client 1 has the only route, and it is registered under "a.b" only. */
  function OneSubscriber(a: string, b: string, h: RouteRef, id: UInt32): State {
    State(TwoLevels(a, b, h), [h.data], map[h.data := Entry(false, 1, id, a + "." + b)])
  }

  lemma OneSubscriberInv(a: string, b: string, h: RouteRef, id: UInt32)
    requires '.' !in a && '.' !in b
    ensures Inv(OneSubscriber(a, b, h, id))
  {
    TwoLevelsInv(a, b, h);
  }

  lemma CutHits(t: Tree, a: string, b: string, h: RouteRef)
    requires Shape(t.nodes) && CutPoint(t, a) == Some([]) && Tokenize(a) == [a] && Assigned(t.nodes, [a, b], h)
    ensures forall mine :: h.data !in mine ==> !CutIsMine(t, a, mine)
  {
    assert [] + [a] == [a] && Last([a]) == a && AtOrBelow([a, b], [a]);
    assert forall mine :: h.data !in mine ==> !OnlyMine(t.nodes, [a, b], mine);
  }

  /** It may well hit somebody else: client 2, who has no route, unsubscribes "a", and client
      1's topic does not list client 1's route any more. */
  lemma UnsubscribeHits(a: string, b: string, h: RouteRef, id: UInt32, s: State, ptr: RouteData)
    requires a != "" && '.' !in a && '.' !in b && s == OneSubscriber(a, b, h, id)
    ensures Inv(s)
    ensures !OthersKept(s, Subscribe(s, 2, Request(false, a, id), ptr).0, Elements(Owned(s.routes, s.entries, 2)))
  {
    OneSubscriberInv(a, b, h, id);
    TwoLevelsCut(a, b, h);
    CutHits(s.tree, a, b, h);
    UnsubscribeSparesIff(s, 2, Request(false, a, id), ptr);
  }

  // ------------------------------------------------------------------------ runs

  /** The topics of the broker's own route, each registered without an error on duplicates. */
  ghost function AddTopics(t: Tree, exps: seq<string>, ptr: RouteData): (r: Tree)
    requires Shape(t.nodes)
    ensures Shape(r.nodes)
    decreases |exps|
  {
    if exps == [] then t
    else
      AddShape(t, exps[0], ptr, false);
      AddTopics(AddTopicRoute(t, exps[0], ptr, false).0, exps[1..], ptr)
  }

  lemma AddShape(t: Tree, exp: string, ptr: RouteData, errOnDup: bool)
    requires Shape(t.nodes)
    ensures Shape(AddTopicRoute(t, exp, ptr, errOnDup).0.nodes)
  {
    if Tokenize(exp) != [] {
      var w := WalkCreate(t.nodes, [], Tokenize(exp));
      AddResult(t, exp, ptr, errOnDup);
      AssignShape(w.nodes, w.path, EnsureRoute(t, ptr).1);
    }
  }

  /** What the broker registers at start-up. */
  const SUBSCRIBE_TOPIC := "_RTROUTED.INBOX.SUBSCRIBE"
  const QUERY_TOPIC := "_RTROUTED.INBOX.QUERY"
  const COMPONENTS_TOPIC := "_registered_components"
  const ELEMENTS_TOPIC := "_enumerate_elements"
  const ORIGIN_TOPIC := "_trace_origin_object"
  const DIAG_TOPIC := "_RTROUTED.INBOX.DIAG"
  const BOOT_TOPICS :=
    [SUBSCRIBE_TOPIC, QUERY_TOPIC, COMPONENTS_TOPIC, ELEMENTS_TOPIC, ORIGIN_TOPIC, DIAG_TOPIC]

  /** The broker's own route with all its topics, an inbox from a hello message, a subscribe
      message, a client gone; `ptr` is what malloc returned. */
  datatype Act =
    | Boot(topics: seq<string>, ptr: RouteData)
    | Hello(sender: ClientId, inbox: string, ptr: RouteData)
    | Hear(sender: ClientId, request: Request, ptr: RouteData)
    | Leave(client: ClientId)

  ghost function Take(b: State, a: Act): State
    requires Shape(b.tree.nodes)
  {
    match a
    case Boot(topics, ptr) =>
      State(AddTopics(b.tree, topics, ptr), b.routes + [ptr], b.entries[ptr := Entry(true, 0, 0, "_RTROUTED.>")])
    case Hello(sender, inbox, ptr) => AddRoute(b, ptr, Entry(false, sender, 0, Stored(inbox)), inbox)
    case Hear(sender, request, ptr) => Subscribe(b, sender, request, ptr).0
    case Leave(client) => ClearClient(b, client)
  }

  predicate NoInstances(tokens: seq<string>) { forall k :: k in tokens ==> !InstanceToken(k) }

  /** Different topics without row ids, so that they lead to different places. */
  predicate BootTopics(topics: seq<string>) {
    && (forall i :: 0 <= i < |topics| ==> NoInstances(Tokenize(topics[i])))
    && (forall i, j :: 0 <= i < j < |topics| ==> Tokenize(topics[i]) != Tokenize(topics[j]))
  }

  /** malloc returns a pointer not in use; nobody asks for the advisory topic twice. */
  ghost predicate Proper(b: State, a: Act)
    requires Shape(b.tree.nodes)
  {
    && (!a.Leave? ==> a.ptr !in b.entries)
    && (a.Boot? ==> BootTopics(a.topics))
    && (a.Hear? ==> !AdvisoryAgain(b, a.sender, a.request))
  }

  ghost predicate Goes(b: State, acts: seq<Act>, b': State)
    decreases |acts|
  {
    if acts == [] then b' == b
    else Shape(b.tree.nodes) && Proper(b, acts[0]) && Goes(Take(b, acts[0]), acts[1..], b')
  }

  predicate NoIds(exp: string) { forall c :: c in exp ==> !IsDigit(c) && c != '[' && c != '*' && c != '{' }

  lemma NoIdsNoInstances(exp: string)
    requires NoIds(exp)
    ensures NoInstances(Tokenize(exp))
  {
    forall k | k in Tokenize(exp) ensures !InstanceToken(k) {
      if k != "" { PieceChars(exp, '.', k, k[0]); }
    }
  }

  lemma DifferentTokens(a: string, b: string)
    requires a != b && !EndsInDot(a) && !EndsInDot(b)
    ensures Tokenize(a) != Tokenize(b)
  {
    TokenizeRoundTrip(a);
    TokenizeRoundTrip(b);
  }

  /** Different expressions without ids and final dots are different topics. */
  lemma TopicsDiffer(topics: seq<string>)
    requires NoDup(topics) && forall i :: 0 <= i < |topics| ==> NoIds(topics[i]) && !EndsInDot(topics[i])
    ensures BootTopics(topics)
  {
    forall i | 0 <= i < |topics| ensures NoInstances(Tokenize(topics[i])) { NoIdsNoInstances(topics[i]); }
    forall i, j | 0 <= i < j < |topics| ensures Tokenize(topics[i]) != Tokenize(topics[j]) {
      DifferentTokens(topics[i], topics[j]);
    }
  }

  predicate PlainTopic(exp: string) { NoIds(exp) && !EndsInDot(exp) }

  lemma InboxTopicsPlain()
    ensures PlainTopic(SUBSCRIBE_TOPIC) && PlainTopic(QUERY_TOPIC) && PlainTopic(DIAG_TOPIC)
  {}

  lemma DiscoveryTopicsPlain()
    ensures PlainTopic(COMPONENTS_TOPIC) && PlainTopic(ELEMENTS_TOPIC) && PlainTopic(ORIGIN_TOPIC)
  {}

  lemma TopicLengths()
    ensures |SUBSCRIBE_TOPIC| == 25 && |QUERY_TOPIC| == 21 && |COMPONENTS_TOPIC| == 22
    ensures |ELEMENTS_TOPIC| == 19 && |ORIGIN_TOPIC| == 20 && |DIAG_TOPIC| == 20 && ORIGIN_TOPIC[1] != DIAG_TOPIC[1]
  {}

  /** Pairwise different strings. */
  lemma SixDiffer(t: seq<string>)
    requires |t| == 6 && |t[0]| == 25 && |t[1]| == 21 && |t[2]| == 22 && |t[3]| == 19 && |t[4]| == 20 == |t[5]|
    requires t[4][1] != t[5][1]
    ensures NoDup(t)
  {}

  /** The broker's own topics are such. */
  lemma BootTopicsDiffer()
    ensures BootTopics(BOOT_TOPICS)
  {
    InboxTopicsPlain();
    DiscoveryTopicsPlain();
    TopicLengths();
    SixDiffer(BOOT_TOPICS);
    TopicsDiffer(BOOT_TOPICS);
  }

  /** Without row ids a walk is where its tokens say. */
  lemma {:induction false} WalkPlain(m: Topics, p: Path, tokens: seq<string>)
    requires Shape(m) && p in m && NoInstances(tokens)
    ensures Walk(m, p, tokens).Some? ==> Walk(m, p, tokens).value == p + tokens
    ensures WalkCreate(m, p, tokens).path == p + tokens
    decreases |tokens|
  {
    if tokens == [] {
      assert p + tokens == p;
    } else {
      var k := tokens[0];
      assert forall x :: x in tokens[1..] ==> x in tokens;
      assert p + tokens == p + [k] + tokens[1..];
      EnsureKidShape(m, p, k);
      if FindKid(m[p].kids, k).Some? { WalkPlain(m, p + [k], tokens[1..]); }
      if |tokens| > 1 { WalkPlain(EnsureKid(m, p, k).nodes, p + [k], tokens[1..]); }
    }
  }

  /** The pointer is registered at some of the paths, if anywhere. */
  ghost predicate OnlyAt(t: Tree, ptr: RouteData, paths: set<Path>) {
    forall p, h :: Assigned(t.nodes, p, h) && h.data == ptr ==> p in paths
  }

  lemma AddedAt(t: Tree, exp: string, ptr: RouteData, p: Path, h: RouteRef)
    requires TreeInvariant.Inv(t) && NoInstances(Tokenize(exp)) && p != Tokenize(exp)
    ensures Assigned(AddTopicRoute(t, exp, ptr, false).0.nodes, p, h) ==> Assigned(t.nodes, p, h)
  {
    var tokens := Tokenize(exp);
    if tokens != [] {
      TokenizePlain(exp);
      WalkPlain(t.nodes, [], tokens);
      assert [] + tokens == tokens;
      WalkCreateGrows(t.nodes, [], tokens, t.next);
      AddResult(t, exp, ptr, false);
      var w := WalkCreate(t.nodes, [], tokens);
      GrownAssigned(t.nodes, w.nodes, p, h);
      AssignedAfter(w.nodes, w.path, EnsureRoute(t, ptr).1, p, h);
    }
  }

  lemma GrownAssigned(m: Topics, m': Topics, p: Path, h: RouteRef)
    requires Grown(m, m')
    ensures Assigned(m', p, h) <==> Assigned(m, p, h)
  {}

  lemma AddTopicOnlyAt(t: Tree, exp: string, ptr: RouteData, paths: set<Path>)
    requires TreeInvariant.Inv(t) && OnlyAt(t, ptr, paths) && NoInstances(Tokenize(exp))
    ensures OnlyAt(AddTopicRoute(t, exp, ptr, false).0, ptr, paths + {Tokenize(exp)})
  {
    forall p, h | Assigned(AddTopicRoute(t, exp, ptr, false).0.nodes, p, h) && h.data == ptr && p != Tokenize(exp)
      ensures p in paths
    {
      AddedAt(t, exp, ptr, p, h);
    }
  }

  lemma NewPathTiesNothing(t: Tree, exp: string, ptr: RouteData, paths: set<Path>)
    requires Shape(t.nodes) && OnlyAt(t, ptr, paths) && NoInstances(Tokenize(exp)) && Tokenize(exp) !in paths
    ensures !ReAdds(t, exp, ptr)
  {
    WalkPlain(t.nodes, [], Tokenize(exp));
    assert [] + Tokenize(exp) == Tokenize(exp);
    if ReAdds(t, exp, ptr) {
      assert Assigned(t.nodes, Tokenize(exp), FindRoute(t.routeList, ptr).value);
    }
  }

  /** One pointer may be registered under any number of different topics. */
  lemma {:induction false} AddTopicsKeeps(t: Tree, topics: seq<string>, ptr: RouteData, paths: set<Path>)
    requires TreeInvariant.Inv(t) && OnlyAt(t, ptr, paths) && BootTopics(topics)
    requires forall i :: 0 <= i < |topics| ==> Tokenize(topics[i]) !in paths
    ensures var t' := AddTopics(t, topics, ptr);
            && TreeInvariant.Inv(t') && (Exact(t) ==> Exact(t'))
            && (forall h :: h in t'.topicsOf ==> h in t.topicsOf || h.data == ptr)
    decreases |topics|
  {
    if topics == [] {
    } else {
      var exp := topics[0];
      AddKeepsInvIff(t, exp, ptr, false);
      NewPathTiesNothing(t, exp, ptr, paths);
      AddTopicOnlyAt(t, exp, ptr, paths);
      AddMentions(t, exp, ptr, false);
      AddTopicsKeeps(AddTopicRoute(t, exp, ptr, false).0, topics[1..], ptr, paths + {Tokenize(exp)});
    }
  }

  lemma BootKeeps(b: State, topics: seq<string>, ptr: RouteData)
    requires Inv(b) && ptr !in b.entries && BootTopics(topics)
    ensures Inv(Take(b, Boot(topics, ptr)))
  {
    forall p, h | Assigned(b.tree.nodes, p, h) ensures h.data != ptr { RoutesAreLive(b.tree, p, h); }
    AddTopicsKeeps(b.tree, topics, ptr, {});
    PushNew(b.routes, ptr);
  }

  lemma TakeKeeps(b: State, a: Act)
    requires Inv(b) && Proper(b, a)
    ensures Inv(Take(b, a))
  {
    match a
    case Boot(topics, ptr) => BootKeeps(b, topics, ptr);
    case Hello(sender, inbox, ptr) => AddRouteKeeps(b, ptr, Entry(false, sender, 0, Stored(inbox)), inbox);
    case Hear(sender, request, ptr) => SubscribeKeepsIff(b, sender, request, ptr);
    case Leave(client) => ClearAllKeeps(b, Owned(b.routes, b.entries, client));
  }

  lemma {:induction false} GoesKeeps(b: State, acts: seq<Act>, b': State)
    requires Inv(b) && Goes(b, acts, b')
    ensures Inv(b')
    decreases |acts|
  {
    if acts == [] {
    } else {
      TakeKeeps(b, acts[0]);
      GoesKeeps(Take(b, acts[0]), acts[1..], b');
    }
  }

  /** Whatever the clients do, the tree, the vector and the live entries agree. */
  lemma BrokerReachable(acts: seq<Act>, b: State)
    requires Goes(START, acts, b)
    ensures Inv(b)
  {
    EmptyTreeInv();
    GoesKeeps(START, acts, b);
  }

  // -------------------------------------------------------------------- dispatch

  predicate HasFlag(flags: UInt32, bit: UInt32)
    requires bit > 0
  {
    flags / bit % 2 == 1
  }

  /** flags & ~bit and flags | bit. */
  function ClearFlag(flags: UInt32, bit: UInt32): UInt32
    requires bit > 0
  {
    if HasFlag(flags, bit) then flags - bit else flags
  }

  function SetFlag(flags: UInt32, bit: UInt32): UInt32
    requires bit in {REQUEST, RESPONSE, UNDELIVERABLE}
  {
    if HasFlag(flags, bit) then flags else flags + bit
  }

  function BouncedFlags(flags: UInt32): UInt32 {
    SetFlag(SetFlag(ClearFlag(flags, REQUEST), RESPONSE), UNDELIVERABLE)
  }

  lemma BouncedFlagsRight(flags: UInt32)
    ensures var r := BouncedFlags(flags);
            !HasFlag(r, REQUEST) && HasFlag(r, RESPONSE) && HasFlag(r, UNDELIVERABLE) && r / 8 == flags / 8
  {
    var f1 := ClearFlag(flags, REQUEST);
    assert f1 == flags / 2 * 2;
    var f2 := SetFlag(f1, RESPONSE);
    assert f2 == f1 / 4 * 4 + 2;
    assert BouncedFlags(flags) == f2 / 8 * 8 + 6;
  }

  function TextOf(s: Bytes): string { seq(|s|, i requires 0 <= i < |s| => s[i] as char) }

  /** A text of one-byte characters as the sender puts it into the header. */
  function BytesOf(s: string): Bytes
    requires forall c :: c in s ==> c as int < 0x100
  {
    if s == "" then []
    else
      assert s[0] in s && forall c :: c in s[1..] ==> c in s;
      [s[0] as int] + BytesOf(s[1..])
  }

  lemma {:induction false} TextRoundTrip(s: string)
    requires forall c :: c in s ==> c as int < 0x100
    ensures TextOf(BytesOf(s)) == s
  {
    if s == "" {
    } else {
      assert s[0] in s && forall c :: c in s[1..] ==> c in s;
      TextRoundTrip(s[1..]);
      assert TextOf(BytesOf(s))[1..] == TextOf(BytesOf(s[1..]));
    }
  }

  function TopicText(h: Header): string { TextOf(CStr(h.topic)) }

  /** The message turned around towards its reply topic. */
  function Bounce(h: Header): (r: Header)
    requires Terminated(h)
    ensures Terminated(r)
  {
    var n := |CStr(h.replyTopic)| + 1;
    var topic := Overwrite(h.topic, h.replyTopic, n);
    assert topic[n - 1] == 0;
    h.(topic := topic, flags := BouncedFlags(h.flags), payloadLength := 0)
  }

  lemma BounceContent(h: Header)
    requires Terminated(h)
    ensures ContentOf(Bounce(h)) == Content(CStr(h.replyTopic), CStr(h.replyTopic), h.sequenceNumber,
                                            BouncedFlags(h.flags), h.controlData, 0)
  {
    var n := |CStr(h.replyTopic)|;
    CStrIs(Bounce(h).topic, CStr(h.replyTopic));
  }

  /** What one route does with a message: sendmsg to its client, or the broker's own handler. */
  datatype Event =
    | Sent(to: ClientId, header: Header, payload: Bytes)
    | Handled(header: Header, payload: Bytes)

  function EventOf(e: Entry, h: Header, payload: Bytes): Event {
    if e.internal then Handled(h, payload) else Sent(e.client, Forward(h, e.id), payload)
  }

  /** Every pointer of the list is a live entry. */
  predicate Live(entries: map<RouteData, Entry>, hs: seq<RouteRef>) { forall r :: r in hs ==> r.data in entries }

  function Fanout(entries: map<RouteData, Entry>, hs: seq<RouteRef>, h: Header, payload: Bytes): (es: seq<Event>)
    requires Live(entries, hs)
    ensures |es| == |hs| && forall i :: 0 <= i < |hs| ==> es[i] == EventOf(entries[hs[i].data], h, payload)
  {
    if hs == [] then [] else [EventOf(entries[hs[0].data], h, payload)] + Fanout(entries, hs[1..], h, payload)
  }

  /** The routes rtRouter_DispatchMessageFromClient gets for a header. */
  ghost function Listed(b: State, h: Header): seq<RouteRef>
    requires Shape(b.tree.nodes)
  {
    GetTopicRoutes(b.tree, TopicText(h))
  }

  /** Both lists dispatch may go through hold live pointers only. */
  ghost predicate Dispatchable(b: State, h: Header)
    requires Shape(b.tree.nodes) && Terminated(h)
  {
    Live(b.entries, Listed(b, h)) && Live(b.entries, Listed(b, Bounce(h)))
  }

  /** One pass over the routes of the topic, and for an unmatched request a second one
      over those of its reply topic. */
  function Passes(entries: map<RouteData, Entry>, hs: seq<RouteRef>, back: seq<RouteRef>, h: Header, payload: Bytes)
    : seq<Event>
    requires Terminated(h) && Live(entries, hs) && Live(entries, back)
  {
    var first := Fanout(entries, hs, h, payload);
    if first != [] || !HasFlag(h.flags, REQUEST) then first else Fanout(entries, back, Bounce(h), [])
  }

  /** rtRouter_DispatchMessageFromClient. */
  ghost function Dispatched(b: State, h: Header, payload: Bytes): seq<Event>
    requires Shape(b.tree.nodes) && Terminated(h) && Dispatchable(b, h)
  {
    Passes(b.entries, Listed(b, h), Listed(b, Bounce(h)), h, payload)
  }

  /** A topic with a final dot is answered from the index, which may list freed records
      after RemoveTopic; every other list, and every list of an exact tree, is live. */
  lemma ListIsLive(b: State, exp: string)
    requires Inv(b) && (EndsInDot(exp) ==> Exact(b.tree))
    ensures Live(b.entries, GetTopicRoutes(b.tree, exp)) && NoDup(Datas(GetTopicRoutes(b.tree, exp)))
  {
    var hs := GetTopicRoutes(b.tree, exp);
    var t := b.tree;
    if Locate(t.nodes, exp).Some? {
      var p := Locate(t.nodes, exp).value;
      assert NodeOk(t.nodes[p], t.next);
      if EndsInDot(exp) {
        IndexNotRoot(t, exp);
        IndexRegistered(t, p);
      } else {
        forall q | q in t.nodes ensures NoDup(t.nodes[q].routes) && AllRegistered(t, t.nodes[q].routes) {
          assert NodeOk(t.nodes[q], t.next);
          forall h | h in t.nodes[q].routes ensures h in t.topicsOf { assert Assigned(t.nodes, q, h); }
        }
      }
      assert NoDup(hs) && AllRegistered(t, hs);
    }
    DistinctDatas(t, hs);
  }

  lemma IndexNotRoot(t: Tree, exp: string)
    requires Shape(t.nodes) && Locate(t.nodes, exp).Some?
    ensures Locate(t.nodes, exp).value != []
  {}

  /** The event that one of the listed routes gets the bounce: back to the reply topic, the
      request's sequence number, marked as an undeliverable response, without payload. */
  predicate IsBounce(e: Event, h: Header)
    requires Terminated(h)
  {
    && e.payload == []
    && var c := ContentOf(e.header);
       && c.topic == CStr(h.replyTopic) && c.sequenceNumber == h.sequenceNumber && c.payloadLength == 0
       && !HasFlag(c.flags, REQUEST) && HasFlag(c.flags, RESPONSE) && HasFlag(c.flags, UNDELIVERABLE)
       && c.flags / 8 == h.flags / 8
  }

  lemma BounceEvent(e: Entry, h: Header)
    requires Terminated(h)
    ensures IsBounce(EventOf(e, Bounce(h), []), h)
  {
    BounceContent(h);
    BouncedFlagsRight(h.flags);
    StrNCpyContent(Bounce(h).topic);
  }

  /** Matched messages go to each listed route once and are not bounced; an unmatched
      request is turned around once; nothing else happens to an unmatched message. */
  ghost predicate Outcome(entries: map<RouteData, Entry>, hs: seq<RouteRef>, back: seq<RouteRef>, h: Header,
                          payload: Bytes, out: seq<Event>)
    requires Terminated(h) && Live(entries, hs) && Live(entries, back)
  {
    if hs != [] then out == Fanout(entries, hs, h, payload)
    else if HasFlag(h.flags, REQUEST) then |out| == |back| && forall e :: e in out ==> IsBounce(e, h)
    else out == []
  }

  lemma PassesRight(entries: map<RouteData, Entry>, hs: seq<RouteRef>, back: seq<RouteRef>, h: Header, payload: Bytes)
    requires Terminated(h) && Live(entries, hs) && Live(entries, back)
    ensures Outcome(entries, hs, back, h, payload, Passes(entries, hs, back, h, payload))
  {
    forall e | e in Fanout(entries, back, Bounce(h), []) ensures IsBounce(e, h) {
      var i :| 0 <= i < |back| && e == EventOf(entries[back[i].data], Bounce(h), []);
      BounceEvent(entries[back[i].data], h);
    }
  }

  /** Topics ending in a dot are answered from the index, which has to be exact then. */
  ghost predicate IndexReliable(b: State, h: Header)
    requires Terminated(h)
  {
    EndsInDot(TopicText(h)) || EndsInDot(TopicText(Bounce(h))) ==> Exact(b.tree)
  }

  lemma DispatchRight(b: State, h: Header, payload: Bytes)
    requires Inv(b) && Terminated(h) && IndexReliable(b, h)
    ensures Dispatchable(b, h)
    ensures NoDup(Datas(Listed(b, h))) && NoDup(Datas(Listed(b, Bounce(h))))
    ensures Outcome(b.entries, Listed(b, h), Listed(b, Bounce(h)), h, payload, Dispatched(b, h, payload))
  {
    ListIsLive(b, TopicText(h));
    ListIsLive(b, TopicText(Bounce(h)));
    PassesRight(b.entries, Listed(b, h), Listed(b, Bounce(h)), h, payload);
  }

  ghost predicate OwnsNothing(b: State, client: ClientId) {
    forall p :: p in b.entries ==> !OwnedBy(b.entries[p], client)
  }

  /** Acts in which the client takes no part. */
  predicate TakesNoPart(acts: seq<Act>, client: ClientId) {
    forall a :: a in acts ==> (a.Hello? || a.Hear? ==> a.sender != client)
  }

  lemma ActStaysGone(b: State, a: Act, client: ClientId)
    requires Inv(b) && OwnsNothing(b, client) && Proper(b, a) && (a.Hello? || a.Hear? ==> a.sender != client)
    ensures OwnsNothing(Take(b, a), client)
  {
    if a.Leave? { ClearAllCleared(b, Owned(b.routes, b.entries, a.client)); }
  }

  lemma {:induction false} StaysGone(b: State, acts: seq<Act>, b': State, client: ClientId)
    requires Inv(b) && OwnsNothing(b, client) && Goes(b, acts, b') && TakesNoPart(acts, client)
    ensures Inv(b') && OwnsNothing(b', client)
    decreases |acts|
  {
    if acts == [] {
    } else {
      assert acts[0] in acts && forall a :: a in acts[1..] ==> a in acts;
      TakeKeeps(b, acts[0]);
      ActStaysGone(b, acts[0], client);
      StaysGone(Take(b, acts[0]), acts[1..], b', client);
    }
  }

  /** A client that has been cleared is sent nothing any more, whatever the others do. */
  lemma GoneClientHearsNothing(b: State, client: ClientId, acts: seq<Act>, b': State, h: Header, payload: Bytes)
    requires Inv(b) && Goes(ClearClient(b, client), acts, b') && TakesNoPart(acts, client)
    requires Terminated(h) && IndexReliable(b', h)
    ensures Inv(b') && Dispatchable(b', h)
    ensures forall e :: e in Dispatched(b', h, payload) && e.Sent? ==> e.to != client
  {
    ClearClientRight(b, client);
    ClearAllCleared(b, Owned(b.routes, b.entries, client));
    StaysGone(ClearClient(b, client), acts, b', client);
    DispatchRight(b', h, payload);
    NotOwnedNotSent(b'.entries, Listed(b', h), Listed(b', Bounce(h)), client, h, payload);
  }

  lemma NotOwnedNotSent(entries: map<RouteData, Entry>, hs: seq<RouteRef>, back: seq<RouteRef>, client: ClientId,
                        h: Header, payload: Bytes)
    requires Terminated(h) && Live(entries, hs) && Live(entries, back)
    requires forall p :: p in entries ==> !OwnedBy(entries[p], client)
    ensures forall e :: e in Passes(entries, hs, back, h, payload) && e.Sent? ==> e.to != client
  {}
}
