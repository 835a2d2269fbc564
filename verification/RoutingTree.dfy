/** rtRoutingTree.c as an object that its operations update step by step, the way the C
    code walks its lists and recurses over its topics. Every public method is proved to
    do to `View()` what the function of the same name in TopicTree says. */
module RoutingTree {
  import opened Sequences
  import opened TopicTree
  import opened TreeInvariant
  import opened TreeSteps
  import opened Tokenizer

  class RoutingTree {
    var nodes: Topics
    var routeList: seq<RouteRef>
    var topicsOf: map<RouteRef, seq<Path>>
    var next: nat

    ghost function View(): Tree
      reads this
    {
      Tree(nodes, routeList, topicsOf, next)
    }

    ghost predicate Valid()
      reads this
    {
      Shape(nodes)
    }

    constructor ()
      ensures Valid() && View() == EMPTY_TREE
    {
      nodes, routeList, topicsOf, next := map[[] := NEW_NODE], [], map[], 0;
    }

    // ------------------------------------------------------------ child topics

    /** The scan of getChildByName. */
    method ScanKids(parent: Path, name: string) returns (kid: Option<string>)
      requires parent in nodes
      ensures kid == FindKid(nodes[parent].kids, name)
    {
      var kids := nodes[parent].kids;
      var i := 0;
      while i < |kids|
        invariant i <= |kids| && FindKid(kids, name) == FindKid(kids[i..], name)
      {
        assert kids[i..][0] == kids[i] && kids[i..][1..] == kids[i + 1..];
        if Matches(kids[i], name) {
          return Some(kids[i]);
        }
        i := i + 1;
      }
      return None;
    }

    /** createTreeTopic. */
    method CreateTreeTopic(name: string, parent: Path)
      requires parent in nodes
      modifies this`nodes
      ensures nodes == CreateKid(old(nodes), parent, name)
    {
      var p := nodes[parent];
      p := p.(kids := p.kids + [name]);
      if name != "" && name[0] == '{' {
        p := p.(isTable := true);
      }
      nodes := nodes[parent := p][parent + [name] := NEW_NODE];
    }

    /** getChildByName with `create` set. */
    method EnsureChild(parent: Path, name: string) returns (child: Path, created: bool)
      requires Valid() && parent in nodes
      modifies this`nodes
      ensures Valid() && child in nodes
      ensures Walked(nodes, child, created) == EnsureKid(old(nodes), parent, name)
    {
      EnsureKidShape(nodes, parent, name);
      var kid := ScanKids(parent, name);
      if kid.Some? {
        return parent + [kid.value], false;
      }
      CreateTreeTopic(name, parent);
      return parent + [name], true;
    }

    /** The plain descent that the queries and RemoveTopic start with. */
    method Descend(tokens: seq<string>) returns (topic: Option<Path>)
      requires Valid()
      ensures topic == Walk(nodes, [], tokens)
    {
      var at: Path := [];
      var i := 0;
      while i < |tokens|
        invariant i <= |tokens| && at in nodes
        invariant Walk(nodes, [], tokens) == Walk(nodes, at, tokens[i..])
      {
        assert tokens[i..][0] == tokens[i] && tokens[i..][1..] == tokens[i + 1..];
        var kid := ScanKids(at, tokens[i]);
        if kid.None? {
          return None;
        }
        at := at + [kid.value];
        i := i + 1;
      }
      return Some(at);
    }

    // ----------------------------------------------------------------- adding

    /** getTreeRoute. */
    method GetTreeRoute(data: RouteData) returns (r: Option<RouteRef>)
      ensures r == FindRoute(routeList, data)
    {
      var i := 0;
      while i < |routeList|
        invariant i <= |routeList| && FindRoute(routeList, data) == FindRoute(routeList[i..], data)
      {
        assert routeList[i..][0] == routeList[i] && routeList[i..][1..] == routeList[i + 1..];
        if routeList[i].data == data {
          return Some(routeList[i]);
        }
        i := i + 1;
      }
      return None;
    }

    /** optimizeTopicsBackpropagate. */
    method OptimizeTopicsBackpropagate(topic: Path, route: RouteRef)
      requires Valid() && topic in nodes && topic != []
      modifies this`nodes
      ensures nodes == Propagate(old(nodes), topic, route)
      decreases |topic|
    {
      PropagateStep(nodes, topic, route);
      PropagateShape(nodes, topic, route);
      nodes := nodes[topic := AddToIndex(nodes[topic], route)];
      if |topic| > 1 {
        OptimizeTopicsBackpropagate(Parent(topic), route);
      }
    }

    /** The start of AddTopicRoute: the route's record, made if it is missing. */
    method EnsureTreeRoute(data: RouteData) returns (route: RouteRef)
      modifies this`routeList, this`topicsOf, this`next
      ensures (View(), route) == EnsureRoute(old(View()), data)
    {
      var found := GetTreeRoute(data);
      if found.Some? {
        return found.value;
      }
      route := RouteRef(data, next);
      next := next + 1;
      topicsOf := topicsOf[route := []];
      routeList := routeList + [route];
    }

    /** The loop of AddTopicRoute: the topic, made with what is missing above it. */
    method EnsureTopic(tokens: seq<string>) returns (topic: Path, isCreated: bool)
      requires Valid() && tokens != []
      modifies this`nodes
      ensures Valid() && topic in nodes
      ensures Walked(nodes, topic, isCreated) == WalkCreate(old(nodes), [], tokens)
    {
      topic, isCreated := [], false;
      var i := 0;
      while i < |tokens|
        invariant i <= |tokens| && Valid() && topic in nodes
        invariant i < |tokens| ==> WalkCreate(old(nodes), [], tokens) == WalkCreate(nodes, topic, tokens[i..])
        invariant i == |tokens| ==> WalkCreate(old(nodes), [], tokens) == Walked(nodes, topic, isCreated)
      {
        assert tokens[i..][0] == tokens[i] && tokens[i..][1..] == tokens[i + 1..];
        topic, isCreated := EnsureChild(topic, tokens[i]);
        i := i + 1;
      }
    }

    /** The end of AddTopicRoute: the two lists and the ancestors. */
    method AssignTo(topic: Path, route: RouteRef)
      requires Valid() && topic in nodes && topic != []
      modifies this`nodes, this`topicsOf
      ensures Valid() && nodes == AssignRoute(old(nodes), topic, route)
      ensures topicsOf ==
                old(topicsOf)[route := AddOnce(if route in old(topicsOf) then old(topicsOf)[route] else [], topic)]
    {
      AssignInSteps(nodes, topic, route);
      AssignShape(nodes, topic, route);
      PushShape(nodes, topic, route);
      nodes := nodes[topic := nodes[topic].(listed := true, routes := nodes[topic].routes + [route])];
      topicsOf := topicsOf[route := AddOnce(if route in topicsOf then topicsOf[route] else [], topic)];
      if |topic| > 1 {
        OptimizeTopicsBackpropagate(Parent(topic), route);
      }
    }

    method AddTopicRoute(topicPath: string, routeData: RouteData, errOnDup: bool) returns (rc: Code)
      requires Valid() && Fits(topicPath)
      modifies this
      ensures Valid()
      ensures (View(), rc) == TopicTree.AddTopicRoute(old(View()), topicPath, routeData, errOnDup)
    {
      var tokens := Tokens(topicPath);
      if |tokens| == 0 {
        return Ok;
      }
      var route := EnsureTreeRoute(routeData);
      var topic, isCreated := EnsureTopic(tokens);
      if errOnDup && !isCreated && nodes[topic].listed && topicPath != ADVISORY {
        return Duplicate;
      }
      AssignTo(topic, route);
      return Ok;
    }

    // ---------------------------------------------------------------- queries

    method GetTopicRoutes(topic: string) returns (routes: seq<RouteRef>)
      requires Valid() && Fits(topic)
      ensures routes == TopicTree.GetTopicRoutes(View(), topic)
    {
      var tokens := Tokens(topic);
      if |tokens| == 0 {
        return [];
      }
      var at := Descend(tokens);
      if at.None? {
        return [];
      }
      TokenizeNonEmpty(topic);
      if topic[|topic| - 1] == '.' {
        routes := nodes[at.value].routes2;
      } else if nodes[at.value].isTable {
        var curlyChild := ScanKids(at.value, "{i}");
        routes := [];
        if curlyChild.Some? {
          routes := nodes[at.value + [curlyChild.value]].routes;
        }
      } else {
        routes := nodes[at.value].routes;
      }
    }

    /** The C code follows every route of the topic's index to its record, so the index
        must not hold a freed one. Exactness of the index implies that. */
    method ResolvePartialPath(partialPath: string) returns (topics: seq<string>)
      requires Valid() && Fits(partialPath)
      requires forall h :: h in PartialRoutes(View(), partialPath) ==> h in topicsOf && topicsOf[h] != []
      ensures topics == FirstNames(View(), PartialRoutes(View(), partialPath))
    {
      topics := [];
      var tokens := Tokens(partialPath);
      if |tokens| == 0 {
        return;
      }
      var at := Descend(tokens);
      if at.None? {
        return;
      }
      var routes := nodes[at.value].routes2;
      ghost var names := FirstNames(View(), routes);
      for i := 0 to |routes|
        invariant topics == names[..i]
      {
        TakeNext(names, i);
        topics := topics + [FullName(topicsOf[routes[i]][0])];
      }
    }

    // --------------------------------------------------------------- removing

    /** The end of a round in removeRouteFromTopicTree: kid `i` of the topic loses the
        route and goes if nothing is left of it. */
    method FinishChild(topic: Path, i: nat, route: RouteRef) returns (removed: bool)
      requires topic in nodes && i < |nodes[topic].kids|
      requires topic + [nodes[topic].kids[i]] in nodes
      modifies this`nodes
      ensures nodes == FinishKid(old(nodes), topic, topic + [old(nodes)[topic].kids[i]],
                                 old(nodes)[topic].kids[..i], route)
      ensures removed == (topic + [old(nodes)[topic].kids[i]] !in nodes)
    {
      var child := topic + [nodes[topic].kids[i]];
      ghost var m := nodes;
      nodes := nodes[child := DropFrom(nodes[child], route)];
      removed := nodes[child].kids == [] && nodes[child].routes == [];
      if removed {
        var kept := nodes[topic].kids[..i] + nodes[topic].kids[i + 1..];
        nodes := (nodes - {child})[topic := nodes[topic].(kids := kept)];
        assert m[child := DropFrom(m[child], route)] - {child} == m - {child};
      }
    }

    /** removeRouteFromTopicTree. `depth` bounds the paths, for termination only. */
    method RemoveRouteFromTopicTree(topic: Path, route: RouteRef, ghost depth: nat)
      requires Valid() && topic in nodes && forall q :: q in nodes ==> |q| <= depth
      modifies this`nodes
      ensures Valid() && nodes == Prune(old(nodes), topic, route)
      decreases depth - |topic|
    {
      ghost var m := nodes;
      ghost var done: seq<string>, todo := [], nodes[topic].kids;
      PruneNone(m, topic, route);
      var i := 0;
      while i < |nodes[topic].kids|
        invariant Valid() && topic in m && Shape(m) && m[topic].kids == done + todo
        invariant nodes == PruneSome(m, topic, done, todo, route)
        invariant topic in nodes && i == |AliveKids(m, topic, done, route)|
        invariant nodes[topic].kids == AliveKids(m, topic, done, route) + todo
        decreases |todo|
      {
        ghost var before, k, rest := AliveKids(m, topic, done, route), todo[0], todo[1..];
        HeadTail(todo);
        MoveHead(done, k, rest);
        MoveHead(before, k, rest);
        var kid := nodes[topic].kids[i];
        assert kid == k && kid in nodes[topic].kids;
        RemoveRouteFromTopicTree(topic + [kid], route, depth);
        PruneSomeStep(m, topic, done, k, rest, route, nodes);
        assert nodes[topic].kids[..i] == before;
        var removed := FinishChild(topic, i, route);
        if !removed {
          i := i + 1;
        }
        NextRound(m, topic, done, k, rest, route);
        done, todo := done + [k], rest;
      }
      assert m[topic].kids == done && todo == [];
      PruneAll(m, topic, route);
    }

    method RemoveRoute(route: RouteData)
      requires Valid()
      modifies this
      ensures Valid() && View() == TopicTree.RemoveRoute(old(View()), route)
    {
      var treeRoute := GetTreeRoute(route);
      if treeRoute.None? {
        return;
      }
      ghost var depth := MaxLength(nodes.Keys);
      RemoveRouteFromTopicTree([], treeRoute.value, depth);
      routeList := RemoveFirst(routeList, treeRoute.value);
      topicsOf := topicsOf - {treeRoute.value};
    }
  
    ghost function Rec(): Records
      reads this
    {
      Records(routeList, topicsOf)
    }

    /** The body of the first loop of removeTopicFromRoutes. */
    method DropTopicFromRoute(topic: Path, route: RouteRef)
      requires route in topicsOf
      modifies this`routeList, this`topicsOf
      ensures Rec() == DropPair(old(Rec()), topic, route)
      ensures forall h :: h in old(topicsOf) && h != route ==> h in topicsOf
    {
      ghost var r := Rec();
      topicsOf := topicsOf[route := RemoveFirst(topicsOf[route], topic)];
      if |topicsOf[route]| == 0 {
        routeList := RemoveFirst(routeList, route);
        topicsOf := topicsOf - {route};
        assert topicsOf == r.topics - {route};
      }
    }

    method DropTopicFromItsRoutes(topic: Path)
      requires topic in nodes && TidyRecords(Rec()) && NoDup(nodes[topic].routes)
      requires forall h :: h in nodes[topic].routes <==> h in topicsOf && topic in topicsOf[h]
      modifies this`routeList, this`topicsOf
      ensures TidyRecords(Rec()) && Rec() == DropGone(old(Rec()), {topic})
    {
      var routes := nodes[topic].routes;
      DropPairsAll(Rec(), topic, routes);
      ghost var goal := DropPairs(Rec(), topic, routes);
      var i := 0;
      while i < |routes|
        invariant i <= |routes| && goal == DropPairs(Rec(), topic, routes[i..])
        invariant forall j :: i <= j < |routes| ==> routes[j] in topicsOf
      {
        assert routes[i..][0] == routes[i] && routes[i..][1..] == routes[i + 1..];
        DropTopicFromRoute(topic, routes[i]);
        i := i + 1;
      }
    }

    /** removeTopicFromRoutes. */
    method RemoveTopicFromRoutes(topic: Path, ghost depth: nat)
      requires Valid() && topic in nodes && forall q :: q in nodes ==> |q| <= depth
      requires TidyRecords(Rec()) && AgreeBelow(nodes, Rec(), topic)
      modifies this`routeList, this`topicsOf
      ensures TidyRecords(Rec()) && Rec() == DropGone(old(Rec()), Subtree(nodes, topic))
      decreases depth - |topic|
    {
      ghost var r := Rec();
      assert topic in Subtree(nodes, topic) by { assert AtOrBelow(topic, topic); }
      DropTopicFromItsRoutes(topic);
      var kids := nodes[topic].kids;
      SubtreeSplit(nodes, topic);
      assert GoneAfter(nodes, topic, kids[..0]) == {topic};
      var i := 0;
      while i < |kids|
        invariant i <= |kids| && TidyRecords(Rec())
        invariant Rec() == DropGone(r, GoneAfter(nodes, topic, kids[..i]))
      {
        NextKidGone(nodes, r, topic, kids, i);
        RemoveTopicFromRoutes(topic + [kids[i]], depth);
        i := i + 1;
      }
      assert kids[..|kids|] == kids;
    }

    /** The removing branch of getChildByName. */
    method RemoveChild(parent: Path, name: string)
      requires Inv(View()) && parent in nodes && name in nodes[parent].kids
      modifies this
      ensures Valid() && View() == Cut(old(View()), parent, name)
    {
      var child := parent + [name];
      ghost var t := View();
      CutRecords(t, parent, name);
      InvAgreesBelow(t, child);
      assert child in nodes;
      RemoveTopicFromRoutes(child, MaxLength(nodes.Keys));
      assert Rec() == RecordsOf(Cut(t, parent, name));
      CutShape(t, parent, name);
      nodes := map x | x in nodes && !AtOrBelow(x, child) ::
        if x == parent then nodes[x].(kids := RemoveFirst(nodes[x].kids, name)) else nodes[x];
    }

    method RemoveTopic(topic: string)
      requires Inv(View()) && Fits(topic)
      modifies this
      ensures Valid() && View() == TopicTree.RemoveTopic(old(View()), topic)
    {
      var tokens := Tokens(topic);
      if |tokens| == 0 {
        return;
      }
      var at := Descend(tokens[..|tokens| - 1]);
      if at.None? {
        return;
      }
      var name := tokens[|tokens| - 1];
      var kid := ScanKids(at.value, name);
      if kid == Some(name) {
        RemoveChild(at.value, name);
      }
    }
  }

  lemma InvAgreesBelow(t: Tree, q: Path)
    requires Inv(t)
    ensures TidyRecords(RecordsOf(t)) && AgreeBelow(t.nodes, RecordsOf(t), q)
  {
    forall x | x in Subtree(t.nodes, q) ensures NoDup(t.nodes[x].routes) {
      assert NodeOk(t.nodes[x], t.next);
    }
    forall x, h | x in Subtree(t.nodes, q)
      ensures h in t.nodes[x].routes <==> h in t.topicsOf && x in t.topicsOf[h]
    {
      assert Assigned(t.nodes, x, h) <==> h in t.topicsOf && x in t.topicsOf[h];
    }
  }

  ghost function GoneAfter(m: Topics, p: Path, done: seq<string>): set<Path> {
    {p} + SubtreeOfKids(m, p, done)
  }

  /** One round of the second loop of removeTopicFromRoutes. */
  lemma NextKidGone(m: Topics, r: Records, p: Path, kids: seq<string>, i: nat)
    requires Shape(m) && p in m && kids == m[p].kids && i < |kids| && AgreeBelow(m, r, p)
    ensures p + [kids[i]] in m
    ensures AgreeBelow(m, DropGone(r, GoneAfter(m, p, kids[..i])), p + [kids[i]])
    ensures DropGone(DropGone(r, GoneAfter(m, p, kids[..i])), Subtree(m, p + [kids[i]]))
         == DropGone(r, GoneAfter(m, p, kids[..i + 1]))
  {
    assert NoDup(kids) && kids[i] in m[p].kids;
    AgreeAtKids(m, r, p, kids[..i], kids[i]);
    assert kids[..i + 1] == kids[..i] + [kids[i]];
    SubtreeOfKidsSnoc(m, p, kids[..i], kids[i]);
    DropGoneTwice(r, GoneAfter(m, p, kids[..i]), Subtree(m, p + [kids[i]]));
    assert GoneAfter(m, p, kids[..i]) + Subtree(m, p + [kids[i]]) == GoneAfter(m, p, kids[..i + 1]);
  }

  ghost function MaxLength(ps: set<Path>): (n: nat)
    ensures forall p :: p in ps ==> |p| <= n
  {
    if ps == {} then 0
    else
      var p :| p in ps;
      var n := MaxLength(ps - {p});
      if |p| > n then |p| else n
  }

  /** Where the loop of removeRouteFromTopicTree stands after the round for `k`. */
  lemma NextRound(m: Topics, p: Path, done: seq<string>, k: string, rest: seq<string>, h: RouteRef)
    requires Shape(m) && p in m && m[p].kids == done + [k] + rest
    ensures var m' := PruneSome(m, p, done + [k], rest, h);
            && Shape(m') && p in m' && m'[p].kids == AliveKids(m, p, done + [k], h) + rest
            && |AliveKids(m, p, done + [k], h)| == |AliveKids(m, p, done, h)| + (if p + [k] in m' then 1 else 0)
  {
    PruneSomeShape(m, p, done + [k], rest, h);
    AliveKidsSnoc(m, p, done, k, h);
    UnderSomeSnoc(p + [k], p, done, k);
    assert AtOrBelow(p + [k], p + [k]) && !UnderSome(p, p, done + [k]);
    assert k in m[p].kids;
  }

  lemma TokenizeNonEmpty(s: string)
    ensures Tokenize(s) != [] ==> s != ""
  {}

  lemma PropagateShape(m: Topics, q: Path, h: RouteRef)
    requires Shape(m) && q in m
    ensures Shape(m[q := AddToIndex(m[q], h)])
  {}

  lemma PushShape(m: Topics, q: Path, h: RouteRef)
    requires Shape(m) && q in m
    ensures Shape(m[q := m[q].(listed := true, routes := m[q].routes + [h])])
  {}
}
