/** What every operation of the routing tree keeps. */
module TreeInvariant {
  import opened Sequences
  import opened Text
  import opened TopicTree

  ghost predicate Assigned(m: Topics, p: Path, h: RouteRef) { p in m && h in m[p].routes }

  ghost predicate AssignedBelow(m: Topics, p: Path, h: RouteRef) {
    exists q :: Below(q, p) && Assigned(m, q, h)
  }

  /** A topic lists a route iff the route lists the topic. */
  ghost predicate Agree(t: Tree) {
    forall p, h :: Assigned(t.nodes, p, h) <==> h in t.topicsOf && p in t.topicsOf[h]
  }

  ghost predicate Registered(t: Tree) {
    && NoDup(t.routeList)
    && (forall h :: h in t.routeList <==> h in t.topicsOf)
    && (forall h, g :: h in t.routeList && g in t.routeList && h.data == g.data ==> h == g)
    && (forall h :: h in t.topicsOf ==> h.serial < t.next && NoDup(t.topicsOf[h]))
  }

  ghost predicate NodeOk(n: Node, next: nat) {
    && NoDup(n.routes) && NoDup(n.routes2)
    && (n.routes != [] ==> n.listed)
    && (forall h :: h in n.routes2 ==> h.serial < next)
    && (forall k :: k in n.kids && Curly(k) ==> n.isTable)
  }

  ghost predicate NodesOk(m: Topics, next: nat) {
    && (forall p :: p in m ==> NodeOk(m[p], next) && Plain(p, '.'))
    && ([] in m ==> m[[]].routes == [] && m[[]].routes2 == [])
  }

  ghost predicate Inv(t: Tree) {
    Shape(t.nodes) && NodesOk(t.nodes, t.next) && Agree(t) && Registered(t)
  }

  /** The derived index: below the root, routes2 is exactly what is assigned further down. */
  ghost predicate Exact(t: Tree) {
    forall p, h :: p in t.nodes && p != [] ==>
      (h in t.nodes[p].routes2 <==> AssignedBelow(t.nodes, p, h))
  }

  lemma EmptyTreeInv()
    ensures Inv(EMPTY_TREE) && Exact(EMPTY_TREE)
  {}

  // ------------------------------------------------------------------ adding

  /** `m'` is `m` with some fresh, route-less topics hung into it. */
  ghost predicate Grown(m: Topics, m': Topics) {
    && (forall q :: q in m ==> q in m' && m'[q].routes == m[q].routes && m'[q].routes2 == m[q].routes2
                               && m'[q].listed == m[q].listed && (m[q].isTable ==> m'[q].isTable))
    && (forall q :: q in m' && q !in m ==> m'[q].routes == [] && m'[q].routes2 == [] && !m'[q].listed)
  }

  lemma EnsureKidGrows(m: Topics, p: Path, name: string, next: nat)
    requires Shape(m) && NodesOk(m, next) && p in m && '.' !in name
    ensures var w := EnsureKid(m, p, name); Grown(m, w.nodes) && NodesOk(w.nodes, next)
  {
    if FindKid(m[p].kids, name).None? {
      assert Matches(name, name);
      KidListed(m, p, name);
      CreateKidNodes(m, p, name);
      var m' := CreateKid(m, p, name);
      forall q | q in m' ensures NodeOk(m'[q], next) && Plain(q, '.') {
        if q in m { assert NodeOk(m[q], next) && Plain(q, '.'); }
      }
    }
  }

  lemma {:induction false} WalkCreateGrows(m: Topics, p: Path, tokens: seq<string>, next: nat)
    requires Shape(m) && NodesOk(m, next) && p in m && Plain(tokens, '.')
    ensures var w := WalkCreate(m, p, tokens); Grown(m, w.nodes) && NodesOk(w.nodes, next)
    decreases |tokens|
  {
    if tokens == [] {
    } else {
      EnsureKidGrows(m, p, tokens[0], next);
      EnsureKidShape(m, p, tokens[0]);
      var w := EnsureKid(m, p, tokens[0]);
      if |tokens| > 1 {
        WalkCreateGrows(w.nodes, w.path, tokens[1..], next);
      }
    }
  }

  /** The creating walk goes where the plain walk goes, and creates nothing then. */
  lemma {:induction false} WalkCreateFollowsWalk(m: Topics, p: Path, tokens: seq<string>)
    requires Shape(m) && p in m
    ensures match Walk(m, p, tokens)
            case Some(q) => WalkCreate(m, p, tokens) == Walked(m, q, false)
            case None => WalkCreate(m, p, tokens).created && WalkCreate(m, p, tokens).path !in m
    decreases |tokens|
  {
    if tokens == [] {
    } else {
      var name := tokens[0];
      match FindKid(m[p].kids, name)
      case Some(k) =>
        WalkCreateFollowsWalk(m, p + [k], tokens[1..]);
      case None =>
        EnsureKidShape(m, p, name);
        var c := p + [name];
        KidListed(m, p, name);
        if |tokens| > 1 {
          FreshWalkCreates(EnsureKid(m, p, name).nodes, c, tokens[1..]);
          NothingBelowMissing(m, c);
        }
    }
  }

  lemma {:induction false} NothingBelowMissing(m: Topics, c: Path)
    requires Shape(m) && c !in m
    ensures forall q :: AtOrBelow(q, c) ==> q !in m
  {
    forall q | AtOrBelow(q, c) ensures q !in m { PrefixesPresent(m, q, c); }
  }

  lemma {:induction false} PrefixesPresent(m: Topics, q: Path, p: Path)
    requires Shape(m) && AtOrBelow(q, p)
    ensures q in m ==> p in m
    decreases |q|
  {
    if |q| > |p| {
      PrefixesPresent(m, Parent(q), p);
    } else {
      assert q == p;
    }
  }

  lemma {:induction false} FreshWalkCreates(m: Topics, p: Path, tokens: seq<string>)
    requires Shape(m) && p in m && m[p].kids == [] && tokens != []
    ensures WalkCreate(m, p, tokens).created
    decreases |tokens|
  {
    EnsureKidShape(m, p, tokens[0]);
    var w := EnsureKid(m, p, tokens[0]);
    if |tokens| <= 1 {
    } else {
      FreshWalkCreates(w.nodes, w.path, tokens[1..]);
    }
  }

  lemma TokenizePlain(expr: string)
    ensures Plain(Tokenize(expr), '.')
  {
    JoinSplit(expr, '.');
  }

  /** The topic and record of this Add are already tied to each other. */
  ghost predicate ReAdds(t: Tree, expr: string, data: RouteData)
    requires Shape(t.nodes)
  {
    && Tokenize(expr) != []
    && Walk(t.nodes, [], Tokenize(expr)).Some?
    && FindRoute(t.routeList, data).Some?
    && FindRoute(t.routeList, data).value in t.nodes[Walk(t.nodes, [], Tokenize(expr)).value].routes
  }

  /** What err_on_dup refuses: a topic that is there and has had a route list made for it,
      the advisory topic excepted. */
  ghost predicate Refused(t: Tree, expr: string, errOnDup: bool)
    requires Shape(t.nodes)
  {
    && errOnDup && expr != ADVISORY && Locate(t.nodes, expr).Some?
    && t.nodes[Locate(t.nodes, expr).value].listed
  }

  lemma RefusedIff(t: Tree, expr: string, data: RouteData, errOnDup: bool)
    requires Shape(t.nodes)
    ensures AddTopicRoute(t, expr, data, errOnDup).1 == Duplicate <==> Refused(t, expr, errOnDup)
  {
    WalkCreateFollowsWalk(t.nodes, [], Tokenize(expr));
  }

  lemma ReAddRefused(t: Tree, expr: string, data: RouteData, errOnDup: bool)
    requires Inv(t) && ReAdds(t, expr, data)
    ensures Refused(t, expr, errOnDup) <==> errOnDup && expr != ADVISORY
  {
    var q := Walk(t.nodes, [], Tokenize(expr)).value;
    assert NodeOk(t.nodes[q], t.next);
  }

  /** The pair is tied already and the caller gets to tie it again. */
  ghost predicate TiesAgain(t: Tree, expr: string, data: RouteData, errOnDup: bool)
    requires Shape(t.nodes)
  {
    ReAdds(t, expr, data) && (!errOnDup || expr == ADVISORY)
  }

  lemma EnsureRouteInv(t: Tree, data: RouteData)
    requires Inv(t)
    ensures var (t1, h) := EnsureRoute(t, data);
            && Inv(t1) && t1.nodes == t.nodes && h in t1.topicsOf && h.data == data
            && (FindRoute(t.routeList, data).None? ==> t1.topicsOf[h] == [])
            && (Exact(t) ==> Exact(t1))
  {
    var (t1, h) := EnsureRoute(t, data);
    if FindRoute(t.routeList, data).None? {
      assert h !in t.topicsOf;
      forall p ensures !Assigned(t1.nodes, p, h) {
        assert !Assigned(t.nodes, p, h);
      }
      forall p, g ensures Assigned(t1.nodes, p, g) <==> g in t1.topicsOf && p in t1.topicsOf[g] {
        assert Assigned(t.nodes, p, g) <==> g in t.topicsOf && p in t.topicsOf[g];
      }
    }
  }

  lemma AssignShape(m: Topics, p: Path, h: RouteRef)
    requires Shape(m) && p in m
    ensures Shape(AssignRoute(m, p, h))
  {}

  lemma AssignExact(m: Topics, p: Path, h: RouteRef, q: Path, g: RouteRef)
    requires Shape(m) && p in m && q in m && q != []
    requires g in m[q].routes2 <==> AssignedBelow(m, q, g)
    ensures var m' := AssignRoute(m, p, h); g in m'[q].routes2 <==> AssignedBelow(m', q, g)
  {
    var m' := AssignRoute(m, p, h);
    if g in m'[q].routes2 {
      if g in m[q].routes2 {
        var r :| Below(r, q) && Assigned(m, r, g);
        assert Assigned(m', r, g);
      } else {
        assert Below(p, q) && Assigned(m', p, g);
      }
    }
    if AssignedBelow(m', q, g) && g !in m[q].routes2 {
      var r :| Below(r, q) && Assigned(m', r, g);
      if Assigned(m, r, g) { assert AssignedBelow(m, q, g); }
    }
  }

  /** What the creating walk leaves to tie: the pair is tied already just when it was. */
  lemma BeforeTying(t: Tree, expr: string, data: RouteData)
    requires Inv(t) && Tokenize(expr) != []
    ensures var (t1, h) := EnsureRoute(t, data);
            var w := WalkCreate(t1.nodes, [], Tokenize(expr));
            && Inv(t1.(nodes := w.nodes)) && (Exact(t) ==> Exact(t1.(nodes := w.nodes)))
            && h in t1.topicsOf && w.path != []
            && (ReAdds(t, expr, data) <==> h in w.nodes[w.path].routes)
  {
    var tokens := Tokenize(expr);
    TokenizePlain(expr);
    EnsureRouteInv(t, data);
    var (t1, h) := EnsureRoute(t, data);
    var w := WalkCreate(t1.nodes, [], tokens);
    WalkCreateFollowsWalk(t1.nodes, [], tokens);
    WalkCreateGrows(t1.nodes, [], tokens, t1.next);
    GrownKeeps(t1, t1.(nodes := w.nodes));
    assert Assigned(t1.nodes, w.path, h) <==> w.path in t1.topicsOf[h];
  }

  ghost function Tied(t: Tree, p: Path, h: RouteRef): Tree
    requires p in t.nodes && h in t.topicsOf
  {
    t.(nodes := AssignRoute(t.nodes, p, h), topicsOf := t.topicsOf[h := AddOnce(t.topicsOf[h], p)])
  }

  lemma TieKeepsIff(t: Tree, p: Path, h: RouteRef)
    requires Inv(t) && p in t.nodes && p != [] && h in t.topicsOf
    ensures Inv(Tied(t, p, h)) <==> h !in t.nodes[p].routes
    ensures Exact(t) && h !in t.nodes[p].routes ==> Exact(Tied(t, p, h))
  {
    if h in t.nodes[p].routes {
      PushedTwice(t.nodes[p].routes, h);
      assert !NodeOk(Tied(t, p, h).nodes[p], t.next);
    } else {
      TieKeeps(t, p, h);
    }
  }

  /** Adding keeps the invariant exactly when the topic does not list the route yet, or does
      and err_on_dup refuses it. */
  lemma AddKeepsInvIff(t: Tree, expr: string, data: RouteData, errOnDup: bool)
    requires Inv(t)
    ensures Inv(AddTopicRoute(t, expr, data, errOnDup).0) <==> !TiesAgain(t, expr, data, errOnDup)
    ensures Exact(t) && !ReAdds(t, expr, data) ==> Exact(AddTopicRoute(t, expr, data, errOnDup).0)
  {
    var tokens := Tokenize(expr);
    if tokens != [] {
      BeforeTying(t, expr, data);
      var (t1, h) := EnsureRoute(t, data);
      var w := WalkCreate(t1.nodes, [], tokens);
      TieKeepsIff(t1.(nodes := w.nodes), w.path, h);
      RefusedIff(t, expr, data, errOnDup);
      if ReAdds(t, expr, data) { ReAddRefused(t, expr, data, errOnDup); }
    }
  }

  lemma PushedTwice(s: seq<RouteRef>, h: RouteRef)
    requires h in s
    ensures !NoDup(s + [h])
  {
    var k := IndexOf(s, h);
    assert (s + [h])[k] == (s + [h])[|s|];
  }

  lemma GrownKeeps(t: Tree, t': Tree)
    requires Inv(t) && Shape(t'.nodes) && NodesOk(t'.nodes, t'.next) && Grown(t.nodes, t'.nodes)
    requires t' == t.(nodes := t'.nodes)
    ensures Inv(t') && (Exact(t) ==> Exact(t'))
  {
    forall p, h ensures Assigned(t'.nodes, p, h) <==> Assigned(t.nodes, p, h) {}
    if Exact(t) {
      forall p, h | p in t'.nodes && p != []
        ensures h in t'.nodes[p].routes2 <==> AssignedBelow(t'.nodes, p, h)
      {
        if p in t.nodes {
          assert AssignedBelow(t.nodes, p, h) <==> AssignedBelow(t'.nodes, p, h);
        } else {
          NothingBelowMissing(t.nodes, p);
        }
      }
    }
  }

  lemma TieAgrees(t: Tree, p: Path, h: RouteRef)
    requires Agree(t) && p in t.nodes && h in t.topicsOf
    ensures Agree(Tied(t, p, h))
  {
    var t' := Tied(t, p, h);
    forall q, g ensures Assigned(t'.nodes, q, g) <==> g in t'.topicsOf && q in t'.topicsOf[g] {
      assert Assigned(t.nodes, q, g) <==> g in t.topicsOf && q in t.topicsOf[g];
    }
  }

  lemma TieNodesOk(t: Tree, p: Path, h: RouteRef)
    requires NodesOk(t.nodes, t.next) && p in t.nodes && p != [] && h in t.topicsOf && h.serial < t.next
    requires h !in t.nodes[p].routes
    ensures NodesOk(Tied(t, p, h).nodes, t.next)
  {
    var m' := Tied(t, p, h).nodes;
    forall q | q in m' ensures NodeOk(m'[q], t.next) && Plain(q, '.') { assert NodeOk(t.nodes[q], t.next); }
  }

  lemma TieExact(t: Tree, p: Path, h: RouteRef)
    requires Inv(t) && Exact(t) && p in t.nodes && h in t.topicsOf
    ensures Exact(Tied(t, p, h))
  {
    var t' := Tied(t, p, h);
    forall q, g | q in t'.nodes && q != []
      ensures g in t'.nodes[q].routes2 <==> AssignedBelow(t'.nodes, q, g)
    {
      AssignExact(t.nodes, p, h, q, g);
    }
  }

  lemma TieRegistered(t: Tree, p: Path, h: RouteRef)
    requires Registered(t) && p in t.nodes && h in t.topicsOf
    ensures Registered(Tied(t, p, h))
  {}

  /** Pushing a new pair into topic, route and ancestors. */
  lemma TieKeeps(t: Tree, p: Path, h: RouteRef)
    requires Inv(t) && p in t.nodes && p != [] && h in t.topicsOf && h !in t.nodes[p].routes
    ensures Inv(Tied(t, p, h)) && (Exact(t) ==> Exact(Tied(t, p, h)))
  {
    AssignShape(t.nodes, p, h);
    TieAgrees(t, p, h);
    TieNodesOk(t, p, h);
    TieRegistered(t, p, h);
    if Exact(t) { TieExact(t, p, h); }
  }

  // ---------------------------------------------------------------- removing

  lemma RemoveFirstFacts(s: seq<RouteRef>, h: RouteRef)
    requires NoDup(s)
    ensures NoDup(RemoveFirst(s, h))
    ensures forall g :: g in RemoveFirst(s, h) <==> g in s && g != h
    ensures RemoveFirst(s, h) != [] <==> exists g :: g in s && g != h
  {
    RemoveFirstNoDup(s, h);
    if RemoveFirst(s, h) != [] { assert RemoveFirst(s, h)[0] in s; }
  }

  /** Something other than `h` is assigned at or below `p`. */
  ghost predicate NeededWithout(m: Topics, p: Path, h: RouteRef) {
    exists q, g :: AtOrBelow(q, p) && Assigned(m, q, g) && g != h
  }

  lemma AliveIffNeeded(m: Topics, next: nat, p: Path, h: RouteRef)
    requires NodesOk(m, next)
    ensures Alive(m, p, h) <==> NeededWithout(m, p, h)
  {
    if Alive(m, p, h) {
      var q :| q in m && AtOrBelow(q, p) && RemoveFirst(m[q].routes, h) != [];
      assert NodeOk(m[q], next);
      RemoveFirstFacts(m[q].routes, h);
      var g :| g in m[q].routes && g != h;
      assert Assigned(m, q, g);
    }
    if NeededWithout(m, p, h) {
      var q, g :| AtOrBelow(q, p) && Assigned(m, q, g) && g != h;
      assert NodeOk(m[q], next);
      RemoveFirstFacts(m[q].routes, h);
    }
  }

  lemma AliveUp(m: Topics, p: Path, h: RouteRef)
    requires p != [] && Alive(m, p, h)
    ensures Alive(m, Parent(p), h)
  {
    var q :| q in m && AtOrBelow(q, p) && RemoveFirst(m[q].routes, h) != [];
    assert AtOrBelow(q, Parent(p));
  }

  lemma PruneAt(m: Topics, h: RouteRef, p: Path)
    ensures var m' := Prune(m, [], h);
            && (p in m' <==> p in m && (p == [] || Alive(m, p, h)))
            && (p in m' ==> m'[p].kids == AliveKids(m, p, m[p].kids, h))
            && (p in m' && p != [] ==> m'[p].routes == RemoveFirst(m[p].routes, h))
            && (p in m' && p == [] ==> m'[p].routes == m[p].routes)
  {
    assert p != [] <==> Below(p, []);
  }

  lemma PruneShape(m: Topics, h: RouteRef)
    requires Shape(m)
    ensures Shape(Prune(m, [], h))
  {
    var m' := Prune(m, [], h);
    forall p, n | p in m' && n in m'[p].kids ensures p + [n] in m' {
      PruneAt(m, h, p);
      assert n in m[p].kids && Alive(m, p + [n], h);
      PruneAt(m, h, p + [n]);
    }
    forall p | p in m' && p != [] ensures Parent(p) in m' && Last(p) in m'[Parent(p)].kids {
      PruneAt(m, h, p);
      AliveUp(m, p, h);
      PruneAt(m, h, Parent(p));
      InitLast(p);
    }
    forall p | p in m' ensures NoDup(m'[p].kids) {
      PruneAt(m, h, p);
      assert NoDup(m[p].kids);
    }
    PruneAt(m, h, []);
  }

  lemma PruneAssigned(m: Topics, next: nat, h: RouteRef, p: Path, g: RouteRef)
    requires NodesOk(m, next)
    ensures Assigned(Prune(m, [], h), p, g) <==> Assigned(m, p, g) && g != h
  {
    if p in m {
      assert NodeOk(m[p], next);
      RemoveFirstFacts(m[p].routes, h);
      if p != [] {
        assert Below(p, []) && AtOrBelow(p, p);
      }
    }
  }

  lemma PruneNodesOk(m: Topics, next: nat, h: RouteRef)
    requires NodesOk(m, next)
    ensures NodesOk(Prune(m, [], h), next)
  {
    var m' := Prune(m, [], h);
    forall p | p in m' ensures NodeOk(m'[p], next) && Plain(p, '.') {
      assert NodeOk(m[p], next) && Plain(p, '.');
      RemoveFirstFacts(m[p].routes, h);
      RemoveFirstFacts(m[p].routes2, h);
    }
  }

  lemma PruneExact(t: Tree, h: RouteRef)
    requires Shape(t.nodes) && NodesOk(t.nodes, t.next) && Exact(t)
    ensures Exact(t.(nodes := Prune(t.nodes, [], h)))
  {
    var m, m' := t.nodes, Prune(t.nodes, [], h);
    forall p, g | p in m' && p != [] ensures g in m'[p].routes2 <==> AssignedBelow(m', p, g) {
      assert NodeOk(m[p], t.next) && Below(p, []);
      RemoveFirstFacts(m[p].routes2, h);
      assert g in m'[p].routes2 <==> g in m[p].routes2 && g != h;
      if AssignedBelow(m, p, g) && g != h {
        var q :| Below(q, p) && Assigned(m, q, g);
        PruneAssigned(m, t.next, h, q, g);
      }
      if AssignedBelow(m', p, g) {
        var q :| Below(q, p) && Assigned(m', q, g);
        PruneAssigned(m, t.next, h, q, g);
      }
    }
  }

  lemma RemoveRouteKeeps(t: Tree, data: RouteData)
    requires Inv(t)
    ensures var t' := RemoveRoute(t, data);
            && Inv(t') && (Exact(t) ==> Exact(t'))
            && (forall h :: h in t'.topicsOf <==> h in t.topicsOf && h.data != data)
  {
    match FindRoute(t.routeList, data)
    case None =>
    case Some(h) =>
      var t' := RemoveRoute(t, data);
      PruneShape(t.nodes, h);
      PruneNodesOk(t.nodes, t.next, h);
      RemoveFirstFacts(t.routeList, h);
      forall p, g ensures Assigned(t'.nodes, p, g) <==> g in t'.topicsOf && p in t'.topicsOf[g] {
        PruneAssigned(t.nodes, t.next, h, p, g);
        assert Assigned(t.nodes, p, g) <==> g in t.topicsOf && p in t.topicsOf[g];
      }
      if Exact(t) {
        PruneExact(t, h);
        assert t'.nodes == t.(nodes := Prune(t.nodes, [], h)).nodes;
      }
  }

  /** RemoveRoute keeps exactly the topics some other route needs, their remaining
      routes in order, and leaves no leaf without a route. This holds from every tree
      the invariant allows, dead branches included. */
  lemma RemoveRouteKeepsNeeded(t: Tree, data: RouteData)
    requires Inv(t) && FindRoute(t.routeList, data).Some?
    ensures var h := FindRoute(t.routeList, data).value;
            var m' := RemoveRoute(t, data).nodes;
            forall p :: PrunedRight(t.nodes, m', p, h)
  {
    var h := FindRoute(t.routeList, data).value;
    forall p ensures PrunedRight(t.nodes, Prune(t.nodes, [], h), p, h) {
      PruneNeeded(t.nodes, t.next, p, h);
    }
  }

  ghost predicate PrunedRight(m: Topics, m': Topics, p: Path, h: RouteRef) {
    && (p in m' <==> p in m && (p == [] || NeededWithout(m, p, h)))
    && (p in m' ==> m'[p].routes == Except(m[p].routes, h))
    && (p in m' && p != [] ==> m'[p].kids != [] || m'[p].routes != [])
  }

  lemma PruneNeeded(m: Topics, next: nat, p: Path, h: RouteRef)
    requires Shape(m) && NodesOk(m, next)
    ensures PrunedRight(m, Prune(m, [], h), p, h)
  {
    var m' := Prune(m, [], h);
    PruneAt(m, h, p);
    assert p in m' <==> p in m && (p == [] || NeededWithout(m, p, h)) by { AliveIffNeeded(m, next, p, h); }
    if p in m' {
      assert m'[p].routes == Except(m[p].routes, h) by {
        assert NodeOk(m[p], next);
        RemoveFirstIsExcept(m[p].routes, h);
      }
      if p != [] { LeafHasRoute(m, p, h); }
    }
  }

  lemma LeafHasRoute(m: Topics, p: Path, h: RouteRef)
    requires Shape(m) && p in Prune(m, [], h) && p != []
    ensures Prune(m, [], h)[p].kids != [] || Prune(m, [], h)[p].routes != []
  {
    PruneAt(m, h, p);
    var q :| q in m && AtOrBelow(q, p) && RemoveFirst(m[q].routes, h) != [];
    if q != p {
      var k := q[|p|];
      TakeNext(q, |p|);
      assert AtOrBelow(q, p + [k]);
      PrefixesPresent(m, q, p + [k]);
      KidListed(m, p, k);
      assert Alive(m, p + [k], h);
      assert k in AliveKids(m, p, m[p].kids, h);
    }
  }

  // ---------------------------------------------------------- removing topics

  lemma CutShape(t: Tree, p: Path, name: string)
    requires Inv(t) && p in t.nodes && name in t.nodes[p].kids
    ensures Shape(Cut(t, p, name).nodes)
  {
    var q, m, m' := p + [name], t.nodes, Cut(t, p, name).nodes;
    RemoveFirstNoDup(m[p].kids, name);
    forall x, n | x in m' && n in m'[x].kids ensures x + [n] in m' {
      assert n in m[x].kids && x + [n] in m;
      BelowStep(x, n, p, name);
    }
    forall x | x in m' && x != [] ensures Parent(x) in m' && Last(x) in m'[Parent(x)].kids {
      assert Parent(x) in m && Last(x) in m[Parent(x)].kids;
      BelowStep(Parent(x), Last(x), p, name);
      InitLast(x);
    }
    forall x | x in m' ensures NoDup(m'[x].kids) { assert NoDup(m[x].kids); }
  }

  lemma BelowStep(x: Path, n: string, p: Path, name: string)
    ensures AtOrBelow(x + [n], p + [name]) <==> AtOrBelow(x, p + [name]) || (x == p && n == name)
  {
    var y, q := x + [n], p + [name];
    if |x| >= |q| {
      assert y[..|q|] == x[..|q|];
    } else if |x| + 1 == |q| {
      assert y[..|q|] == y && y[..|x|] == x && q[..|p|] == p;
    }
  }

  /** RemoveTopic drops the pairs of the cut subtree and nothing else. */
  lemma CutAssigned(t: Tree, p: Path, name: string, x: Path, h: RouteRef)
    requires p in t.nodes
    ensures Assigned(Cut(t, p, name).nodes, x, h) <==> Assigned(t.nodes, x, h) && !AtOrBelow(x, p + [name])
  {}

  lemma CutKeeps(t: Tree, p: Path, name: string)
    requires Inv(t) && p in t.nodes && name in t.nodes[p].kids
    ensures Inv(Cut(t, p, name))
  {
    var q, t' := p + [name], Cut(t, p, name);
    CutShape(t, p, name);
    forall x | x in t'.nodes ensures NodeOk(t'.nodes[x], t'.next) {
      assert NodeOk(t.nodes[x], t.next);
    }
    forall x, h ensures Assigned(t'.nodes, x, h) <==> h in t'.topicsOf && x in t'.topicsOf[h] {
      CutAssigned(t, p, name, x, h);
      assert Assigned(t.nodes, x, h) <==> h in t.topicsOf && x in t.topicsOf[h];
    }
  }

  /** What a caller can look up before RemoveTopic: every route of the doomed subtree
      is also assigned, outside that subtree, somewhere below the parent. */
  ghost predicate CoveredElsewhere(m: Topics, p: Path, name: string) {
    forall x, h :: AtOrBelow(x, p + [name]) && Assigned(m, x, h) ==>
      exists y :: Below(y, p) && !AtOrBelow(y, p + [name]) && Assigned(m, y, h)
  }

  lemma PrefixesCompare(x: Path, a: Path, b: Path)
    requires AtOrBelow(x, a) && AtOrBelow(x, b)
    ensures AtOrBelow(a, b) || Below(b, a)
  {
    if |a| >= |b| {
      assert x[..|a|][..|b|] == x[..|b|];
    } else {
      assert x[..|b|][..|a|] == x[..|a|];
    }
  }

  lemma CutCovers(t: Tree, p: Path, name: string, a: Path, x: Path, h: RouteRef)
    requires Inv(t) && p in t.nodes && name in t.nodes[p].kids
    requires p == [] || CoveredElsewhere(t.nodes, p, name)
    requires a != [] && !AtOrBelow(a, p + [name]) && Below(x, a) && Assigned(t.nodes, x, h)
    ensures AssignedBelow(Cut(t, p, name).nodes, a, h)
  {
    var q := p + [name];
    if AtOrBelow(x, q) {
      PrefixesCompare(x, a, q);
      assert a == p[..|a|];
      assert p != [];
      var y :| Below(y, p) && !AtOrBelow(y, q) && Assigned(t.nodes, y, h);
      assert Below(y, a);
      CutAssigned(t, p, name, y, h);
    } else {
      CutAssigned(t, p, name, x, h);
    }
  }

  lemma CutLeaves(t: Tree, p: Path, name: string)
    requires p in t.nodes
    ensures var m' := Cut(t, p, name).nodes; p in m' && m'[p].routes2 == t.nodes[p].routes2
  {
    assert !AtOrBelow(p, p + [name]);
  }

  lemma CoveredAt(t: Tree, p: Path, name: string, x: Path, h: RouteRef) returns (y: Path)
    requires Exact(t) && p in t.nodes && p != [] && Exact(Cut(t, p, name))
    requires AtOrBelow(x, p + [name]) && Assigned(t.nodes, x, h)
    ensures Below(y, p) && !AtOrBelow(y, p + [name]) && Assigned(t.nodes, y, h)
  {
    var m' := Cut(t, p, name).nodes;
    CutLeaves(t, p, name);
    assert Below(x, p) by { assert x[..|p|] == x[..|p| + 1][..|p|] == p; }
    assert AssignedBelow(t.nodes, p, h) && AssignedBelow(m', p, h);
    y :| Below(y, p) && Assigned(m', y, h);
    CutAssigned(t, p, name, y, h);
  }

  lemma CutExactOnlyIf(t: Tree, p: Path, name: string)
    requires Inv(t) && Exact(t) && p in t.nodes && p != [] && name in t.nodes[p].kids && Exact(Cut(t, p, name))
    ensures CoveredElsewhere(t.nodes, p, name)
  {
    forall x, h | AtOrBelow(x, p + [name]) && Assigned(t.nodes, x, h)
      ensures exists y :: Below(y, p) && !AtOrBelow(y, p + [name]) && Assigned(t.nodes, y, h)
    {
      var y := CoveredAt(t, p, name, x, h);
    }
  }

  lemma CutExactIfCovered(t: Tree, p: Path, name: string)
    requires Inv(t) && Exact(t) && p in t.nodes && name in t.nodes[p].kids
    requires p == [] || CoveredElsewhere(t.nodes, p, name)
    ensures Exact(Cut(t, p, name))
  {
    var m, m' := t.nodes, Cut(t, p, name).nodes;
    forall a, h | a in m' && a != [] ensures h in m'[a].routes2 <==> AssignedBelow(m', a, h) {
      assert m'[a].routes2 == m[a].routes2;
      if AssignedBelow(m', a, h) {
        var y :| Below(y, a) && Assigned(m', y, h);
        CutAssigned(t, p, name, y, h);
      }
      if AssignedBelow(m, a, h) {
        var x :| Below(x, a) && Assigned(m, x, h);
        CutCovers(t, p, name, a, x, h);
      }
    }
  }

  /** RemoveTopic leaves the ancestors' routes2 alone, so it keeps the index exact in
      just these cases: the topic hangs at the root, or its routes are covered. */
  lemma CutExactIff(t: Tree, p: Path, name: string)
    requires Inv(t) && Exact(t) && p in t.nodes && name in t.nodes[p].kids
    ensures Exact(Cut(t, p, name)) <==> p == [] || CoveredElsewhere(t.nodes, p, name)
  {
    if Exact(Cut(t, p, name)) && p != [] { CutExactOnlyIf(t, p, name); }
    if p == [] || CoveredElsewhere(t.nodes, p, name) { CutExactIfCovered(t, p, name); }
  }

  lemma RemoveTopicKeeps(t: Tree, expr: string)
    requires Inv(t)
    ensures Inv(RemoveTopic(t, expr))
  {
    match CutPoint(t, expr)
    case None =>
    case Some(p) => CutKeeps(t, p, Last(Tokenize(expr)));
  }

  // -------------------------------------------------------------------- runs

  datatype Op =
    | Add(expr: string, data: RouteData, errOnDup: bool)
    | DropRoute(data: RouteData)
    | DropTopic(expr: string)

  ghost function Step(t: Tree, op: Op): Tree
    requires Shape(t.nodes)
  {
    match op
    case Add(expr, data, errOnDup) => AddTopicRoute(t, expr, data, errOnDup).0
    case DropRoute(data) => RemoveRoute(t, data)
    case DropTopic(expr) => RemoveTopic(t, expr)
  }

  /** The caller does not tie the same topic and route twice. */
  ghost predicate WellUsed(t: Tree, op: Op)
    requires Shape(t.nodes)
  {
    op.Add? ==> !TiesAgain(t, op.expr, op.data, op.errOnDup)
  }

  lemma StepKeepsInv(t: Tree, op: Op)
    requires Inv(t) && WellUsed(t, op)
    ensures Inv(Step(t, op))
    ensures Exact(t) && !op.DropTopic? && (op.Add? ==> !ReAdds(t, op.expr, op.data)) ==> Exact(Step(t, op))
  {
    match op
    case Add(expr, data, errOnDup) => AddKeepsInvIff(t, expr, data, errOnDup);
    case DropRoute(data) => RemoveRouteKeeps(t, data);
    case DropTopic(expr) => RemoveTopicKeeps(t, expr);
  }

  /** `ops` takes `t` to `t'`, every call well used. */
  ghost predicate Runs(t: Tree, ops: seq<Op>, t': Tree)
    decreases |ops|
  {
    if ops == [] then t' == t
    else Shape(t.nodes) && WellUsed(t, ops[0]) && Runs(Step(t, ops[0]), ops[1..], t')
  }

  lemma {:induction false} RunKeepsInv(t: Tree, ops: seq<Op>, t': Tree)
    requires Inv(t) && Runs(t, ops, t')
    decreases |ops|
    ensures Inv(t')
    ensures Exact(t) && (forall op :: op in ops ==> !op.DropTopic?) ==> Exact(t')
  {
    if ops == [] {
    } else {
      StepKeepsInv(t, ops[0]);
      if ops[0].Add? && ReAdds(t, ops[0].expr, ops[0].data) {
        RejectedReAdd(t, ops[0].expr, ops[0].data, ops[0].errOnDup);
      }
      RunKeepsInv(Step(t, ops[0]), ops[1..], t');
    }
  }

  /** A refused registration of a route the topic lists already changes nothing. */
  lemma RejectedReAdd(t: Tree, expr: string, data: RouteData, errOnDup: bool)
    requires Inv(t) && ReAdds(t, expr, data) && errOnDup && expr != ADVISORY
    ensures AddTopicRoute(t, expr, data, errOnDup) == (t, Duplicate)
  {
    ReAddRefused(t, expr, data, errOnDup);
    RefusedIff(t, expr, data, errOnDup);
    WalkCreateFollowsWalk(t.nodes, [], Tokenize(expr));
  }

  /** Every tree a run builds up from nothing satisfies the invariant, and its index is
      exact as long as RemoveTopic was not used. */
  lemma ReachableInv(ops: seq<Op>, t: Tree)
    requires Runs(EMPTY_TREE, ops, t)
    ensures Inv(t)
    ensures (forall op :: op in ops ==> !op.DropTopic?) ==> Exact(t)
  {
    EmptyTreeInv();
    RunKeepsInv(EMPTY_TREE, ops, t);
  }
}
