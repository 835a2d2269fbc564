/** What the queries of the routing tree return: ResolvePartialPath against the set of
    routes below a path, GetTopicRoutes under the naming rule and after an Add. */
module TreeQueries {
  import opened Sequences
  import opened Text
  import opened TopicTree
  import opened TreeInvariant

  // ------------------------------------------------------------------- names

  lemma JoinEnd(init: seq<string>, last: string, s: string)
    requires s == Join(init + [last], '.') && '.' !in last
    ensures if last != "" then !EndsInDot(s) && s != "" else if init == [] then s == "" else s == Join(init, '.') + "."
  {
    if init == [] {
      assert init + [last] == [last];
    } else {
      JoinSnoc(init, last, '.');
    }
    assert last != "" ==> s[|s| - 1] == last[|last| - 1];
  }

  lemma TokenizeRoundTrip(expr: string)
    ensures Join(Tokenize(expr), '.') + (if EndsInDot(expr) then "." else "") == expr
    ensures Tokenize(expr) == [] <==> expr == ""
  {
    JoinSplit(expr, '.');
    var pieces := Split(expr, '.');
    var init, last := pieces[..|pieces| - 1], pieces[|pieces| - 1];
    InitLast(pieces);
    assert last in pieces;
    JoinEnd(init, last, expr);
  }

  lemma OneToken(a: string)
    requires a != "" && '.' !in a
    ensures Tokenize(a) == [a]
  {
    assert Join([a], '.') == a;
    SplitJoin([a], '.');
  }

  lemma TwoTokens(a: string, b: string)
    requires b != "" && '.' !in a && '.' !in b
    ensures Tokenize(a + "." + b) == [a, b]
  {
    JoinSnoc([a], b, '.');
    assert [a] + [b] == [a, b] && Plain([a, b], '.');
    SplitJoin([a, b], '.');
  }

  /** fullName identifies a topic. */
  lemma FullNamesDistinct(t: Tree, p: Path, q: Path)
    requires Inv(t) && p in t.nodes && q in t.nodes && p != [] && q != []
    ensures FullName(p) == FullName(q) ==> p == q
  {
    if FullName(p) == FullName(q) { JoinInjective(p, q, '.'); }
  }

  /** createTreeTopic appends the new name to the parent's full name. */
  lemma FullNameExtends(p: Path, name: string)
    ensures FullName(p + [name]) == if p == [] then name else FullName(p) + "." + name
  {
    if p != [] { JoinSnoc(p, name, '.'); } else { assert p + [name] == [name]; }
  }

  // ----------------------------------------------------------- partial paths

  /** `name` is the full name of a topic the route is directly assigned to. */
  ghost predicate NamesTopicOf(t: Tree, name: string, h: RouteRef) {
    exists q :: Assigned(t.nodes, q, h) && name == FullName(q)
  }

  /** One name per distinct route assigned below the path, and it is the full name of a
      topic that route is assigned to. */
  lemma ResolveCorrect(t: Tree, expr: string, p: Path)
    requires Inv(t) && Exact(t)
    requires Locate(t.nodes, expr) == Some(p)
    ensures var hs := PartialRoutes(t, expr);
            && NoDup(hs)
            && (forall h :: h in hs <==> AssignedBelow(t.nodes, p, h))
            && (forall h :: h in hs ==> h in t.topicsOf && t.topicsOf[h] != [])
            && (forall i :: 0 <= i < |hs| ==> NamesTopicOf(t, FirstNames(t, hs)[i], hs[i]))
  {
    var hs := PartialRoutes(t, expr);
    assert NodeOk(t.nodes[p], t.next) && p != [];
    assert hs == t.nodes[p].routes2;
    forall h | h in hs ensures h in t.topicsOf && t.topicsOf[h] != [] {
      var q :| Below(q, p) && Assigned(t.nodes, q, h);
    }
    forall i | 0 <= i < |hs| ensures NamesTopicOf(t, FirstNames(t, hs)[i], hs[i]) {
      assert hs[i] in t.topicsOf && t.topicsOf[hs[i]] != [];
      var q := t.topicsOf[hs[i]][0];
      assert q in t.topicsOf[hs[i]];
      assert Assigned(t.nodes, q, hs[i]) && FirstNames(t, hs)[i] == FullName(q);
    }
  }

  /** The index can go stale: cutting "a.b" away frees the only route, and topic "a"
      still lists it. */
  ghost predicate GoesStale(t: Tree, p: Path, name: string, h: RouteRef) {
    && Inv(t) && Exact(t) && p in t.nodes && name in t.nodes[p].kids
    && var t' := Cut(t, p, name);
       p in t'.nodes && h in t'.nodes[p].routes2 && h !in t'.topicsOf
  }

  function TwoLevels(a: string, b: string, h: RouteRef): Tree {
    Tree(map[[] := Node([a], false, [], [], Curly(a)),
             [a] := Node([b], false, [], [h], Curly(b)),
             [a, b] := Node([], true, [h], [], false)],
         [h], map[h := [[a, b]]], h.serial + 1)
  }

  lemma OneBelowAnother(m: Topics, a: string, b: string)
    requires m.Keys == {[], [a], [a, b]} && m[[]].kids == [a] && m[[a]].kids == [b] && m[[a, b]].kids == []
    ensures Shape(m)
  {
    assert Parent([a]) == [] && Last([a]) == a && Parent([a, b]) == [a] && Last([a, b]) == b;
    assert [a, b] == [a] + [b] && [a] == [] + [a];
  }

  lemma TwoLevelsShape(a: string, b: string, h: RouteRef)
    ensures Shape(TwoLevels(a, b, h).nodes)
  {
    OneBelowAnother(TwoLevels(a, b, h).nodes, a, b);
  }

  lemma TwoLevelsNodesOk(a: string, b: string, h: RouteRef)
    requires '.' !in a && '.' !in b
    ensures NodesOk(TwoLevels(a, b, h).nodes, h.serial + 1)
  {
    assert Plain([a], '.') && Plain([a, b], '.');
  }

  lemma TwoLevelsAgree(a: string, b: string, h: RouteRef)
    ensures Agree(TwoLevels(a, b, h))
  {
    var t := TwoLevels(a, b, h);
    forall p, g ensures Assigned(t.nodes, p, g) <==> g in t.topicsOf && p in t.topicsOf[g] {
      if p == [a, b] { assert Assigned(t.nodes, p, g) <==> g == h; }
    }
  }

  lemma TwoLevelsExact(a: string, b: string, h: RouteRef)
    ensures Exact(TwoLevels(a, b, h))
  {
    var t := TwoLevels(a, b, h);
    assert Below([a, b], [a]) && Assigned(t.nodes, [a, b], h);
  }

  lemma TwoLevelsInv(a: string, b: string, h: RouteRef)
    requires '.' !in a && '.' !in b
    ensures Inv(TwoLevels(a, b, h)) && Exact(TwoLevels(a, b, h))
  {
    TwoLevelsShape(a, b, h);
    TwoLevelsNodesOk(a, b, h);
    TwoLevelsAgree(a, b, h);
    TwoLevelsExact(a, b, h);
  }

  lemma StaleAfterRemoveTopic(a: string, b: string, h: RouteRef)
    requires '.' !in a && '.' !in b
    ensures GoesStale(TwoLevels(a, b, h), [a], b, h)
  {
    TwoLevelsInv(a, b, h);
    var t := TwoLevels(a, b, h);
    assert [a] + [b] == [a, b] && !AtOrBelow([a], [a, b]);
    assert Outside(t.topicsOf[h], [a, b]) == [];
  }

  // ---------------------------------------------------------- instance tokens

  /** No topic is named like a row instance, and "{i}" is the only placeholder. */
  ghost predicate Literal(m: Topics) {
    forall p, k {:trigger k in m[p].kids} :: p in m && k in m[p].kids ==> LiteralName(k)
  }

  predicate LiteralName(k: string) { !InstanceToken(k) && (Curly(k) ==> k == "{i}") }

  function NormName(name: string): string { if InstanceToken(name) then "{i}" else name }

  function Norm(tokens: seq<string>): (r: seq<string>)
    ensures |r| == |tokens| && forall i :: 0 <= i < |tokens| ==> r[i] == NormName(tokens[i])
  {
    seq(|tokens|, i requires 0 <= i < |tokens| => NormName(tokens[i]))
  }

  lemma FindKidNorm(kids: seq<string>, name: string)
    requires forall k :: k in kids ==> LiteralName(k)
    ensures FindKid(kids, name) == if NormName(name) in kids then Some(NormName(name)) else None
  {
    if NormName(name) in kids { assert Matches(NormName(name), name); }
  }

  /** Under the naming rule a lookup is a map lookup of the normalised tokens. */
  lemma {:induction false} WalkNorm(m: Topics, p: Path, tokens: seq<string>)
    requires Shape(m) && Literal(m) && p in m
    ensures Walk(m, p, tokens) == if p + Norm(tokens) in m then Some(p + Norm(tokens)) else None
    decreases |tokens|
  {
    if tokens == [] {
      assert p + Norm(tokens) == p;
    } else {
      var k := NormName(tokens[0]);
      FindKidNorm(m[p].kids, tokens[0]);
      assert p + Norm(tokens) == p + [k] + Norm(tokens[1..]);
      KidListed(m, p, k);
      if k in m[p].kids {
        WalkNorm(m, p + [k], tokens[1..]);
      } else {
        assert AtOrBelow(p + Norm(tokens), p + [k]);
        NothingBelowMissing(m, p + [k]);
      }
    }
  }

  /** A row id, alias or wildcard in place of "{i}" finds the same routes. */
  lemma InstanceTokensInvisible(t: Tree, a: string, b: string)
    requires Inv(t) && Literal(t.nodes)
    requires Norm(Tokenize(a)) == Norm(Tokenize(b)) && EndsInDot(a) == EndsInDot(b)
    ensures GetTopicRoutes(t, a) == GetTopicRoutes(t, b)
  {
    WalkNorm(t.nodes, [], Tokenize(a));
    WalkNorm(t.nodes, [], Tokenize(b));
  }

  /** So a digit-led id, a bracketed alias and the wildcard all find what "{i}" finds, wherever
      in the expression they stand. */
  lemma RowFindsPlaceholder(t: Tree, before: seq<string>, row: string, after: seq<string>)
    requires Inv(t) && Literal(t.nodes) && row != ""
    requires '0' <= row[0] <= '9' || row[0] == '[' || row[0] == '*'
    ensures Walk(t.nodes, [], before + [row] + after) == Walk(t.nodes, [], before + ["{i}"] + after)
  {
    WalkNorm(t.nodes, [], before + [row] + after);
    WalkNorm(t.nodes, [], before + ["{i}"] + after);
    assert Norm(before + [row] + after) == Norm(before + ["{i}"] + after);
  }

  // ---------------------------------------------------------------- caller pointers

  function Datas(hs: seq<RouteRef>): (r: seq<RouteData>)
    ensures |r| == |hs| && forall i :: 0 <= i < |hs| ==> r[i] == hs[i].data
  {
    seq(|hs|, i requires 0 <= i < |hs| => hs[i].data)
  }

  /** What an Add with a nonempty expression does to the topics. */
  lemma AddResult(t: Tree, expr: string, data: RouteData, errOnDup: bool)
    requires Shape(t.nodes) && Tokenize(expr) != []
    ensures var (t', code) := AddTopicRoute(t, expr, data, errOnDup);
            var w := WalkCreate(t.nodes, [], Tokenize(expr));
            t'.nodes == if code == Duplicate then w.nodes else AssignRoute(w.nodes, w.path, EnsureRoute(t, data).1)
  {}

  lemma DataIn(hs: seq<RouteRef>, h: RouteRef)
    ensures h in hs ==> h.data in Datas(hs)
  {
    if i :| 0 <= i < |hs| && hs[i] == h { assert Datas(hs)[i] == h.data; }
  }

  lemma {:induction false} DatasExcept(hs: seq<RouteRef>, h: RouteRef)
    requires forall g :: g in hs && g.data == h.data ==> g == h
    ensures Datas(Except(hs, h)) == Except(Datas(hs), h.data)
  {
    if hs == [] {
    } else {
      DatasExcept(hs[1..], h);
      assert Datas(hs)[1..] == Datas(hs[1..]);
      assert hs[0] in hs;
      assert Datas([hs[0]] + Except(hs[1..], h)) == [hs[0].data] + Datas(Except(hs[1..], h));
    }
  }

  lemma RoutesAreLive(t: Tree, p: Path, g: RouteRef)
    requires Inv(t) && Assigned(t.nodes, p, g)
    ensures g in t.routeList
  {
    assert g in t.topicsOf;
  }

  ghost predicate AllRegistered(t: Tree, hs: seq<RouteRef>) { forall h :: h in hs ==> h in t.topicsOf }

  lemma IndexRegistered(t: Tree, q: Path)
    requires Inv(t) && Exact(t) && q in t.nodes
    ensures forall h :: h in t.nodes[q].routes2 ==> h in t.topicsOf
  {
    forall h | h in t.nodes[q].routes2 ensures h in t.topicsOf {
      var r :| Below(r, q) && Assigned(t.nodes, r, h);
    }
  }

  lemma DistinctDatas(t: Tree, hs: seq<RouteRef>)
    requires Inv(t) && NoDup(hs) && AllRegistered(t, hs)
    ensures NoDup(Datas(hs))
  {
    forall i, j | 0 <= i < j < |hs| ensures hs[i].data != hs[j].data {
      assert hs[i] in hs && hs[j] in hs;
      assert hs[i] in t.routeList && hs[j] in t.routeList;
    }
  }

  // ---------------------------------------------------------- reading back an Add

  lemma {:induction false} WalkCreateOutside(m: Topics, p: Path, tokens: seq<string>, q: Path)
    requires Shape(m) && p in m && q in m && !AtOrBelow(q, p)
    ensures var w := WalkCreate(m, p, tokens); q in w.nodes && w.nodes[q] == m[q]
    decreases |tokens|
  {
    if tokens == [] {
    } else {
      EnsureKidShape(m, p, tokens[0]);
      var w := EnsureKid(m, p, tokens[0]);
      assert q in w.nodes && w.nodes[q] == m[q];
      assert !AtOrBelow(q, w.path) by { assert w.path[..|p|] == p; }
      if |tokens| > 1 { WalkCreateOutside(w.nodes, w.path, tokens[1..], q); }
    }
  }

  lemma {:induction false} FindKidSnoc(kids: seq<string>, name: string)
    requires FindKid(kids, name).None?
    ensures FindKid(kids + [name], name) == Some(name)
  {
    if kids == [] {
    } else {
      FindKidSnoc(kids[1..], name);
      assert (kids + [name])[1..] == kids[1..] + [name];
    }
  }

  lemma EnsureKidFound(m: Topics, p: Path, name: string)
    requires Shape(m) && p in m
    ensures var w := EnsureKid(m, p, name);
            p in w.nodes && FindKid(w.nodes[p].kids, name).Some? && w.path == p + [FindKid(w.nodes[p].kids, name).value]
  {
    if FindKid(m[p].kids, name).None? {
      KidListed(m, p, name);
      assert Matches(name, name);
      CreateKidNodes(m, p, name);
      FindKidSnoc(m[p].kids, name);
    }
  }

  /** The plain walk finds what the creating walk made, table placeholders included. */
  lemma {:induction false} WalkFindsCreated(m: Topics, p: Path, tokens: seq<string>)
    requires Shape(m) && p in m
    ensures var w := WalkCreate(m, p, tokens); p in w.nodes && Walk(w.nodes, p, tokens) == Some(w.path)
    decreases |tokens|
  {
    if tokens == [] {
    } else {
      EnsureKidShape(m, p, tokens[0]);
      EnsureKidFound(m, p, tokens[0]);
      var w := EnsureKid(m, p, tokens[0]);
      if |tokens| > 1 {
        WalkCreateOutside(w.nodes, w.path, tokens[1..], p);
        WalkFindsCreated(w.nodes, w.path, tokens[1..]);
      } else {
        assert Walk(w.nodes, w.path, tokens[1..]) == Some(w.path);
      }
    }
  }

  lemma {:induction false} WalkSameKids(m: Topics, m': Topics, p: Path, tokens: seq<string>)
    requires Shape(m) && Shape(m') && p in m && m'.Keys == m.Keys
    requires forall q :: q in m ==> m'[q].kids == m[q].kids
    ensures Walk(m', p, tokens) == Walk(m, p, tokens)
    decreases |tokens|
  {
    if tokens != [] && FindKid(m[p].kids, tokens[0]).Some? {
      WalkSameKids(m, m', p + [FindKid(m[p].kids, tokens[0]).value], tokens[1..]);
    }
  }

  ghost predicate Answers(t: Tree, expr: string, data: RouteData)
    requires Shape(t.nodes)
  {
    exists h :: h in GetTopicRoutes(t, expr) && h.data == data
  }

  /** The new pointer is listed at the topic it was added under and nowhere else. */
  lemma NewPointerElsewhere(t: Tree, expr: string, data: RouteData, errOnDup: bool)
    requires Inv(t) && FindRoute(t.routeList, data).None? && Tokenize(expr) != []
    ensures var (t', code) := AddTopicRoute(t, expr, data, errOnDup);
            var w := WalkCreate(t.nodes, [], Tokenize(expr));
            forall q, g :: Assigned(t'.nodes, q, g) && g.data == data ==> code == Ok && q == w.path
  {
    var tokens := Tokenize(expr);
    var (t', code) := AddTopicRoute(t, expr, data, errOnDup);
    var w := WalkCreate(t.nodes, [], tokens);
    AddResult(t, expr, data, errOnDup);
    NotInGrown(t, expr, data);
    forall q, g | Assigned(t'.nodes, q, g) && g.data == data ensures code == Ok && q == w.path {
      assert !Assigned(w.nodes, q, g);
      AssignedAfter(w.nodes, w.path, EnsureRoute(t, data).1, q, g);
    }
  }

  lemma AssignedAfter(m: Topics, p: Path, h: RouteRef, q: Path, g: RouteRef)
    requires p in m
    ensures Assigned(AssignRoute(m, p, h), q, g) <==> Assigned(m, q, g) || (q == p && g == h)
  {}

  lemma NotInGrown(t: Tree, expr: string, data: RouteData)
    requires Inv(t) && FindRoute(t.routeList, data).None?
    ensures var m := WalkCreate(t.nodes, [], Tokenize(expr)).nodes;
            forall q, g :: Assigned(m, q, g) ==> g.data != data
  {
    var m := WalkCreate(t.nodes, [], Tokenize(expr)).nodes;
    TokenizePlain(expr);
    WalkCreateGrows(t.nodes, [], Tokenize(expr), t.next);
    forall q, g | Assigned(m, q, g) ensures g.data != data {
      assert Assigned(t.nodes, q, g);
      RoutesAreLive(t, q, g);
    }
  }

  lemma AddedIsFound(t: Tree, expr: string, data: RouteData, errOnDup: bool)
    requires Inv(t) && FindRoute(t.routeList, data).None? && Tokenize(expr) != []
    requires AddTopicRoute(t, expr, data, errOnDup).1 == Ok
    ensures var t' := AddTopicRoute(t, expr, data, errOnDup).0;
            var p := WalkCreate(t.nodes, [], Tokenize(expr)).path;
            && Shape(t'.nodes) && Locate(t'.nodes, expr) == Some(p)
            && RouteRef(data, t.next) in t'.nodes[p].routes
  {
    var tokens := Tokenize(expr);
    var w := WalkCreate(t.nodes, [], tokens);
    AddResult(t, expr, data, errOnDup);
    WalkFindsCreated(t.nodes, [], tokens);
    WalkAssigned(w.nodes, w.path, RouteRef(data, t.next), tokens);
  }

  lemma WalkAssigned(m: Topics, p: Path, h: RouteRef, tokens: seq<string>)
    requires Shape(m) && p in m
    ensures var m' := AssignRoute(m, p, h);
            Shape(m') && Walk(m', [], tokens) == Walk(m, [], tokens) && h in m'[p].routes
  {
    AssignShape(m, p, h);
    WalkSameKids(m, AssignRoute(m, p, h), [], tokens);
  }

  lemma {:induction false} CreatedIsNew(m: Topics, p: Path, tokens: seq<string>)
    requires Shape(m) && p in m
    ensures var w := WalkCreate(m, p, tokens); w.created ==> w.nodes[w.path] == NEW_NODE
    decreases |tokens|
  {
    if tokens == [] {
    } else {
      EnsureKidShape(m, p, tokens[0]);
      var w := EnsureKid(m, p, tokens[0]);
      if |tokens| > 1 { CreatedIsNew(w.nodes, w.path, tokens[1..]); }
    }
  }

  /** Whether the topic an Add ends at is a table can be seen before. */
  lemma TableBefore(t: Tree, expr: string)
    requires Shape(t.nodes) && Tokenize(expr) != []
    ensures var w := WalkCreate(t.nodes, [], Tokenize(expr));
            var l := Locate(t.nodes, expr);
            w.nodes[w.path].isTable <==> l.Some? && t.nodes[l.value].isTable
  {
    WalkCreateFollowsWalk(t.nodes, [], Tokenize(expr));
    CreatedIsNew(t.nodes, [], Tokenize(expr));
  }

  /** An expression for a topic that is not there yet or is not a table. */
  ghost predicate NoTable(t: Tree, expr: string)
    requires Shape(t.nodes)
  {
    Locate(t.nodes, expr).None? || !t.nodes[Locate(t.nodes, expr).value].isTable
  }

  /** A caller pointer the tree does not know will be answered for the expression it is
      added under just when the Add is not refused and the topic is not a table, whose own
      routes are not looked at. */
  lemma AddedIsAnsweredIff(t: Tree, expr: string, data: RouteData, errOnDup: bool)
    requires Inv(t) && FindRoute(t.routeList, data).None? && Tokenize(expr) != [] && !EndsInDot(expr)
    ensures var t' := AddTopicRoute(t, expr, data, errOnDup).0;
            Shape(t'.nodes) && (Answers(t', expr, data) <==> !Refused(t, expr, errOnDup) && NoTable(t, expr))
  {
    AddKeepsInvIff(t, expr, data, errOnDup);
    NewPointerElsewhere(t, expr, data, errOnDup);
    RefusedIff(t, expr, data, errOnDup);
    var t' := AddTopicRoute(t, expr, data, errOnDup).0;
    if Refused(t, expr, errOnDup) {
      NotAnswered(t', expr, data);
    } else {
      AddedIsFound(t, expr, data, errOnDup);
      AddResult(t, expr, data, errOnDup);
      TableBefore(t, expr);
      AnsweredIffListed(t', expr, data, Locate(t'.nodes, expr).value, RouteRef(data, t.next));
    }
  }

  lemma NotAnswered(t: Tree, expr: string, data: RouteData)
    requires Shape(t.nodes) && !EndsInDot(expr)
    requires forall q, g :: Assigned(t.nodes, q, g) ==> g.data != data
    ensures !Answers(t, expr, data)
  {
    if Locate(t.nodes, expr).Some? {
      var p := Locate(t.nodes, expr).value;
      var k := FindKid(t.nodes[p].kids, "{i}");
      forall g | g in GetTopicRoutes(t, expr) ensures g.data != data {
        assert Assigned(t.nodes, p, g) || (k.Some? && Assigned(t.nodes, p + [k.value], g));
      }
    }
  }

  lemma AnsweredIffListed(t: Tree, expr: string, data: RouteData, p: Path, h: RouteRef)
    requires Shape(t.nodes) && !EndsInDot(expr) && Locate(t.nodes, expr) == Some(p)
    requires h.data == data && h in t.nodes[p].routes
    requires forall q, g :: Assigned(t.nodes, q, g) && g.data == data ==> q == p
    ensures Answers(t, expr, data) <==> !t.nodes[p].isTable
  {
    if t.nodes[p].isTable {
      forall g | g in GetTopicRoutes(t, expr) ensures g.data != data {
        var k := FindKid(t.nodes[p].kids, "{i}").value;
        assert Assigned(t.nodes, p + [k], g) && p + [k] != p;
      }
    } else {
      assert h in GetTopicRoutes(t, expr);
    }
  }

  // ------------------------------------------------------------ emptied topics

  lemma {:induction false} FindKidAlive(m: Topics, p: Path, kids: seq<string>, h: RouteRef, name: string)
    requires FindKid(kids, name).Some? && Alive(m, p + [FindKid(kids, name).value], h)
    ensures FindKid(AliveKids(m, p, kids, h), name) == FindKid(kids, name)
  {
    if !Matches(kids[0], name) {
      FindKidAlive(m, p, kids[1..], h, name);
    }
  }

  /** A walk that ends at a topic that stays goes there in the pruned tree as well. */
  lemma {:induction false} PruneKeepsWalk(m: Topics, p: Path, tokens: seq<string>, h: RouteRef)
    requires Shape(m) && Shape(Prune(m, [], h)) && p in m && p in Prune(m, [], h)
    requires Walk(m, p, tokens).Some? && Walk(m, p, tokens).value in Prune(m, [], h)
    ensures Walk(Prune(m, [], h), p, tokens) == Walk(m, p, tokens)
    decreases |tokens|
  {
    if tokens == [] {
    } else {
      var k := FindKid(m[p].kids, tokens[0]).value;
      PrefixesPresent(Prune(m, [], h), Walk(m, p, tokens).value, p + [k]);
      PruneAt(m, h, p);
      PruneAt(m, h, p + [k]);
      FindKidAlive(m, p, m[p].kids, h, tokens[0]);
      PruneKeepsWalk(m, p + [k], tokens[1..], h);
    }
  }

  /** A topic that loses its only route but stays for the routes below it. */
  lemma EmptiedTopic(t: Tree, expr: string, p: Path, data: RouteData, h: RouteRef)
    requires Inv(t) && Locate(t.nodes, expr) == Some(p)
    requires FindRoute(t.routeList, data) == Some(h) && t.nodes[p].routes == [h] && NeededWithout(t.nodes, p, h)
    ensures var m := RemoveRoute(t, data).nodes;
            && Shape(m) && Locate(m, expr) == Some(p)
            && m[p].routes == [] && m[p].listed && m[p].isTable == t.nodes[p].isTable
  {
    RemoveRouteKeeps(t, data);
    RemoveRouteKeepsNeeded(t, data);
    assert PrunedRight(t.nodes, RemoveRoute(t, data).nodes, p, h);
    assert Except([h], h) == [];
    PruneKeepsWalk(t.nodes, [], Tokenize(expr), h);
    assert NodeOk(t.nodes[p], t.next);
  }

  /** The check looks at the list, not into it: when a topic loses its only route but stays
      for the routes below it, a lookup finds nobody there, and yet a new registration
      that asks for an error on duplicates is refused. */
  lemma EmptiedTopicRefuses(t: Tree, expr: string, p: Path, data: RouteData, h: RouteRef, other: RouteData)
    requires Inv(t) && Locate(t.nodes, expr) == Some(p) && expr != ADVISORY && !EndsInDot(expr) && !t.nodes[p].isTable
    requires FindRoute(t.routeList, data) == Some(h) && t.nodes[p].routes == [h] && NeededWithout(t.nodes, p, h)
    ensures var t' := RemoveRoute(t, data);
            && Shape(t'.nodes) && GetTopicRoutes(t', expr) == []
            && AddTopicRoute(t', expr, other, true).1 == Duplicate
  {
    EmptiedTopic(t, expr, p, data, h);
    RefusedIff(RemoveRoute(t, data), expr, other, true);
  }
}
