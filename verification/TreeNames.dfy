/** The order of a topic's children, and what it means for the scan of getChildByName. */
module TreeNames {
  import opened Sequences
  import opened TopicTree
  import opened TreeInvariant
  import opened TreeQueries

  /** No placeholder stands before a name like a row id. */
  predicate RowsLead(kids: seq<string>) {
    forall i, j :: 0 <= i < j < |kids| && InstanceToken(kids[j]) ==> !Curly(kids[i])
  }

  ghost predicate RowsFirst(m: Topics) { forall p {:trigger m[p].kids} :: p in m ==> RowsLead(m[p].kids) }

  function Placeholders(kids: seq<string>): (r: seq<string>)
    ensures forall k :: k in r <==> k in kids && Curly(k)
  {
    if kids == [] then []
    else if Curly(kids[0]) then [kids[0]] + Placeholders(kids[1..])
    else Placeholders(kids[1..])
  }

  /** Where the row ids stand first, a token finds the child of its own name, and only if
      there is none does a row id, alias or wildcard find the first placeholder. */
  lemma {:induction false} FoundByName(kids: seq<string>, name: string)
    requires RowsLead(kids)
    ensures FindKid(kids, name) ==
              if name in kids then Some(name)
              else if InstanceToken(name) && Placeholders(kids) != [] then Some(Placeholders(kids)[0]) else None
  {
    if kids == [] {
    } else {
      RowsLeadTail(kids);
      FoundByName(kids[1..], name);
    }
  }

  lemma RowsLeadTail(kids: seq<string>)
    requires RowsLead(kids) && kids != []
    ensures RowsLead(kids[1..])
    ensures Curly(kids[0]) ==> forall k :: k in kids[1..] ==> !InstanceToken(k)
  {}

  // ------------------------------------------------------------------- adding

  lemma EnsureKidRows(m: Topics, p: Path, name: string)
    requires RowsFirst(m) && p in m
    ensures RowsFirst(EnsureKid(m, p, name).nodes)
  {
    if FindKid(m[p].kids, name).None? {
      var m' := CreateKid(m, p, name);
      assert p != p + [name];
      forall q | q in m' ensures RowsLead(m'[q].kids) {
        if q == p {
          NameLast(m[p].kids, name);
        } else if q in m && q != p + [name] {
          assert m'[q].kids == m[q].kids;
        }
      }
    }
  }

  lemma NameLast(kids: seq<string>, name: string)
    requires RowsLead(kids) && FindKid(kids, name).None?
    ensures RowsLead(kids + [name])
  {
    forall k | k in kids && Curly(k) ensures !InstanceToken(name) { assert !Matches(k, name); }
  }

  lemma {:induction false} WalkCreateRows(m: Topics, p: Path, tokens: seq<string>)
    requires Shape(m) && RowsFirst(m) && p in m
    ensures RowsFirst(WalkCreate(m, p, tokens).nodes)
    decreases |tokens|
  {
    if tokens == [] {
    } else {
      EnsureKidShape(m, p, tokens[0]);
      EnsureKidRows(m, p, tokens[0]);
      var w := EnsureKid(m, p, tokens[0]);
      if |tokens| > 1 { WalkCreateRows(w.nodes, w.path, tokens[1..]); }
    }
  }

  lemma AssignRows(m: Topics, p: Path, h: RouteRef)
    requires RowsFirst(m) && p in m
    ensures RowsFirst(AssignRoute(m, p, h))
  {
    var m' := AssignRoute(m, p, h);
    forall q | q in m' ensures RowsLead(m'[q].kids) { assert m'[q].kids == m[q].kids; }
  }

  lemma AddRows(t: Tree, expr: string, data: RouteData, errOnDup: bool)
    requires Shape(t.nodes) && RowsFirst(t.nodes)
    ensures RowsFirst(AddTopicRoute(t, expr, data, errOnDup).0.nodes)
  {
    if Tokenize(expr) != [] {
      var w := WalkCreate(t.nodes, [], Tokenize(expr));
      WalkCreateRows(t.nodes, [], Tokenize(expr));
      AddResult(t, expr, data, errOnDup);
      AssignRows(w.nodes, w.path, EnsureRoute(t, data).1);
    }
  }

  // ----------------------------------------------------------------- removing

  /** The children that are still topics, in their old order. */
  function Staying(kids: seq<string>, p: Path, keep: set<Path>): (r: seq<string>)
    ensures forall k :: k in r <==> k in kids && p + [k] in keep
  {
    if kids == [] then []
    else if p + [kids[0]] in keep then [kids[0]] + Staying(kids[1..], p, keep)
    else Staying(kids[1..], p, keep)
  }

  lemma {:induction false} StayingLead(kids: seq<string>, p: Path, keep: set<Path>)
    requires RowsLead(kids)
    ensures RowsLead(Staying(kids, p, keep))
  {
    if kids == [] {
    } else {
      RowsLeadTail(kids);
      StayingLead(kids[1..], p, keep);
    }
  }

  lemma {:induction false} PlaceholdersStay(kids: seq<string>, p: Path, keep: set<Path>)
    ensures Placeholders(Staying(kids, p, keep)) == Staying(Placeholders(kids), p, keep)
  {
    if kids == [] {
    } else {
      PlaceholdersStay(kids[1..], p, keep);
      var rest := Staying(kids[1..], p, keep);
      assert ([kids[0]] + rest)[1..] == rest;
      var places := Placeholders(kids[1..]);
      assert ([kids[0]] + places)[1..] == places;
    }
  }

  lemma {:induction false} AliveKidsStay(m: Topics, p: Path, kids: seq<string>, h: RouteRef, keep: set<Path>)
    requires forall k :: k in kids ==> (p + [k] in keep <==> Alive(m, p + [k], h))
    ensures AliveKids(m, p, kids, h) == Staying(kids, p, keep)
  {
    if kids == [] {
    } else {
      assert kids[0] in kids && forall k :: k in kids[1..] ==> k in kids;
      AliveKidsStay(m, p, kids[1..], h, keep);
    }
  }

  lemma {:induction false} ExceptStays(kids: seq<string>, name: string, p: Path, keep: set<Path>)
    requires forall k :: k in kids ==> (p + [k] in keep <==> k != name)
    ensures Except(kids, name) == Staying(kids, p, keep)
  {
    if kids == [] {
    } else {
      assert kids[0] in kids && forall k :: k in kids[1..] ==> k in kids;
      ExceptStays(kids[1..], name, p, keep);
    }
  }

  lemma {:induction false} AllStay(kids: seq<string>, p: Path, keep: set<Path>)
    requires forall k :: k in kids ==> p + [k] in keep
    ensures Staying(kids, p, keep) == kids
  {
    if kids == [] {
    } else {
      assert kids[0] in kids && forall k :: k in kids[1..] ==> k in kids;
      AllStay(kids[1..], p, keep);
    }
  }

  /** Topics went and the others kept their children, but for the topics that went. */
  ghost predicate KidsStay(m: Topics, m': Topics) {
    forall p {:trigger m'[p].kids} :: p in m' ==> p in m && m'[p].kids == Staying(m[p].kids, p, m'.Keys)
  }

  lemma KidsStayRows(m: Topics, m': Topics)
    requires KidsStay(m, m') && RowsFirst(m)
    ensures RowsFirst(m')
  {
    forall p | p in m' ensures RowsLead(m'[p].kids) {
      assert m'[p].kids == Staying(m[p].kids, p, m'.Keys);
      assert RowsLead(m[p].kids);
      StayingLead(m[p].kids, p, m'.Keys);
    }
  }

  lemma PruneKidsStay(m: Topics, h: RouteRef)
    requires Shape(m)
    ensures KidsStay(m, Prune(m, [], h))
  {
    var m' := Prune(m, [], h);
    forall p | p in m' ensures p in m && m'[p].kids == Staying(m[p].kids, p, m'.Keys) {
      PruneAt(m, h, p);
      forall k | k in m[p].kids ensures p + [k] in m'.Keys <==> Alive(m, p + [k], h) { PruneAt(m, h, p + [k]); }
      AliveKidsStay(m, p, m[p].kids, h, m'.Keys);
    }
  }

  lemma CutKidsStay(t: Tree, p: Path, name: string)
    requires Shape(t.nodes) && p in t.nodes && name in t.nodes[p].kids
    ensures KidsStay(t.nodes, Cut(t, p, name).nodes)
  {
    var m, m' := t.nodes, Cut(t, p, name).nodes;
    forall x | x in m' ensures x in m && m'[x].kids == Staying(m[x].kids, x, m'.Keys) {
      forall k | k in m[x].kids ensures x + [k] in m'.Keys <==> !(x == p && k == name) {
        assert x + [k] in m;
        BelowStep(x, k, p, name);
      }
      if x == p {
        assert NoDup(m[p].kids);
        RemoveFirstIsExcept(m[p].kids, name);
        ExceptStays(m[p].kids, name, p, m'.Keys);
      } else {
        AllStay(m[x].kids, x, m'.Keys);
      }
    }
  }

  lemma RemoveTopicRows(t: Tree, expr: string)
    requires Shape(t.nodes) && RowsFirst(t.nodes)
    ensures RowsFirst(RemoveTopic(t, expr).nodes)
  {
    match CutPoint(t, expr)
    case None =>
    case Some(p) =>
      CutKidsStay(t, p, Last(Tokenize(expr)));
      KidsStayRows(t.nodes, RemoveTopic(t, expr).nodes);
  }

  lemma RemoveRouteRows(t: Tree, data: RouteData)
    requires Shape(t.nodes) && RowsFirst(t.nodes)
    ensures RowsFirst(RemoveRoute(t, data).nodes)
  {
    match FindRoute(t.routeList, data)
    case None =>
    case Some(h) =>
      PruneKidsStay(t.nodes, h);
      KidsStayRows(t.nodes, Prune(t.nodes, [], h));
  }

  // --------------------------------------------------------------------- runs

  lemma StepKeepsRows(t: Tree, op: Op)
    requires Shape(t.nodes) && RowsFirst(t.nodes)
    ensures RowsFirst(Step(t, op).nodes)
  {
    match op
    case Add(expr, data, errOnDup) => AddRows(t, expr, data, errOnDup);
    case DropRoute(data) => RemoveRouteRows(t, data);
    case DropTopic(expr) => RemoveTopicRows(t, expr);
  }

  lemma {:induction false} RunKeepsRows(t: Tree, ops: seq<Op>, t': Tree)
    requires Inv(t) && RowsFirst(t.nodes) && Runs(t, ops, t')
    ensures RowsFirst(t'.nodes)
    decreases |ops|
  {
    if ops == [] {
    } else {
      StepKeepsInv(t, ops[0]);
      StepKeepsRows(t, ops[0]);
      RunKeepsRows(Step(t, ops[0]), ops[1..], t');
    }
  }

  /** The code makes a child for a row id only where it finds no placeholder. So in every tree
      it builds the row ids stand first, and a token finds the child of its own name whenever
      there is one. */
  lemma ReachableFindsByName(ops: seq<Op>, t: Tree, p: Path, name: string)
    requires Runs(EMPTY_TREE, ops, t) && p in t.nodes
    ensures RowsFirst(t.nodes)
    ensures var kids := t.nodes[p].kids;
            FindKid(kids, name) ==
              if name in kids then Some(name)
              else if InstanceToken(name) && Placeholders(kids) != [] then Some(Placeholders(kids)[0]) else None
  {
    EmptyTreeInv();
    RunKeepsRows(EMPTY_TREE, ops, t);
    FoundByName(t.nodes[p].kids, name);
  }
}
