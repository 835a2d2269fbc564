/** The routing tree against a flat picture of it: names, marks, and a map from names to the
    routes registered there. No nodes, no links, no index. */
module TreeRefinement {
  import opened Sequences
  import opened Text
  import opened TopicTree
  import opened TreeInvariant
  import opened TreeQueries
  import opened TreeNames

  /** For every path with routes, the caller pointers in registration order. */
  type FlatMap = map<Path, seq<RouteData>>

  /** The topics that exist, each with the placeholders below it in registration order. */
  type Names = map<Path, seq<string>>

  /** The names, those that are tables, those that have had a route list made for them, and
      the caller pointers that have a record. */
  datatype Flat = Flat(at: FlatMap, names: Names, tables: set<Path>, listed: set<Path>, known: set<RouteData>)

  const EMPTY_FLAT := Flat(map[], map[[] := []], {}, {}, {})

  function FlatAt(f: FlatMap, p: Path): seq<RouteData> { if p in f then f[p] else [] }

  // ------------------------------------------------------------------------ names

  function PlacesAt(names: Names, p: Path): seq<string> { if p in names then names[p] else [] }

  /** A token leads to its own name, or else a row id, alias or wildcard to the first
      placeholder. */
  function NameFor(names: Names, p: Path, token: string): Option<string> {
    if p + [token] in names then Some(token)
    else if InstanceToken(token) && PlacesAt(names, p) != [] then Some(PlacesAt(names, p)[0])
    else None
  }

  function Seek(names: Names, p: Path, tokens: seq<string>): Option<Path>
    decreases |tokens|
  {
    if tokens == [] then Some(p)
    else match NameFor(names, p, tokens[0])
      case None => None
      case Some(k) => Seek(names, p + [k], tokens[1..])
  }

  function NameMade(names: Names, p: Path, token: string): string {
    match NameFor(names, p, token)
    case None => token
    case Some(k) => k
  }

  /** Where an Add goes: a token that leads nowhere makes a topic of its name. */
  function Resolve(names: Names, p: Path, tokens: seq<string>): (r: Path)
    ensures AtOrBelow(r, p) && |r| == |p| + |tokens|
    decreases |tokens|
  {
    if tokens == [] then p else Resolve(names, p + [NameMade(names, p, tokens[0])], tokens[1..])
  }

  /** A topic that is there is where an Add goes. */
  lemma {:induction false} ResolveFound(names: Names, p: Path, tokens: seq<string>)
    requires Seek(names, p, tokens).Some?
    ensures Seek(names, p, tokens) == Some(Resolve(names, p, tokens))
    decreases |tokens|
  {
    if tokens == [] {
    } else {
      ResolveFound(names, p + [NameMade(names, p, tokens[0])], tokens[1..]);
    }
  }

  /** The scan of the children is a look at the names. */
  lemma FindKidIsName(m: Topics, p: Path, name: string)
    requires Shape(m) && RowsFirst(m) && p in m
    ensures FindKid(m[p].kids, name) == NameFor(NamesOf(m), p, name)
  {
    KidListed(m, p, name);
    FoundByName(m[p].kids, name);
  }

  lemma {:induction false} WalkIsSeek(m: Topics, p: Path, tokens: seq<string>)
    requires Shape(m) && RowsFirst(m) && p in m
    ensures Walk(m, p, tokens) == Seek(NamesOf(m), p, tokens)
    decreases |tokens|
  {
    if tokens == [] {
    } else {
      FindKidIsName(m, p, tokens[0]);
      if FindKid(m[p].kids, tokens[0]).Some? {
        WalkIsSeek(m, p + [FindKid(m[p].kids, tokens[0]).value], tokens[1..]);
      }
    }
  }

  // ------------------------------------------------------------- the flat operations

  /** A path with the paths above it, the root's included. */
  function Prefixes(p: Path): (r: set<Path>)
    ensures forall q :: q in r <==> AtOrBelow(p, q)
  {
    var r := set i | 0 <= i <= |p| :: p[..i];
    assert forall q :: AtOrBelow(p, q) ==> q == p[..|q|];
    r
  }

  /** The topics on the way to `p` that a placeholder token makes tables. */
  predicate TableOn(p: Path, q: Path) { Below(p, q) && Curly(p[|q|]) }

  function TablesOn(p: Path): (r: set<Path>)
    ensures forall q :: q in r <==> TableOn(p, q)
  {
    set q | q in Prefixes(p) && TableOn(p, q)
  }

  function FlatLocate(f: Flat, expr: string): Option<Path> {
    if Tokenize(expr) == [] then None else Seek(f.names, [], Tokenize(expr))
  }

  predicate FlatRefused(f: Flat, expr: string, errOnDup: bool) {
    var l := FlatLocate(f, expr);
    errOnDup && expr != ADVISORY && l.Some? && l.value in f.listed
  }

  /** The placeholders below `q` once the path `p` has been made. */
  function PlacesMade(names: Names, p: Path, q: Path): seq<string> {
    if TableOn(p, q) then AddOnce(PlacesAt(names, q), p[|q|]) else PlacesAt(names, q)
  }

  function Widen(names: Names, p: Path): Names { map q | q in names.Keys + Prefixes(p) :: PlacesMade(names, p, q) }

  function FlatAdd(f: Flat, expr: string, data: RouteData, errOnDup: bool): (Flat, Code) {
    var p, known := Resolve(f.names, [], Tokenize(expr)), f.known + {data};
    if Tokenize(expr) == [] then (f, Ok)
    else if FlatRefused(f, expr, errOnDup) then (f.(known := known), Duplicate)
    else (Flat(f.at[p := FlatAt(f.at, p) + [data]], Widen(f.names, p), f.tables + TablesOn(p),
               f.listed + {p}, known), Ok)
  }

  predicate NeededIn(at: FlatMap, p: Path) { exists q :: q in at && AtOrBelow(q, p) }

  /** The map without one pointer. */
  function Losing(at: FlatMap, data: RouteData): FlatMap {
    map p | p in at && Except(at[p], data) != [] :: Except(at[p], data)
  }

  /** The names that are kept, with the placeholders that are. */
  function Keeping(names: Names, keep: set<Path>): Names {
    map p | p in names && p in keep :: Staying(names[p], p, keep)
  }

  function StillNeeded(names: Names, at: FlatMap): set<Path> { set p | p in names && (p == [] || NeededIn(at, p)) }

  function FlatDropRoute(f: Flat, data: RouteData): Flat {
    if data !in f.known then f
    else
      var at := Losing(f.at, data);
      var keep := StillNeeded(f.names, at);
      Flat(at, Keeping(f.names, keep), f.tables * keep, f.listed * keep, f.known - {data})
  }

  predicate Placed(at: FlatMap, data: RouteData) { exists p :: p in at && data in at[p] }

  function AtOutside(at: FlatMap, q: Path): FlatMap { map p | p in at && !AtOrBelow(p, q) :: at[p] }

  function NamesOutside(names: Names, q: Path): set<Path> { set p | p in names && !AtOrBelow(p, q) }

  /** A pointer is forgotten with the last of its topics, but one without any stays. */
  function StillKnown(known: set<RouteData>, at: FlatMap, at': FlatMap): set<RouteData> {
    set d | d in known && (Placed(at, d) ==> Placed(at', d))
  }

  function FlatCut(f: Flat, q: Path): Flat {
    var at, keep := AtOutside(f.at, q), NamesOutside(f.names, q);
    Flat(at, Keeping(f.names, keep), f.tables * keep, f.listed * keep, StillKnown(f.known, f.at, at))
  }

  /** The topic an expression takes away: its last token has to be the name itself. */
  function FlatCutPoint(f: Flat, expr: string): Option<Path> {
    var tokens := Tokenize(expr);
    if tokens == [] then None
    else match Seek(f.names, [], Parent(tokens))
      case None => None
      case Some(p) => if p + [Last(tokens)] in f.names then Some(p + [Last(tokens)]) else None
  }

  function FlatDropTopic(f: Flat, expr: string): Flat {
    match FlatCutPoint(f, expr)
    case None => f
    case Some(q) => FlatCut(f, q)
  }

  function FlatStep(f: Flat, op: Op): Flat {
    match op
    case Add(expr, data, errOnDup) => FlatAdd(f, expr, data, errOnDup).0
    case DropRoute(data) => FlatDropRoute(f, data)
    case DropTopic(expr) => FlatDropTopic(f, expr)
  }

  /** A table answers for its "{i}" row. */
  function Lookup(f: Flat, expr: string): seq<RouteData> {
    match FlatLocate(f, expr)
    case None => []
    case Some(p) => FlatAt(f.at, if p in f.tables then p + ["{i}"] else p)
  }

  // ------------------------------------------------------------- the tree seen flat

  function Routed(m: Topics): FlatMap { map p | p in m && m[p].routes != [] :: Datas(m[p].routes) }

  function NamesOf(m: Topics): Names { map p | p in m :: Placeholders(m[p].kids) }

  function Tables(m: Topics): set<Path> { set p | p in m && m[p].isTable }

  function Lists(m: Topics): set<Path> { set p | p in m && m[p].listed }

  function Known(list: seq<RouteRef>): set<RouteData> { set h | h in list :: h.data }

  function FlatOf(t: Tree): Flat {
    Flat(Routed(t.nodes), NamesOf(t.nodes), Tables(t.nodes), Lists(t.nodes), Known(t.routeList))
  }

  lemma EmptyIsFlat()
    ensures FlatOf(EMPTY_TREE) == EMPTY_FLAT
  {}

  // -------------------------------------------------------------------- adding

  function Held(m: Topics, q: Path): seq<string> { if q in m then Placeholders(m[q].kids) else [] }

  /** The topic at `q` before and after the path `p` is made. */
  ghost predicate Made(m: Topics, m': Topics, p: Path, q: Path) {
    && (q in m' <==> q in m || AtOrBelow(p, q))
    && (q in m' ==> (m'[q].isTable <==> (q in m && m[q].isTable) || TableOn(p, q)))
    && Held(m', q) == if TableOn(p, q) then AddOnce(Held(m, q), p[|q|]) else Held(m, q)
  }

  ghost predicate Widened(m: Topics, m': Topics, p: Path) { forall q :: Made(m, m', p, q) }

  /** The topic at `q` before and after kid `name` of `p` is made sure of. */
  ghost predicate KidMade(m: Topics, m': Topics, p: Path, name: string, q: Path) {
    && (q in m' <==> q in m || q == p + [name])
    && (q in m' ==> (m'[q].isTable <==> (q in m && m[q].isTable) || (q == p && Curly(name))))
    && Held(m', q) == if q == p && Curly(name) then AddOnce(Held(m, q), name) else Held(m, q)
  }

  lemma KidThere(m: Topics, p: Path, name: string, next: nat, q: Path)
    requires Shape(m) && NodesOk(m, next) && p in m && p + [name] in m
    ensures KidMade(m, m, p, name, q)
  {
    KidListed(m, p, name);
    assert NodeOk(m[p], next);
  }

  lemma {:induction false} PlaceholdersSnoc(kids: seq<string>, name: string)
    ensures Placeholders(kids + [name]) == if Curly(name) then Placeholders(kids) + [name] else Placeholders(kids)
  {
    if kids == [] {
    } else {
      assert (kids + [name])[1..] == kids[1..] + [name];
      PlaceholdersSnoc(kids[1..], name);
    }
  }

  lemma KidNew(m: Topics, p: Path, name: string, q: Path)
    requires Shape(m) && p in m && p + [name] !in m
    ensures KidMade(m, CreateKid(m, p, name), p, name, q)
  {
    assert p != p + [name];
    assert name !in m[p].kids;
    PlaceholdersSnoc(m[p].kids, name);
  }

  lemma EnsureKidAt(m: Topics, p: Path, token: string, next: nat, q: Path)
    requires Shape(m) && NodesOk(m, next) && RowsFirst(m) && p in m
    ensures var w, k := EnsureKid(m, p, token), NameMade(NamesOf(m), p, token);
            w.path == p + [k] && KidMade(m, w.nodes, p, k, q)
  {
    var k := NameMade(NamesOf(m), p, token);
    FindKidIsName(m, p, token);
    if FindKid(m[p].kids, token).Some? { KidThere(m, p, k, next, q); } else { KidNew(m, p, k, q); }
  }

  lemma KidWidens(m: Topics, m': Topics, p: Path, name: string, next: nat, q: Path)
    requires Shape(m) && NodesOk(m, next) && p in m && KidMade(m, m', p, name, q)
    ensures Made(m, m', p + [name], q)
  {
    var c := p + [name];
    AboveName(p, name, q);
    if AtOrBelow(p, q) {
      AboveInTree(m, next, p, q);
      assert q == p || c[|q|] == p[|q|];
    }
  }

  lemma EnsureKidWidens(m: Topics, p: Path, token: string, next: nat)
    requires Shape(m) && NodesOk(m, next) && RowsFirst(m) && p in m
    ensures var w := EnsureKid(m, p, token);
            w.path == p + [NameMade(NamesOf(m), p, token)] && Widened(m, w.nodes, w.path)
  {
    var k, m' := NameMade(NamesOf(m), p, token), EnsureKid(m, p, token).nodes;
    EnsureKidAt(m, p, token, next, p);
    forall q ensures Made(m, m', p + [k], q) {
      EnsureKidAt(m, p, token, next, q);
      KidWidens(m, m', p, k, next, q);
    }
  }

  lemma AboveName(p: Path, name: string, q: Path)
    ensures AtOrBelow(p + [name], q) <==> q == p + [name] || AtOrBelow(p, q)
  {
    var c := p + [name];
    assert c[..|p|] == p;
    if |q| <= |p| { assert c[..|q|] == p[..|q|]; } else if |q| == |c| { assert c[..|q|] == c; }
  }

  /** The paths above a topic are topics, and tables with their placeholder where one goes on. */
  lemma AboveInTree(m: Topics, next: nat, p: Path, q: Path)
    requires Shape(m) && NodesOk(m, next) && p in m && AtOrBelow(p, q)
    ensures q in m && (TableOn(p, q) ==> m[q].isTable && p[|q|] in Held(m, q))
  {
    PrefixesPresent(m, p, q);
    if Below(p, q) {
      TakeNext(p, |q|);
      PrefixesPresent(m, p, q + [p[|q|]]);
      KidListed(m, q, p[|q|]);
      assert NodeOk(m[q], next);
    }
  }

  lemma MadeTwice(m: Topics, m1: Topics, m2: Topics, c: Path, p: Path, q: Path)
    requires Made(m, m1, c, q) && Made(m1, m2, p, q) && AtOrBelow(p, c)
    ensures Made(m, m2, p, q)
  {
    if AtOrBelow(c, q) { assert p[..|c|][..|q|] == p[..|q|]; }
    if TableOn(c, q) { assert c[|q|] == p[..|c|][|q|] == p[|q|]; }
  }

  lemma WidenedTwice(m: Topics, m1: Topics, m2: Topics, c: Path, p: Path)
    requires Widened(m, m1, c) && Widened(m1, m2, p) && AtOrBelow(p, c)
    ensures Widened(m, m2, p)
  {
    forall q ensures Made(m, m2, p, q) { MadeTwice(m, m1, m2, c, p, q); }
  }

  /** Two pictures that agree on what is below `p` resolve alike from there. */
  ghost predicate SameBelow(a: Names, b: Names, p: Path) {
    forall q {:trigger PlacesAt(a, q)} {:trigger q in a} {:trigger q in b} ::
      AtOrBelow(q, p) ==> PlacesAt(a, q) == PlacesAt(b, q) && (q != p ==> (q in a <==> q in b))
  }

  lemma {:induction false} ResolveSame(a: Names, b: Names, p: Path, tokens: seq<string>)
    requires SameBelow(a, b, p)
    ensures Resolve(a, p, tokens) == Resolve(b, p, tokens)
    decreases |tokens|
  {
    if tokens == [] {
    } else {
      var c := p + [NameMade(a, p, tokens[0])];
      assert AtOrBelow(p, p) && AtOrBelow(p + [tokens[0]], p);
      assert PlacesAt(a, p) == PlacesAt(b, p);
      forall q | AtOrBelow(q, c) ensures AtOrBelow(q, p) { assert q[..|c|][..|p|] == q[..|p|]; }
      ResolveSame(a, b, c, tokens[1..]);
    }
  }

  lemma WidenedSameBelow(m: Topics, m': Topics, c: Path)
    requires Widened(m, m', c)
    ensures SameBelow(NamesOf(m'), NamesOf(m), c)
  {
    forall q | AtOrBelow(q, c)
      ensures Held(m', q) == Held(m, q) && (q != c ==> (q in m' <==> q in m))
    {
      assert Made(m, m', c, q);
      assert AtOrBelow(c, q) ==> q == c by { if AtOrBelow(c, q) { assert c[..|q|] == c && q[..|c|] == q; } }
    }
  }

  lemma {:induction false} WalkCreateWidens(m: Topics, p: Path, tokens: seq<string>, next: nat)
    requires Shape(m) && NodesOk(m, next) && RowsFirst(m) && p in m && tokens != [] && Plain(tokens, '.')
    ensures var w := WalkCreate(m, p, tokens);
            w.path == Resolve(NamesOf(m), p, tokens) && Widened(m, w.nodes, w.path)
    decreases |tokens|
  {
    EnsureKidWidens(m, p, tokens[0], next);
    EnsureKidShape(m, p, tokens[0]);
    EnsureKidGrows(m, p, tokens[0], next);
    EnsureKidRows(m, p, tokens[0]);
    var w := EnsureKid(m, p, tokens[0]);
    if |tokens| == 1 {
      assert WalkCreate(m, p, tokens) == w;
      assert tokens[1..] == [];
    } else {
      var w' := WalkCreate(w.nodes, w.path, tokens[1..]);
      WalkCreateWidens(w.nodes, w.path, tokens[1..], next);
      WidenedSameBelow(m, w.nodes, w.path);
      ResolveSame(NamesOf(w.nodes), NamesOf(m), w.path, tokens[1..]);
      assert WalkCreate(m, p, tokens) == w';
      WidenedTwice(m, w.nodes, w'.nodes, w.path, w'.path);
    }
  }

  /** The whole effect of the creating walk. */
  lemma WalkIsFlat(t: Tree, expr: string)
    requires Inv(t) && RowsFirst(t.nodes) && Tokenize(expr) != []
    ensures var w, p := WalkCreate(t.nodes, [], Tokenize(expr)), Resolve(NamesOf(t.nodes), [], Tokenize(expr));
            && w.path == p && NamesOf(w.nodes) == Widen(NamesOf(t.nodes), p)
            && Tables(w.nodes) == Tables(t.nodes) + TablesOn(p)
            && Lists(w.nodes) == Lists(t.nodes) && Routed(w.nodes) == Routed(t.nodes)
  {
    var w := WalkCreate(t.nodes, [], Tokenize(expr));
    TokenizePlain(expr);
    WalkCreateGrows(t.nodes, [], Tokenize(expr), t.next);
    WalkCreateWidens(t.nodes, [], Tokenize(expr), t.next);
    WidenedNames(t.nodes, w.nodes, w.path);
    WidenedTables(t.nodes, w.nodes, w.path);
    GrownIsFlat(t.nodes, w.nodes);
  }

  lemma WidenedNames(m: Topics, m': Topics, p: Path)
    requires Widened(m, m', p)
    ensures NamesOf(m') == Widen(NamesOf(m), p)
  {
    var a, b := NamesOf(m'), Widen(NamesOf(m), p);
    forall q ensures (q in a <==> q in b) && (q in a ==> a[q] == b[q]) { assert Made(m, m', p, q); }
    SameMap(a, b);
  }

  lemma WidenedTables(m: Topics, m': Topics, p: Path)
    requires Widened(m, m', p)
    ensures Tables(m') == Tables(m) + TablesOn(p)
  {
    forall q ensures q in Tables(m') <==> q in Tables(m) + TablesOn(p) {
      assert Made(m, m', p, q);
      assert TableOn(p, q) ==> AtOrBelow(p, q);
    }
  }

  lemma GrownIsFlat(m: Topics, m': Topics)
    requires Grown(m, m')
    ensures Lists(m') == Lists(m) && Routed(m') == Routed(m)
  {}

  lemma AssignIsFlat(m: Topics, p: Path, h: RouteRef)
    requires p in m
    ensures var m' := AssignRoute(m, p, h);
            Tables(m') == Tables(m) && Lists(m') == Lists(m) + {p}
  {}

  lemma AssignNames(m: Topics, p: Path, h: RouteRef)
    requires p in m
    ensures NamesOf(AssignRoute(m, p, h)) == NamesOf(m)
  {}

  lemma RoutedAt(m: Topics, p: Path)
    ensures var hs := if p in m then m[p].routes else [];
            && (p in Routed(m) <==> hs != []) && FlatAt(Routed(m), p) == Datas(hs)
  {}

  lemma AssignIsRouted(m: Topics, p: Path, h: RouteRef)
    requires p in m
    ensures Routed(AssignRoute(m, p, h)) == Routed(m)[p := FlatAt(Routed(m), p) + [h.data]]
  {
    var m' := AssignRoute(m, p, h);
    var f, f' := Routed(m'), Routed(m)[p := FlatAt(Routed(m), p) + [h.data]];
    forall q ensures (q in f <==> q in f') && (q in f ==> f[q] == f'[q]) {
      RoutedAt(m, q);
      RoutedAt(m', q);
      assert q in m && q != p ==> m'[q].routes == m[q].routes;
      if q == p { assert Datas(m[p].routes + [h]) == Datas(m[p].routes) + [h.data]; }
    }
    SameMap(f, f');
  }

  lemma RecordKnown(t: Tree, data: RouteData)
    ensures Known(EnsureRoute(t, data).0.routeList) == Known(t.routeList) + {data}
  {
    var list := t.routeList;
    match FindRoute(list, data)
    case Some(h) => assert h in list;
    case None =>
      var h := RouteRef(data, t.next);
      assert forall g :: g in list + [h] <==> g in list || g == h;
  }

  lemma LocateIsFlat(t: Tree, expr: string)
    requires Inv(t) && RowsFirst(t.nodes)
    ensures Locate(t.nodes, expr) == FlatLocate(FlatOf(t), expr)
  {
    WalkIsSeek(t.nodes, [], Tokenize(expr));
  }

  /** Refusals can be told from the flat picture. */
  lemma RefusedIsFlat(t: Tree, expr: string, errOnDup: bool)
    requires Inv(t) && RowsFirst(t.nodes) && Tokenize(expr) != []
    ensures Refused(t, expr, errOnDup) <==> FlatRefused(FlatOf(t), expr, errOnDup)
  {
    LocateIsFlat(t, expr);
  }

  lemma RefusedAddIsFlat(t: Tree, expr: string, data: RouteData, errOnDup: bool)
    requires Inv(t) && Tokenize(expr) != [] && Refused(t, expr, errOnDup)
    ensures var (t', code) := AddTopicRoute(t, expr, data, errOnDup);
            code == Duplicate && t'.nodes == t.nodes && Known(t'.routeList) == Known(t.routeList) + {data}
  {
    RefusedIff(t, expr, data, errOnDup);
    RecordKnown(t, data);
    AddResult(t, expr, data, errOnDup);
    WalkCreateFollowsWalk(t.nodes, [], Tokenize(expr));
  }

  lemma MadeAddIsFlat(t: Tree, expr: string, data: RouteData, errOnDup: bool)
    requires Inv(t) && RowsFirst(t.nodes) && Tokenize(expr) != [] && !Refused(t, expr, errOnDup)
    ensures var (t', code) := AddTopicRoute(t, expr, data, errOnDup);
            var p := Resolve(NamesOf(t.nodes), [], Tokenize(expr));
            && code == Ok && Known(t'.routeList) == Known(t.routeList) + {data}
            && NamesOf(t'.nodes) == Widen(NamesOf(t.nodes), p)
            && Tables(t'.nodes) == Tables(t.nodes) + TablesOn(p) && Lists(t'.nodes) == Lists(t.nodes) + {p}
            && Routed(t'.nodes) == Routed(t.nodes)[p := FlatAt(Routed(t.nodes), p) + [data]]
  {
    var h, w := EnsureRoute(t, data).1, WalkCreate(t.nodes, [], Tokenize(expr));
    RefusedIff(t, expr, data, errOnDup);
    WalkIsFlat(t, expr);
    RecordKnown(t, data);
    AddResult(t, expr, data, errOnDup);
    AssignNames(w.nodes, w.path, h);
    AssignIsFlat(w.nodes, w.path, h);
    AssignIsRouted(w.nodes, w.path, h);
  }

  lemma AddIsFlat(t: Tree, op: Op)
    requires Inv(t) && RowsFirst(t.nodes) && op.Add?
    ensures var (t', code) := AddTopicRoute(t, op.expr, op.data, op.errOnDup);
            (FlatOf(t'), code) == FlatAdd(FlatOf(t), op.expr, op.data, op.errOnDup)
  {
    if Tokenize(op.expr) != [] {
      RefusedIsFlat(t, op.expr, op.errOnDup);
      if Refused(t, op.expr, op.errOnDup) {
        RefusedAddIsFlat(t, op.expr, op.data, op.errOnDup);
      } else {
        MadeAddIsFlat(t, op.expr, op.data, op.errOnDup);
      }
    }
  }

  // ------------------------------------------------------------------- removing

  /** Records with the same pointer are the same. */
  lemma SameRecord(t: Tree, p: Path, g: RouteRef, h: RouteRef)
    requires Inv(t) && Assigned(t.nodes, p, g) && h in t.routeList && g.data == h.data
    ensures g == h
  {
    RoutesAreLive(t, p, g);
  }

  lemma RoutedPruned(t: Tree, p: Path, h: RouteRef)
    requires Inv(t) && h in t.routeList
    ensures var f := Routed(Prune(t.nodes, [], h));
            && (p in f <==> Except(FlatAt(Routed(t.nodes), p), h.data) != [])
            && (p in f ==> f[p] == Except(FlatAt(Routed(t.nodes), p), h.data))
  {
    var m, m' := t.nodes, Prune(t.nodes, [], h);
    var hs := if p in m then m[p].routes else [];
    forall g | g in hs && g.data == h.data ensures g == h { SameRecord(t, p, g, h); }
    DatasExcept(hs, h);
    PruneNeeded(m, t.next, p, h);
    if Except(hs, h) != [] {
      var g := Except(hs, h)[0];
      assert g in Except(hs, h);
      assert AtOrBelow(p, p) && Assigned(m, p, g);
    }
  }

  lemma LosingAt(at: FlatMap, data: RouteData, p: Path)
    ensures var f := Losing(at, data);
            && (p in f <==> Except(FlatAt(at, p), data) != []) && (p in f ==> f[p] == Except(FlatAt(at, p), data))
  {}

  lemma PrunedMap(t: Tree, h: RouteRef)
    requires Inv(t) && h in t.routeList
    ensures Routed(Prune(t.nodes, [], h)) == Losing(Routed(t.nodes), h.data)
  {
    var f, f' := Routed(Prune(t.nodes, [], h)), Losing(Routed(t.nodes), h.data);
    forall p ensures (p in f <==> p in f') && (p in f ==> f[p] == f'[p]) {
      RoutedPruned(t, p, h);
      LosingAt(Routed(t.nodes), h.data, p);
    }
    SameMap(f, f');
  }

  /** Needed without `h` is needed in the flat picture without its pointer. */
  lemma NeededIsFlat(t: Tree, p: Path, h: RouteRef)
    requires Inv(t) && h in t.routeList
    ensures NeededWithout(t.nodes, p, h) <==> NeededIn(Routed(Prune(t.nodes, [], h)), p)
  {
    if NeededWithout(t.nodes, p, h) {
      var q, g :| AtOrBelow(q, p) && Assigned(t.nodes, q, g) && g != h;
      NeededRouted(t, q, g, h);
    }
    if NeededIn(Routed(Prune(t.nodes, [], h)), p) {
      var q :| q in Routed(Prune(t.nodes, [], h)) && AtOrBelow(q, p);
      var g := Prune(t.nodes, [], h)[q].routes[0];
      PruneAssigned(t.nodes, t.next, h, q, g);
    }
  }

  lemma NeededRouted(t: Tree, q: Path, g: RouteRef, h: RouteRef)
    requires Inv(t) && Assigned(t.nodes, q, g) && g != h
    ensures q in Routed(Prune(t.nodes, [], h))
  {
    PruneAssigned(t.nodes, t.next, h, q, g);
  }

  /** What stays is what is needed, and it stays as it was marked. */
  lemma PrunedName(t: Tree, p: Path, h: RouteRef)
    requires Inv(t) && h in t.routeList
    ensures var m' := Prune(t.nodes, [], h);
            && (p in m' <==> p in t.nodes && (p == [] || NeededIn(Routed(m'), p)))
            && (p in m' ==> m'[p].isTable == t.nodes[p].isTable && m'[p].listed == t.nodes[p].listed)
  {
    PruneNeeded(t.nodes, t.next, p, h);
    NeededIsFlat(t, p, h);
  }

  lemma PrunedNames(t: Tree, h: RouteRef)
    requires Inv(t) && h in t.routeList
    ensures var m' := Prune(t.nodes, [], h);
            && m'.Keys == StillNeeded(NamesOf(t.nodes), Routed(m'))
            && Tables(m') == Tables(t.nodes) * m'.Keys && Lists(m') == Lists(t.nodes) * m'.Keys
            && NamesOf(m') == Keeping(NamesOf(t.nodes), m'.Keys)
  {
    var m' := Prune(t.nodes, [], h);
    forall p ensures && (p in m' <==> p in t.nodes && (p == [] || NeededIn(Routed(m'), p)))
                     && (p in m' ==> m'[p].isTable == t.nodes[p].isTable && m'[p].listed == t.nodes[p].listed)
    {
      PrunedName(t, p, h);
    }
    PruneKidsStay(t.nodes, h);
    KidsStayNames(t.nodes, m');
  }

  lemma KidsStayNames(m: Topics, m': Topics)
    requires KidsStay(m, m')
    ensures NamesOf(m') == Keeping(NamesOf(m), m'.Keys)
  {
    var a, b := NamesOf(m'), Keeping(NamesOf(m), m'.Keys);
    forall p ensures (p in a <==> p in b) && (p in a ==> a[p] == b[p]) {
      if p in m' {
        assert m'[p].kids == Staying(m[p].kids, p, m'.Keys);
        PlaceholdersStay(m[p].kids, p, m'.Keys);
      }
    }
    SameMap(a, b);
  }

  lemma KnownWithout(t: Tree, h: RouteRef)
    requires Inv(t) && h in t.routeList
    ensures Known(RemoveFirst(t.routeList, h)) == Known(t.routeList) - {h.data}
  {
    RemoveFirstNoDup(t.routeList, h);
  }

  lemma DropRouteIsFlat(t: Tree, data: RouteData)
    requires Inv(t)
    ensures FlatOf(RemoveRoute(t, data)) == FlatDropRoute(FlatOf(t), data)
  {
    match FindRoute(t.routeList, data)
    case None =>
    case Some(h) =>
      var m' := Prune(t.nodes, [], h);
      PrunedMap(t, h);
      PrunedNames(t, h);
      KnownWithout(t, h);
  }

  // ------------------------------------------------------------- removing topics

  /** A record has topics exactly when its pointer is placed somewhere. */
  lemma PlacedIff(t: Tree, m: Topics, h: RouteRef)
    requires Inv(t) && h in t.routeList && forall p, g :: Assigned(m, p, g) ==> Assigned(t.nodes, p, g)
    ensures Placed(Routed(m), h.data) <==> exists p :: Assigned(m, p, h)
  {
    if Placed(Routed(m), h.data) {
      var p :| p in Routed(m) && h.data in Routed(m)[p];
      var i :| 0 <= i < |Routed(m)[p]| && Routed(m)[p][i] == h.data;
      var g := m[p].routes[i];
      assert Assigned(m, p, g);
      SameRecord(t, p, g, h);
    }
    if p :| Assigned(m, p, h) {
      var i :| 0 <= i < |m[p].routes| && m[p].routes[i] == h;
      assert Routed(m)[p][i] == h.data;
    }
  }

  lemma SurvivesIff(t: Tree, p: Path, k: string, h: RouteRef)
    requires Inv(t) && h in t.routeList && p in t.nodes
    ensures var m' := Cut(t, p, k).nodes;
            Survives(t.topicsOf[h], p + [k]) <==> (Placed(Routed(t.nodes), h.data) ==> Placed(Routed(m'), h.data))
  {
    var q, m, m' := p + [k], t.nodes, Cut(t, p, k).nodes;
    var topics := t.topicsOf[h];
    var rest := Outside(topics, q);
    forall x, g ensures Assigned(m', x, g) <==> Assigned(m, x, g) && !AtOrBelow(x, q) { CutAssigned(t, p, k, x, g); }
    PlacedIff(t, m, h);
    PlacedIff(t, m', h);
    if topics != [] { assert topics[0] in topics && Assigned(m, topics[0], h); }
    if rest != [] { assert rest[0] in rest && Assigned(m', rest[0], h); }
  }

  lemma CutMarks(t: Tree, p: Path, k: string)
    requires p in t.nodes
    ensures var m, m', q := t.nodes, Cut(t, p, k).nodes, p + [k];
            && m'.Keys == NamesOutside(NamesOf(m), q)
            && Tables(m') == Tables(m) * m'.Keys && Lists(m') == Lists(m) * m'.Keys
  {}

  lemma CutMap(t: Tree, p: Path, k: string)
    requires p in t.nodes
    ensures Routed(Cut(t, p, k).nodes) == AtOutside(Routed(t.nodes), p + [k])
  {}

  lemma CutKnown(t: Tree, p: Path, k: string)
    requires Inv(t) && p in t.nodes
    ensures var t' := Cut(t, p, k);
            Known(t'.routeList) == StillKnown(Known(t.routeList), Routed(t.nodes), Routed(t'.nodes))
  {
    var t' := Cut(t, p, k);
    forall h | h in t.routeList
      ensures h in t'.routeList <==> (Placed(Routed(t.nodes), h.data) ==> Placed(Routed(t'.nodes), h.data))
    {
      SurvivesIff(t, p, k, h);
    }
  }

  lemma CutIsFlat(t: Tree, p: Path, k: string)
    requires Inv(t) && p in t.nodes && k in t.nodes[p].kids
    ensures FlatOf(Cut(t, p, k)) == FlatCut(FlatOf(t), p + [k])
  {
    CutMarks(t, p, k);
    CutKidsStay(t, p, k);
    KidsStayNames(t.nodes, Cut(t, p, k).nodes);
    CutMap(t, p, k);
    CutKnown(t, p, k);
  }

  lemma DropTopicIsFlat(t: Tree, expr: string)
    requires Inv(t) && RowsFirst(t.nodes)
    ensures FlatOf(RemoveTopic(t, expr)) == FlatDropTopic(FlatOf(t), expr)
  {
    var tokens := Tokenize(expr);
    if tokens != [] {
      WalkIsSeek(t.nodes, [], Parent(tokens));
      match Walk(t.nodes, [], Parent(tokens))
      case None =>
      case Some(p) =>
        FindKidIsName(t.nodes, p, Last(tokens));
        KidListed(t.nodes, p, Last(tokens));
        if p + [Last(tokens)] in t.nodes { CutIsFlat(t, p, Last(tokens)); }
    }
  }

  // ----------------------------------------------------------------------- runs

  lemma StepIsFlat(t: Tree, op: Op)
    requires Inv(t) && RowsFirst(t.nodes)
    ensures FlatOf(Step(t, op)) == FlatStep(FlatOf(t), op)
  {
    match op
    case Add(_, _, _) => AddIsFlat(t, op);
    case DropRoute(data) => DropRouteIsFlat(t, data);
    case DropTopic(expr) => DropTopicIsFlat(t, expr);
  }

  predicate FlatTied(f: Flat, expr: string, data: RouteData) {
    var l := FlatLocate(f, expr); l.Some? && data in FlatAt(f.at, l.value)
  }

  /** No Add ties a topic and a route that are tied already; this too can be told from the
      flat picture. */
  predicate FlatUsed(f: Flat, op: Op) {
    op.Add? ==> !(FlatTied(f, op.expr, op.data) && (!op.errOnDup || op.expr == ADVISORY))
  }

  lemma UsedIsFlat(t: Tree, op: Op)
    requires Inv(t) && RowsFirst(t.nodes)
    ensures WellUsed(t, op) <==> FlatUsed(FlatOf(t), op)
  {
    if op.Add? {
      LocateIsFlat(t, op.expr);
      if Locate(t.nodes, op.expr).Some? { TiedIsFlat(t, Locate(t.nodes, op.expr).value, op.data); }
    }
  }

  /** A topic lists a pointer exactly when it lists the record found for it. */
  lemma TiedIsFlat(t: Tree, p: Path, data: RouteData)
    requires Inv(t)
    ensures data in FlatAt(Routed(t.nodes), p) <==>
              p != [] && p in t.nodes && FindRoute(t.routeList, data).Some?
              && FindRoute(t.routeList, data).value in t.nodes[p].routes
  {
    var ds := FlatAt(Routed(t.nodes), p);
    if data in ds {
      var i :| 0 <= i < |ds| && ds[i] == data;
      var g := t.nodes[p].routes[i];
      assert Assigned(t.nodes, p, g);
      RoutesAreLive(t, p, g);
    }
    if p in t.nodes && FindRoute(t.routeList, data).Some? {
      DataIn(t.nodes[p].routes, FindRoute(t.routeList, data).value);
    }
  }

  function FlatRun(f: Flat, ops: seq<Op>): Flat
    decreases |ops|
  {
    if ops == [] then f else FlatRun(FlatStep(f, ops[0]), ops[1..])
  }

  predicate FlatRuns(f: Flat, ops: seq<Op>)
    decreases |ops|
  {
    ops == [] || (FlatUsed(f, ops[0]) && FlatRuns(FlatStep(f, ops[0]), ops[1..]))
  }

  /** Every run of the tree stands for a run of the flat picture. */
  lemma {:induction false} TreeRefinesFlat(t: Tree, ops: seq<Op>, t': Tree)
    requires Inv(t) && RowsFirst(t.nodes) && Runs(t, ops, t')
    ensures FlatRuns(FlatOf(t), ops) && FlatOf(t') == FlatRun(FlatOf(t), ops)
    ensures Inv(t') && RowsFirst(t'.nodes)
    decreases |ops|
  {
    if ops == [] {
    } else {
      UsedIsFlat(t, ops[0]);
      StepKeepsInv(t, ops[0]);
      StepKeepsRows(t, ops[0]);
      StepIsFlat(t, ops[0]);
      TreeRefinesFlat(Step(t, ops[0]), ops[1..], t');
    }
  }

  /** And the tree goes through every run the flat picture allows. */
  lemma {:induction false} TreeFollowsFlat(t: Tree, ops: seq<Op>) returns (t': Tree)
    requires Inv(t) && RowsFirst(t.nodes) && FlatRuns(FlatOf(t), ops)
    ensures Runs(t, ops, t')
    decreases |ops|
  {
    if ops == [] {
      t' := t;
    } else {
      UsedIsFlat(t, ops[0]);
      StepKeepsInv(t, ops[0]);
      StepKeepsRows(t, ops[0]);
      StepIsFlat(t, ops[0]);
      t' := TreeFollowsFlat(Step(t, ops[0]), ops[1..]);
    }
  }

  // -------------------------------------------------------------------- answers

  lemma AnswerFlat(m: Topics, p: Path)
    requires Shape(m) && RowsFirst(m) && p in m
    ensures Datas(Answer(m, p, false)) == FlatAt(Routed(m), if m[p].isTable then p + ["{i}"] else p)
  {
    if m[p].isTable { FindKidIsName(m, p, "{i}"); }
  }

  /** A lookup by full path is answered from the flat picture. */
  lemma LookupIsFlat(t: Tree, expr: string)
    requires Inv(t) && RowsFirst(t.nodes) && !EndsInDot(expr)
    ensures Datas(GetTopicRoutes(t, expr)) == Lookup(FlatOf(t), expr)
  {
    LocateIsFlat(t, expr);
    if Locate(t.nodes, expr).Some? { AnswerFlat(t.nodes, Locate(t.nodes, expr).value); }
  }

  /** With an exact index a partial path is answered by the pointers registered below it,
      each once. */
  lemma PartialIsFlat(t: Tree, expr: string)
    requires Inv(t) && Exact(t) && RowsFirst(t.nodes) && EndsInDot(expr)
    ensures var ds, l := Datas(GetTopicRoutes(t, expr)), FlatLocate(FlatOf(t), expr);
            NoDup(ds) && forall d :: d in ds <==> l.Some? && PlacedBelow(FlatOf(t).at, l.value, d)
  {
    LocateIsFlat(t, expr);
    if Locate(t.nodes, expr).Some? {
      var n := Locate(t.nodes, expr).value;
      var hs := t.nodes[n].routes2;
      assert NodeOk(t.nodes[n], t.next);
      IndexRegistered(t, n);
      DistinctDatas(t, hs);
      forall d ensures d in Datas(hs) <==> PlacedBelow(FlatOf(t).at, n, d) { BelowIsFlat(t, n, d); }
    }
  }

  predicate PlacedBelow(at: FlatMap, n: Path, d: RouteData) { exists p :: p in at && Below(p, n) && d in at[p] }

  lemma BelowIsFlat(t: Tree, n: Path, d: RouteData)
    requires Inv(t) && Exact(t) && n in t.nodes && n != []
    ensures d in Datas(t.nodes[n].routes2) <==> PlacedBelow(Routed(t.nodes), n, d)
  {
    var hs := t.nodes[n].routes2;
    if d in Datas(hs) {
      var i :| 0 <= i < |hs| && hs[i].data == d;
      assert hs[i] in hs && AssignedBelow(t.nodes, n, hs[i]);
      var p :| Below(p, n) && Assigned(t.nodes, p, hs[i]);
      DataIn(t.nodes[p].routes, hs[i]);
    }
    if PlacedBelow(Routed(t.nodes), n, d) {
      var p :| p in Routed(t.nodes) && Below(p, n) && d in Routed(t.nodes)[p];
      var i :| 0 <= i < |t.nodes[p].routes| && t.nodes[p].routes[i].data == d;
      var h := t.nodes[p].routes[i];
      assert Assigned(t.nodes, p, h);
      DataIn(hs, h);
    }
  }

  lemma EmptyTreeFlat()
    ensures Inv(EMPTY_TREE) && Exact(EMPTY_TREE) && RowsFirst(EMPTY_TREE.nodes) && FlatOf(EMPTY_TREE) == EMPTY_FLAT
  {
    EmptyTreeInv();
    EmptyIsFlat();
  }

  /** After every run from nothing every full path is answered by the pointers registered
      there and not removed, in registration order, a table answering for its "{i}" row. */
  lemma RunAnswersFlat(ops: seq<Op>, t: Tree, expr: string)
    requires Runs(EMPTY_TREE, ops, t) && !EndsInDot(expr)
    ensures Shape(t.nodes) && Datas(GetTopicRoutes(t, expr)) == Lookup(FlatRun(EMPTY_FLAT, ops), expr)
  {
    EmptyTreeFlat();
    TreeRefinesFlat(EMPTY_TREE, ops, t);
    LookupIsFlat(t, expr);
  }

  // ----------------------------------------------------------------- what stays found

  /** What is listed as a placeholder is one, and is a name. */
  ghost predicate Tidy(names: Names) {
    forall p, k {:trigger k in PlacesAt(names, p)} :: k in PlacesAt(names, p) ==> Curly(k) && p + [k] in names
  }

  lemma NamesTidy(m: Topics)
    requires Shape(m)
    ensures Tidy(NamesOf(m))
  {}

  /** Beside a placeholder an Add makes no topic for a row id. */
  lemma {:induction false} NoRowMade(names: Names, q: Path, tokens: seq<string>, p: Path, k: string)
    requires Tidy(names) && AtOrBelow(p, q) && AtOrBelow(Resolve(names, q, tokens), p + [k])
    requires InstanceToken(k) && PlacesAt(names, p) != []
    ensures p + [k] in names
    decreases |tokens|
  {
    var c := p + [k];
    if tokens == [] {
    } else {
      var q' := q + [NameMade(names, q, tokens[0])];
      if p == q {
        assert Resolve(names, q', tokens[1..])[..|c|] == q' == c;
        assert q'[|p|] == NameMade(names, q, tokens[0]) && c[|p|] == k;
        assert PlacesAt(names, p)[0] in PlacesAt(names, p);
      } else {
        PrefixesCompare(Resolve(names, q', tokens[1..]), c, q');
        assert p[..|q|] == q;
        assert AtOrBelow(p, q') by { assert c[..|q'|] == p[..|q'|]; }
        NoRowMade(names, q', tokens[1..], p, k);
      }
    }
  }

  /** A token goes on leading where it led. */
  lemma NameForWidens(names: Names, tokens: seq<string>, p: Path, token: string)
    requires Tidy(names) && NameFor(names, p, token).Some?
    ensures NameFor(Widen(names, Resolve(names, [], tokens)), p, token) == NameFor(names, p, token)
  {
    var x := Resolve(names, [], tokens);
    if p + [token] !in names && AtOrBelow(x, p + [token]) { NoRowMade(names, [], tokens, p, token); }
  }

  lemma {:induction false} SeekWidens(names: Names, tokens: seq<string>, p: Path, path: seq<string>)
    requires Tidy(names) && Seek(names, p, path).Some?
    ensures Seek(Widen(names, Resolve(names, [], tokens)), p, path) == Seek(names, p, path)
    decreases |path|
  {
    if path == [] {
    } else {
      NameForWidens(names, tokens, p, path[0]);
      SeekWidens(names, tokens, p + [NameFor(names, p, path[0]).value], path[1..]);
    }
  }

  /** And what an Add has made is found. */
  lemma NameForMade(names: Names, x: Path, p: Path, token: string)
    requires Tidy(names) && AtOrBelow(x, p + [NameMade(names, p, token)])
    ensures NameFor(Widen(names, x), p, token) == Some(NameMade(names, p, token))
  {
    var k := NameMade(names, p, token);
    assert AtOrBelow(x, p) by { assert x[..|p| + 1][..|p|] == p; }
    if AtOrBelow(x, p + [token]) { assert x[..|p| + 1][|p|] == k; }
  }

  lemma {:induction false} SeekMade(names: Names, x: Path, p: Path, tokens: seq<string>)
    requires Tidy(names) && x == Resolve(names, p, tokens)
    ensures Seek(Widen(names, x), p, tokens) == Some(x)
    decreases |tokens|
  {
    if tokens == [] {
    } else {
      NameForMade(names, x, p, tokens[0]);
      SeekMade(names, x, p + [NameMade(names, p, tokens[0])], tokens[1..]);
    }
  }

  lemma {:induction false} SeekKept(names: Names, keep: set<Path>, p: Path, tokens: seq<string>, r: Path)
    requires Tidy(names) && Seek(names, p, tokens) == Some(r) && p in names
    requires forall q :: q in names && AtOrBelow(r, q) ==> q in keep
    ensures Seek(Keeping(names, keep), p, tokens) == Some(r)
    decreases |tokens|
  {
    if tokens == [] {
    } else {
      var k := NameFor(names, p, tokens[0]).value;
      assert p + [tokens[0]] !in names ==> k in PlacesAt(names, p);
      SeekGoesOn(names, p + [k], tokens[1..]);
      assert AtOrBelow(r, p) by { assert r[..|p| + 1][..|p|] == p; }
      SeekKept(names, keep, p + [k], tokens[1..], r);
    }
  }

  lemma {:induction false} SeekGoesOn(names: Names, p: Path, tokens: seq<string>)
    requires Seek(names, p, tokens).Some?
    ensures AtOrBelow(Seek(names, p, tokens).value, p)
    decreases |tokens|
  {
    ResolveFound(names, p, tokens);
  }

  lemma AddKeepsFound(f: Flat, expr: string, data: RouteData, errOnDup: bool, other: string)
    requires Tidy(f.names) && FlatLocate(f, other).Some?
    ensures FlatLocate(FlatAdd(f, expr, data, errOnDup).0, other) == FlatLocate(f, other)
  {
    SeekWidens(f.names, Tokenize(expr), [], Tokenize(other));
  }

  lemma PlaceMade(names: Names, x: Path, p: Path, k: string)
    requires Tidy(names) && k in PlacesMade(names, x, p)
    ensures Curly(k) && (p + [k] in names || AtOrBelow(x, p + [k]))
  {
    if k !in PlacesAt(names, p) { TakeNext(x, |p|); }
  }

  lemma WidenAt(names: Names, x: Path, p: Path)
    ensures PlacesAt(Widen(names, x), p) == PlacesMade(names, x, p)
    ensures p in Widen(names, x) <==> p in names || AtOrBelow(x, p)
  {}

  lemma WidenTidy(names: Names, x: Path)
    requires Tidy(names)
    ensures Tidy(Widen(names, x))
  {
    var names' := Widen(names, x);
    forall p, k | k in PlacesAt(names', p) ensures Curly(k) && p + [k] in names' {
      WidenAt(names, x, p);
      WidenAt(names, x, p + [k]);
      PlaceMade(names, x, p, k);
    }
  }

  lemma AddKeepsTidy(f: Flat, expr: string, data: RouteData, errOnDup: bool)
    requires Tidy(f.names)
    ensures Tidy(FlatAdd(f, expr, data, errOnDup).0.names)
  {
    WidenTidy(f.names, Resolve(f.names, [], Tokenize(expr)));
  }

  lemma AddFinds(f: Flat, expr: string, data: RouteData)
    requires Tidy(f.names) && Tokenize(expr) != []
    ensures FlatLocate(FlatAdd(f, expr, data, false).0, expr) == Some(Resolve(f.names, [], Tokenize(expr)))
  {
    SeekMade(f.names, Resolve(f.names, [], Tokenize(expr)), [], Tokenize(expr));
  }

  lemma DropRouteKeepsFound(f: Flat, data: RouteData, other: string, ptr: RouteData)
    requires Tidy(f.names) && [] in f.names && FlatTied(f, other, ptr) && ptr != data
    ensures FlatLocate(FlatDropRoute(f, data), other) == FlatLocate(f, other)
    ensures FlatTied(FlatDropRoute(f, data), other, ptr)
  {
    var r, at := FlatLocate(f, other).value, Losing(f.at, data);
    assert ptr in Except(f.at[r], data) && r in at;
    SeekKept(f.names, StillNeeded(f.names, at), [], Tokenize(other), r);
  }

  predicate CutsOff(f: Flat, expr: string, p: Path) {
    var q := FlatCutPoint(f, expr); q.Some? && AtOrBelow(p, q.value)
  }

  lemma CutKeepsFound(f: Flat, expr: string, other: string)
    requires Tidy(f.names) && [] in f.names && FlatLocate(f, other).Some?
    requires !CutsOff(f, expr, FlatLocate(f, other).value)
    ensures FlatLocate(FlatDropTopic(f, expr), other) == FlatLocate(f, other)
  {
    var r, q := FlatLocate(f, other).value, FlatCutPoint(f, expr);
    if q.Some? {
      forall x | x in f.names && AtOrBelow(r, x) ensures x in NamesOutside(f.names, q.value) {
        assert |q.value| <= |x| ==> r[..|x|][..|q.value|] == r[..|q.value|];
      }
      SeekKept(f.names, NamesOutside(f.names, q.value), [], Tokenize(other), r);
    }
  }

  // --------------------------------------------------------------- an emptied topic

  /** Register 1 at "a" and 2 at "a.b", and take 1 away. */
  function Emptying(a: string, b: string): seq<Op> { [Add(a, 1, false), Add(a + "." + b, 2, false), DropRoute(1)] }

  /** Nobody is at "a" then, and it goes on being listed. */
  function Emptied(a: string, b: string): Flat {
    Flat(map[[a, b] := [2]], NamesTwo(a, b), {}, {[a], [a, b]}, {2})
  }

  predicate TokenPair(a: string, b: string) {
    a != "" && b != "" && '.' !in a && '.' !in b && !InstanceToken(a) && !InstanceToken(b) && !Curly(a)
  }

  lemma PathsToOne(a: string)
    requires !Curly(a)
    ensures Prefixes([a]) == {[], [a]} && TablesOn([a]) == {}
  {
    assert forall q :: AtOrBelow([a], q) <==> q == [] || q == [a];
    assert forall q :: !TableOn([a], q);
  }

  lemma PathsToTwo(a: string, b: string)
    requires !Curly(a)
    ensures Prefixes([a, b]) == {[], [a], [a, b]}
    ensures forall q :: TableOn([a, b], q) <==> q == [a] && Curly(b)
    ensures TablesOn([a, b]) == if Curly(b) then {[a]} else {}
  {
    forall q ensures AtOrBelow([a, b], q) <==> q == [] || q == [a] || q == [a, b] {
      assert [a, b][..0] == [] && [a, b][..1] == [a] && [a, b][..2] == [a, b];
    }
  }

  /** Names that are no row ids lead where they say. */
  lemma PairResolves(names: Names, a: string, b: string)
    requires TokenPair(a, b)
    ensures Resolve(names, [], [a, b]) == [a, b] && Resolve(names, [], [a]) == [a]
  {
    assert [a, b][1..] == [b] && [b][1..] == [] && [a][1..] == [] && [] + [a] == [a] && [a] + [b] == [a, b];
    assert Resolve(names, [a, b], []) == [a, b] && Resolve(names, [a], [b]) == Resolve(names, [a, b], []);
  }

  function NamesOne(a: string): Names { map[[] := [], [a] := []] }

  function NamesTwo(a: string, b: string): Names { map[[] := [], [a] := [], [a, b] := []] }

  function OneAdded(a: string): Flat { Flat(map[[a] := [1]], NamesOne(a), {}, {[a]}, {1}) }

  function TwoAdded(a: string, b: string): Flat {
    Flat(map[[a] := [1], [a, b] := [2]], NamesTwo(a, b), {}, {[a], [a, b]}, {1, 2})
  }

  lemma FirstWidens(a: string)
    requires !Curly(a)
    ensures Widen(EMPTY_FLAT.names, [a]) == NamesOne(a)
  {
    PathsToOne(a);
    SameMap(Widen(EMPTY_FLAT.names, [a]), NamesOne(a));
  }

  lemma FirstAdded(a: string)
    requires a != "" && '.' !in a && !InstanceToken(a) && !Curly(a)
    ensures FlatAdd(EMPTY_FLAT, a, 1, false).0 == OneAdded(a)
  {
    OneToken(a);
    PathsToOne(a);
    PairResolves(EMPTY_FLAT.names, a, a);
    FirstWidens(a);
    assert FlatAt(EMPTY_FLAT.at, [a]) + [1] == [1];
  }

  lemma SecondIsPlain(a: string, b: string)
    requires !Curly(a) && !Curly(b)
    ensures Widen(NamesOne(a), [a, b]) == NamesTwo(a, b)
  {
    PathsToTwo(a, b);
    SameMap(Widen(NamesOne(a), [a, b]), NamesTwo(a, b));
  }

  lemma SecondAdded(a: string, b: string)
    requires TokenPair(a, b) && !Curly(b)
    ensures FlatAdd(OneAdded(a), a + "." + b, 2, false).0 == TwoAdded(a, b)
  {
    TwoTokens(a, b);
    PathsToTwo(a, b);
    PairResolves(NamesOne(a), a, b);
    assert FlatAt(OneAdded(a).at, [a, b]) + [2] == [2];
    SecondIsPlain(a, b);
  }

  lemma OneIsLost(a: string, b: string)
    ensures Losing(TwoAdded(a, b).at, 1) == map[[a, b] := [2]]
  {
    assert Except([1], 1) == [] && Except([2], 1) == [2];
  }

  lemma AllNeeded(a: string, b: string)
    ensures StillNeeded(NamesTwo(a, b), map[[a, b] := [2]]) == {[], [a], [a, b]}
  {
    var at: FlatMap := map[[a, b] := [2]];
    assert [a, b] in at && AtOrBelow([a, b], [a]) && AtOrBelow([a, b], [a, b]);
    assert NeededIn(at, [a]) && NeededIn(at, [a, b]);
  }

  lemma AllKept(a: string, b: string)
    ensures Keeping(NamesTwo(a, b), {[], [a], [a, b]}) == NamesTwo(a, b)
  {}

  lemma FirstDropped(a: string, b: string)
    ensures FlatDropRoute(TwoAdded(a, b), 1) == Emptied(a, b)
  {
    OneIsLost(a, b);
    AllNeeded(a, b);
    AllKept(a, b);
  }

  lemma NobodyTied(a: string, b: string)
    requires TokenPair(a, b)
    ensures !FlatTied(EMPTY_FLAT, a, 1) && !FlatTied(OneAdded(a), a + "." + b, 2)
  {}

  lemma EmptyingSteps(a: string, b: string)
    requires TokenPair(a, b) && !Curly(b)
    ensures var (x, y, z) := (Add(a, 1, false), Add(a + "." + b, 2, false), DropRoute(1));
            && FlatUsed(EMPTY_FLAT, x) && FlatStep(EMPTY_FLAT, x) == OneAdded(a)
            && FlatUsed(OneAdded(a), y) && FlatStep(OneAdded(a), y) == TwoAdded(a, b)
            && FlatUsed(TwoAdded(a, b), z) && FlatStep(TwoAdded(a, b), z) == Emptied(a, b)
  {
    FirstAdded(a);
    SecondAdded(a, b);
    FirstDropped(a, b);
    NobodyTied(a, b);
  }

  lemma EmptyingRuns(a: string, b: string)
    requires TokenPair(a, b) && !Curly(b)
    ensures FlatRuns(EMPTY_FLAT, Emptying(a, b)) && FlatRun(EMPTY_FLAT, Emptying(a, b)) == Emptied(a, b)
  {
    var (x, y, z) := (Add(a, 1, false), Add(a + "." + b, 2, false), DropRoute(1));
    EmptyingSteps(a, b);
    RunThree(EMPTY_FLAT, x, y, z, OneAdded(a), TwoAdded(a, b), Emptied(a, b));
  }

  lemma RunThree(f: Flat, x: Op, y: Op, z: Op, f1: Flat, f2: Flat, f3: Flat)
    requires FlatUsed(f, x) && FlatStep(f, x) == f1 && FlatUsed(f1, y) && FlatStep(f1, y) == f2
    requires FlatUsed(f2, z) && FlatStep(f2, z) == f3
    ensures FlatRuns(f, [x, y, z]) && FlatRun(f, [x, y, z]) == f3
  {
    RunTwo(f1, y, z, f2, f3);
    assert [x, y, z][1..] == [y, z];
  }

  lemma RunTwo(f: Flat, x: Op, y: Op, f1: Flat, f2: Flat)
    requires FlatUsed(f, x) && FlatStep(f, x) == f1 && FlatUsed(f1, y) && FlatStep(f1, y) == f2
    ensures FlatRuns(f, [x, y]) && FlatRun(f, [x, y]) == f2
  {
    assert [x, y][1..] == [y] && [y][1..] == [];
    assert FlatRuns(f1, [y]) && FlatRun(f1, [y]) == f2;
  }

  /** A run from nothing that the flat picture allows. */
  lemma RunThere(ops: seq<Op>) returns (t: Tree)
    requires FlatRuns(EMPTY_FLAT, ops)
    ensures Runs(EMPTY_TREE, ops, t) && Inv(t) && RowsFirst(t.nodes) && FlatOf(t) == FlatRun(EMPTY_FLAT, ops)
  {
    EmptyTreeFlat();
    t := TreeFollowsFlat(EMPTY_TREE, ops);
    TreeRefinesFlat(EMPTY_TREE, ops, t);
  }

  /** A tree gets there: after three calls nobody is at "a", and yet registering there with
      an error on duplicates is refused. */
  lemma EmptiedTopicArises(a: string, b: string, data: RouteData) returns (t: Tree)
    requires TokenPair(a, b) && !Curly(b)
    ensures Runs(EMPTY_TREE, Emptying(a, b), t) && Inv(t)
    ensures GetTopicRoutes(t, a) == [] && AddTopicRoute(t, a, data, true).1 == Duplicate
  {
    EmptyingRuns(a, b);
    t := RunThere(Emptying(a, b));
    NotEndsInDot(a);
    EmptiedFacts(a, b, data);
    LookupIsFlat(t, a);
    AddIsFlat(t, Add(a, data, true));
  }

  lemma EmptiedFound(a: string, b: string)
    requires TokenPair(a, b)
    ensures FlatLocate(Emptied(a, b), a) == Some([a])
  {
    OneToken(a);
    assert [] + [a] == [a] && [a][1..] == [];
    assert Seek(NamesTwo(a, b), [a], []) == Some([a]);
  }

  lemma EmptiedFacts(a: string, b: string, data: RouteData)
    requires TokenPair(a, b) && !Curly(b)
    ensures Lookup(Emptied(a, b), a) == [] && FlatAdd(Emptied(a, b), a, data, true).1 == Duplicate
  {
    EmptiedFound(a, b);
    OneToken(a);
    NotEndsInDot(a);
    assert FlatRefused(Emptied(a, b), a, true);
  }

  lemma NotEndsInDot(a: string)
    requires '.' !in a
    ensures !EndsInDot(a) && a != ADVISORY
  {
    assert ADVISORY[9] == '.';
  }

  // ------------------------------------------------------------- two placeholders

  /** Two routes below "a", under two spellings of the placeholder. */
  function TwoPlaces(a: string, x: string, y: string, d: RouteData, e: RouteData): seq<Op> {
    [Add(a + "." + x, d, false), Add(a + "." + y, e, false)]
  }

  function PlacesOne(a: string, x: string): Names { map[[] := [], [a] := [x], [a, x] := []] }

  function PlacesTwo(a: string, x: string, y: string): Names {
    map[[] := [], [a] := [x, y], [a, x] := [], [a, y] := []]
  }

  function OnePlaced(a: string, x: string, d: RouteData): Flat {
    Flat(map[[a, x] := [d]], PlacesOne(a, x), {[a]}, {[a, x]}, {d})
  }

  function TwoPlaced(a: string, x: string, y: string, d: RouteData, e: RouteData): Flat {
    Flat(map[[a, x] := [d], [a, y] := [e]], PlacesTwo(a, x, y), {[a]}, {[a, x], [a, y]}, {d, e})
  }

  lemma FirstPlaced(a: string, x: string, d: RouteData)
    requires TokenPair(a, x) && Curly(x)
    ensures FlatAdd(EMPTY_FLAT, a + "." + x, d, false).0 == OnePlaced(a, x, d)
  {
    TwoTokens(a, x);
    PathsToTwo(a, x);
    PairResolves(EMPTY_FLAT.names, a, x);
    assert FlatAt(EMPTY_FLAT.at, [a, x]) + [d] == [d];
    assert [a, x][1] == x && AddOnce([], x) == [x];
    SameMap(Widen(EMPTY_FLAT.names, [a, x]), PlacesOne(a, x));
  }

  lemma SecondWidens(a: string, x: string, y: string)
    requires TokenPair(a, x) && TokenPair(a, y) && Curly(x) && Curly(y) && x != y
    ensures Widen(PlacesOne(a, x), [a, y]) == PlacesTwo(a, x, y)
  {
    PathsToTwo(a, y);
    assert [a, x][1] == x && [a, y][1] == y && AddOnce([x], y) == [x, y];
    SameMap(Widen(PlacesOne(a, x), [a, y]), PlacesTwo(a, x, y));
  }

  lemma SecondPlaced(a: string, x: string, y: string, d: RouteData, e: RouteData)
    requires TokenPair(a, x) && TokenPair(a, y) && Curly(x) && Curly(y) && x != y
    ensures FlatAdd(OnePlaced(a, x, d), a + "." + y, e, false).0 == TwoPlaced(a, x, y, d, e)
  {
    var f := OnePlaced(a, x, d);
    TwoTokens(a, y);
    PathsToTwo(a, y);
    PairResolves(f.names, a, y);
    SecondWidens(a, x, y);
    assert [a, x][1] != [a, y][1];
    assert FlatAt(f.at, [a, y]) + [e] == [e];
  }

  lemma RowAtFirst(a: string, x: string, y: string, row: string, d: RouteData, e: RouteData)
    requires TokenPair(a, x) && Curly(x) && Curly(y) && x != y && InstanceToken(row) && '.' !in row
    ensures Lookup(TwoPlaced(a, x, y, d, e), a + "." + row) == [d]
  {
    var f := TwoPlaced(a, x, y, d, e);
    TwoTokens(a, row);
    assert [a, row][1..] == [row] && [row][1..] == [] && [] + [a] == [a] && [a] + [x] == [a, x];
    assert NameFor(f.names, [], a) == Some(a);
    assert [a] + [row] != [a, x] && [a] + [row] != [a, y] by { assert ([a] + [row])[1] == row; }
    assert NameFor(f.names, [a], row) == Some(x);
    assert Seek(f.names, [a], [row]) == Seek(f.names, [a, x], []);
  }

  /** The same names and routes either way. */
  lemma SamePlaces(a: string, x: string, y: string, d: RouteData, e: RouteData)
    requires x != y
    ensures TwoPlaced(a, x, y, d, e).at == TwoPlaced(a, y, x, e, d).at
    ensures PlacesTwo(a, x, y).Keys == PlacesTwo(a, y, x).Keys
  {
    assert [a, x][1] != [a, y][1];
  }

  lemma NoneTied(a: string, x: string, y: string, d: RouteData, e: RouteData)
    requires TokenPair(a, x) && TokenPair(a, y) && x != y
    ensures !FlatTied(EMPTY_FLAT, a + "." + x, d) && !FlatTied(OnePlaced(a, x, d), a + "." + y, e)
  {
    var f := OnePlaced(a, x, d);
    TwoTokens(a, y);
    assert [a, x][1] != [a, y][1];
    if Seek(f.names, [], [a, y]).Some? {
      ResolveFound(f.names, [], [a, y]);
      PairResolves(f.names, a, y);
    }
  }

  lemma PlacedInOrder(a: string, x: string, y: string, row: string, d: RouteData, e: RouteData) returns (t: Tree)
    requires TokenPair(a, x) && TokenPair(a, y) && Curly(x) && Curly(y) && x != y
    requires InstanceToken(row) && '.' !in row
    ensures Runs(EMPTY_TREE, TwoPlaces(a, x, y, d, e), t) && Inv(t) && FlatOf(t) == TwoPlaced(a, x, y, d, e)
    ensures Datas(GetTopicRoutes(t, a + "." + row)) == [d]
  {
    var ops := TwoPlaces(a, x, y, d, e);
    FirstPlaced(a, x, d);
    SecondPlaced(a, x, y, d, e);
    NoneTied(a, x, y, d, e);
    RunTwo(EMPTY_FLAT, ops[0], ops[1], OnePlaced(a, x, d), TwoPlaced(a, x, y, d, e));
    t := RunThere(ops);
    RowAtFirst(a, x, y, row, d, e);
    assert !EndsInDot(a + "." + row) by { assert (a + "." + row)[|a| + |row|] == row[|row| - 1]; }
    LookupIsFlat(t, a + "." + row);
  }

  /** The placeholder that was registered first answers for the row ids: with the two calls
      in the other order it is the other one, though names and routes are the same. */
  lemma FirstPlaceholderAnswers(a: string, x: string, y: string, row: string, d: RouteData, e: RouteData)
    returns (t: Tree, u: Tree)
    requires TokenPair(a, x) && TokenPair(a, y) && x[0] == y[0] == '{' && x != y
    requires InstanceToken(row) && '.' !in row
    ensures Runs(EMPTY_TREE, TwoPlaces(a, x, y, d, e), t) && Runs(EMPTY_TREE, TwoPlaces(a, y, x, e, d), u)
    ensures Inv(t) && Inv(u) && Routed(t.nodes) == Routed(u.nodes) && NamesOf(t.nodes).Keys == NamesOf(u.nodes).Keys
    ensures Datas(GetTopicRoutes(t, a + "." + row)) == [d] && Datas(GetTopicRoutes(u, a + "." + row)) == [e]
  {
    t := PlacedInOrder(a, x, y, row, d, e);
    u := PlacedInOrder(a, y, x, row, e, d);
    SamePlaces(a, x, y, d, e);
  }
}
