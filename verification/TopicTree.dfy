/** The routing tree of rtRoutingTree.c as a value.

    A topic is named by its path, the names of the topics from the root down to it.
    A route handle is a `RouteRef`: the caller's pointer and the serial number of the
    `rtTreeRoute` record made for it, so that a freed record and a later record for
    the same caller pointer stay different. */
module TopicTree {
  import opened Sequences
  import opened Text

  type Path = seq<string>
  type RouteData = nat

  datatype RouteRef = RouteRef(data: RouteData, serial: nat)

  /** `listed` says that the C list pointer `routeList` has been created; it stays
      true when the list becomes empty again. */
  datatype Node = Node(kids: seq<string>, listed: bool, routes: seq<RouteRef>,
                       routes2: seq<RouteRef>, isTable: bool)

  type Topics = map<Path, Node>

  /** `routeList` is the tree's own list of route records, in creation order;
      `topicsOf` gives each record's topicList. */
  datatype Tree = Tree(nodes: Topics, routeList: seq<RouteRef>,
                       topicsOf: map<RouteRef, seq<Path>>, next: nat)

  datatype Code = Ok | Duplicate

  const NEW_NODE := Node([], false, [], [], false)
  const EMPTY_TREE := Tree(map[[] := NEW_NODE], [], map[], 0)
  const ADVISORY := "_RTROUTED.ADVISORY"

  // ---------------------------------------------------------------- tokens

  /** tokenizeExpression: the pieces between dots; a final dot opens no piece. */
  function Tokenize(expr: string): seq<string> { TrimEnd(Split(expr, '.'), "") }

  predicate EndsInDot(expr: string) { expr != "" && expr[|expr| - 1] == '.' }

  predicate IsDigit(c: char) { '0' <= c <= '9' }

  /** A row id, a square-bracket alias or the wildcard. */
  predicate InstanceToken(name: string) {
    name != "" && (IsDigit(name[0]) || name[0] == '[' || name[0] == '*')
  }

  predicate Curly(name: string) { name != "" && name[0] == '{' }

  predicate Matches(kid: string, name: string) {
    kid == name || (Curly(kid) && InstanceToken(name))
  }

  // ------------------------------------------------------------- positions

  predicate Below(q: Path, p: Path) { |p| < |q| && q[..|p|] == p }

  predicate AtOrBelow(q: Path, p: Path) { |p| <= |q| && q[..|p|] == p }

  function Parent(p: Path): Path requires p != [] { p[..|p| - 1] }

  function Last(p: Path): string requires p != [] { p[|p| - 1] }

  /** `m` is a tree: rooted at [], each node listed once among its parent's kids. */
  ghost predicate Shape(m: Topics) {
    && [] in m
    && (forall p, n {:trigger n in m[p].kids} :: p in m && n in m[p].kids ==> p + [n] in m)
    && (forall p {:trigger Parent(p)} {:trigger Last(p)} ::
          p in m && p != [] ==> Parent(p) in m && Last(p) in m[Parent(p)].kids)
    && (forall p {:trigger NoDup(m[p].kids)} :: p in m ==> NoDup(m[p].kids))
  }

  // ------------------------------------------------------------ navigation

  /** The scan of getChildByName: the first child that matches. */
  function FindKid(kids: seq<string>, name: string): (r: Option<string>)
    ensures r.Some? ==> r.value in kids && Matches(r.value, name)
    ensures r.None? ==> forall k :: k in kids ==> !Matches(k, name)
  {
    if kids == [] then None
    else if Matches(kids[0], name) then Some(kids[0])
    else FindKid(kids[1..], name)
  }

  ghost function Walk(m: Topics, p: Path, tokens: seq<string>): (r: Option<Path>)
    requires Shape(m) && p in m
    ensures r.Some? ==> r.value in m && AtOrBelow(r.value, p) && |r.value| == |p| + |tokens|
    decreases |tokens|
  {
    if tokens == [] then Some(p)
    else match FindKid(m[p].kids, tokens[0])
      case None => None
      case Some(k) => Walk(m, p + [k], tokens[1..])
  }

  /** createTreeTopic. */
  function CreateKid(m: Topics, p: Path, name: string): Topics
    requires p in m
  {
    m[p := m[p].(kids := m[p].kids + [name], isTable := m[p].isTable || Curly(name))]
     [p + [name] := NEW_NODE]
  }

  datatype Walked = Walked(nodes: Topics, path: Path, created: bool)

  /** getChildByName with `create` set. */
  function EnsureKid(m: Topics, p: Path, name: string): Walked
    requires p in m
  {
    match FindKid(m[p].kids, name)
    case Some(k) => Walked(m, p + [k], false)
    case None => Walked(CreateKid(m, p, name), p + [name], true)
  }

  lemma KidListed(m: Topics, p: Path, name: string)
    requires Shape(m)
    ensures p + [name] in m ==> p in m && name in m[p].kids
  {
    assert Parent(p + [name]) == p && Last(p + [name]) == name;
  }

  lemma CreateKidNodes(m: Topics, p: Path, name: string)
    requires p in m && p + [name] !in m
    ensures var m' := CreateKid(m, p, name);
            && m'.Keys == m.Keys + {p + [name]}
            && m'[p + [name]] == NEW_NODE
            && m'[p].kids == m[p].kids + [name]
            && (forall q :: q in m && q != p ==> m'[q] == m[q])
  {
    assert p != p + [name];
  }

  lemma CreateKidShape(m: Topics, p: Path, name: string)
    requires Shape(m) && p in m && p + [name] !in m && name !in m[p].kids
    ensures Shape(CreateKid(m, p, name))
  {
    var m' := CreateKid(m, p, name);
    var c := p + [name];
    CreateKidNodes(m, p, name);
    forall q | q in m' ensures NoDup(m'[q].kids) {
      if q == p { PushNew(m[p].kids, name); }
    }
    forall q, n | q in m' && n in m'[q].kids ensures q + [n] in m' {
      if q != c && !(q == p && n == name) { assert n in m[q].kids; }
    }
    forall q | q in m' && q != [] ensures Parent(q) in m' && Last(q) in m'[Parent(q)].kids {
      if q == c {
        assert Parent(q) == p && Last(q) == name;
      } else {
        assert Parent(q) in m && Last(q) in m[Parent(q)].kids;
      }
    }
  }

  lemma EnsureKidShape(m: Topics, p: Path, name: string)
    requires Shape(m) && p in m
    ensures var w := EnsureKid(m, p, name);
            && Shape(w.nodes) && w.path in w.nodes && w.path != [] && Parent(w.path) == p
            && (forall q :: q in m ==> q in w.nodes)
  {
    if FindKid(m[p].kids, name).None? {
      assert !Matches(name, name) || name !in m[p].kids;
      KidListed(m, p, name);
      CreateKidNodes(m, p, name);
      CreateKidShape(m, p, name);
    }
  }

  /** The creating walk of AddTopicRoute; `created` is about the last token only. */
  ghost function WalkCreate(m: Topics, p: Path, tokens: seq<string>): (w: Walked)
    requires Shape(m) && p in m
    ensures Shape(w.nodes) && w.path in w.nodes && AtOrBelow(w.path, p)
    ensures |w.path| == |p| + |tokens|
    decreases |tokens|
  {
    if tokens == [] then Walked(m, p, false)
    else
      EnsureKidShape(m, p, tokens[0]);
      var w := EnsureKid(m, p, tokens[0]);
      if |tokens| == 1 then w else WalkCreate(w.nodes, w.path, tokens[1..])
  }

  // ----------------------------------------------------------- operations

  /** The record made for a caller pointer, if it is registered (getTreeRoute). */
  function FindRoute(routes: seq<RouteRef>, data: RouteData): (r: Option<RouteRef>)
    ensures r.Some? ==> r.value in routes && r.value.data == data
    ensures r.None? ==> forall h :: h in routes ==> h.data != data
  {
    if routes == [] then None
    else if routes[0].data == data then Some(routes[0])
    else FindRoute(routes[1..], data)
  }

  /** AddTopicRoute makes the record before it looks at the topic. */
  function EnsureRoute(t: Tree, data: RouteData): (r: (Tree, RouteRef)) {
    match FindRoute(t.routeList, data)
    case Some(h) => (t, h)
    case None =>
      var h := RouteRef(data, t.next);
      (t.(routeList := t.routeList + [h], topicsOf := t.topicsOf[h := []], next := t.next + 1), h)
  }

  /** Pushes the route at `p` and back-propagates it to the strict ancestors of `p`
      other than the root. */
  function AssignRoute(m: Topics, p: Path, h: RouteRef): Topics
    requires p in m
  {
    map q | q in m ::
      if q == p then m[q].(listed := true, routes := m[q].routes + [h])
      else if q != [] && Below(p, q) then m[q].(routes2 := AddOnce(m[q].routes2, h))
      else m[q]
  }

  ghost function AddTopicRoute(t: Tree, expr: string, data: RouteData, errOnDup: bool): (Tree, Code)
    requires Shape(t.nodes)
  {
    var tokens := Tokenize(expr);
    if tokens == [] then (t, Ok)
    else
      var (t1, h) := EnsureRoute(t, data);
      var w := WalkCreate(t1.nodes, [], tokens);
      if errOnDup && !w.created && w.nodes[w.path].listed && expr != ADVISORY then
        (t1.(nodes := w.nodes), Duplicate)
      else
        var topics := if h in t1.topicsOf then t1.topicsOf[h] else [];
        (t1.(nodes := AssignRoute(w.nodes, w.path, h),
             topicsOf := t1.topicsOf[h := AddOnce(topics, w.path)]), Ok)
  }

  /** Some topic at or below `p` keeps a route once `h` is dropped. */
  ghost predicate Alive(m: Topics, p: Path, h: RouteRef) {
    exists q :: q in m && AtOrBelow(q, p) && RemoveFirst(m[q].routes, h) != []
  }

  ghost function AliveKids(m: Topics, p: Path, kids: seq<string>, h: RouteRef): (r: seq<string>)
    ensures forall k {:trigger k in r} :: k in r <==> k in kids && Alive(m, p + [k], h)
    ensures NoDup(kids) ==> NoDup(r)
  {
    if kids == [] then []
    else
      NoDupTail(kids);
      assert forall k :: k in kids <==> k == kids[0] || k in kids[1..];
      var rest := AliveKids(m, p, kids[1..], h);
      assert NoDup(kids) ==> kids[0] !in rest;
      if Alive(m, p + [kids[0]], h) then [kids[0]] + rest else rest
  }

  function DropFrom(n: Node, h: RouteRef): Node {
    n.(routes := RemoveFirst(n.routes, h), routes2 := RemoveFirst(n.routes2, h))
  }

  /** removeRouteFromTopicTree started at `p`: below `p` the route is taken out of both
      lists and whatever is not alive without it is pruned; `p` itself only loses kids. */
  ghost function Prune(m: Topics, p: Path, h: RouteRef): Topics
  {
    map q | q in m && (Below(q, p) ==> Alive(m, q, h)) ::
      if Below(q, p) then DropFrom(m[q], h).(kids := AliveKids(m, q, m[q].kids, h))
      else if q == p then m[q].(kids := AliveKids(m, q, m[q].kids, h))
      else m[q]
  }

  ghost function RemoveRoute(t: Tree, data: RouteData): Tree {
    match FindRoute(t.routeList, data)
    case None => t
    case Some(h) =>
      t.(nodes := Prune(t.nodes, [], h),
         routeList := RemoveFirst(t.routeList, h), topicsOf := t.topicsOf - {h})
  }

  /** The topics of a list that are not at or below `q`. */
  function Outside(topics: seq<Path>, q: Path): (r: seq<Path>)
    ensures forall p :: p in r <==> p in topics && !AtOrBelow(p, q)
    ensures NoDup(topics) ==> NoDup(r)
  {
    if topics == [] then []
    else
      NoDupTail(topics);
      var rest := Outside(topics[1..], q);
      if AtOrBelow(topics[0], q) then rest else [topics[0]] + rest
  }

  /** A record survives removeTopicFromRoutes unless its topic list has just run empty. */
  predicate Survives(topics: seq<Path>, q: Path) {
    Outside(topics, q) != [] || topics == []
  }

  function Surviving(routes: seq<RouteRef>, topicsOf: map<RouteRef, seq<Path>>, q: Path): (r: seq<RouteRef>)
    ensures forall h :: h in r <==> h in routes && h in topicsOf && Survives(topicsOf[h], q)
    ensures NoDup(routes) ==> NoDup(r)
  {
    if routes == [] then []
    else
      NoDupTail(routes);
      var rest := Surviving(routes[1..], topicsOf, q);
      if routes[0] in topicsOf && Survives(topicsOf[routes[0]], q) then [routes[0]] + rest else rest
  }

  /** Takes the subtree of child `name` of `p` away. Ancestors' routes2 stay as they are. */
  function Cut(t: Tree, p: Path, name: string): Tree
    requires p in t.nodes
  {
    var q := p + [name];
    Tree(map x | x in t.nodes && !AtOrBelow(x, q) ::
           if x == p then t.nodes[x].(kids := RemoveFirst(t.nodes[x].kids, name)) else t.nodes[x],
         Surviving(t.routeList, t.topicsOf, q),
         map h | h in t.topicsOf && Survives(t.topicsOf[h], q) :: Outside(t.topicsOf[h], q),
         t.next)
  }

  /** The parent of the topic that RemoveTopic takes away: the last token has to be an
      exact match and the first match of the scan. */
  ghost function CutPoint(t: Tree, expr: string): (r: Option<Path>)
    requires Shape(t.nodes)
    ensures r.Some? ==> r.value in t.nodes && Tokenize(expr) != []
    ensures r.Some? ==> Last(Tokenize(expr)) in t.nodes[r.value].kids
  {
    var tokens := Tokenize(expr);
    if tokens == [] then None
    else match Walk(t.nodes, [], Parent(tokens))
      case None => None
      case Some(p) =>
        if FindKid(t.nodes[p].kids, Last(tokens)) == Some(Last(tokens)) then Some(p) else None
  }

  ghost function RemoveTopic(t: Tree, expr: string): Tree
    requires Shape(t.nodes)
  {
    match CutPoint(t, expr)
    case None => t
    case Some(p) => Cut(t, p, Last(Tokenize(expr)))
  }

  // -------------------------------------------------------------- queries

  /** The topic an expression leads to. */
  ghost function Locate(m: Topics, expr: string): (r: Option<Path>)
    requires Shape(m)
    ensures r.Some? ==> r.value in m
  {
    if Tokenize(expr) == [] then None else Walk(m, [], Tokenize(expr))
  }

  /** What GetTopicRoutes reads off the topic it has reached: a partial path answers with
      the index, a table for its "{i}" row, any other topic for itself. */
  ghost function Answer(m: Topics, p: Path, partial: bool): seq<RouteRef>
    requires Shape(m) && p in m
  {
    if partial then m[p].routes2
    else if m[p].isTable then
      match FindKid(m[p].kids, "{i}")
      case Some(k) => m[p + [k]].routes
      case None => []
    else m[p].routes
  }

  /** The list GetTopicRoutes hands out; an absent C list counts as empty. */
  ghost function GetTopicRoutes(t: Tree, expr: string): seq<RouteRef>
    requires Shape(t.nodes)
  {
    match Locate(t.nodes, expr)
    case None => []
    case Some(p) => Answer(t.nodes, p, EndsInDot(expr))
  }

  function FullName(p: Path): string { Join(p, '.') }

  /** The full name of the first topic of each route. */
  function FirstNames(t: Tree, hs: seq<RouteRef>): (r: seq<string>)
    requires forall h :: h in hs ==> h in t.topicsOf && t.topicsOf[h] != []
    ensures |r| == |hs|
    ensures forall i :: 0 <= i < |hs| ==> r[i] == FullName(t.topicsOf[hs[i]][0])
  {
    if hs == [] then [] else [FullName(t.topicsOf[hs[0]][0])] + FirstNames(t, hs[1..])
  }

  /** The routes ResolvePartialPath goes through. */
  ghost function PartialRoutes(t: Tree, expr: string): seq<RouteRef>
    requires Shape(t.nodes)
  {
    match Locate(t.nodes, expr)
    case None => []
    case Some(p) => t.nodes[p].routes2
  }
}
