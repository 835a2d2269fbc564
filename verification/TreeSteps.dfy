/** The step-by-step forms of the tree operations, as the C code takes the steps, and
    the proofs that the steps add up to the operations of TopicTree. */
module TreeSteps {
  import opened Sequences
  import opened TopicTree
  import opened TreeInvariant

  // ------------------------------------------------------------ propagation

  function AddToIndex(n: Node, h: RouteRef): Node { n.(routes2 := AddOnce(n.routes2, h)) }

  /** optimizeTopicsBackpropagate from `q` upwards. */
  function Propagate(m: Topics, q: Path, h: RouteRef): Topics {
    map x | x in m :: if x != [] && AtOrBelow(q, x) then AddToIndex(m[x], h) else m[x]
  }

  lemma PropagateStep(m: Topics, q: Path, h: RouteRef)
    requires q in m && q != []
    ensures var m1 := m[q := AddToIndex(m[q], h)];
            Propagate(m, q, h) == if |q| > 1 then Propagate(m1, Parent(q), h) else m1
  {
    var m1 := m[q := AddToIndex(m[q], h)];
    forall x | x in m && x != q ensures AtOrBelow(q, x) <==> AtOrBelow(Parent(q), x) {
      if AtOrBelow(q, x) {
        assert q[..|q|] == q;
        assert Parent(q)[..|x|] == q[..|x|];
      }
      if AtOrBelow(Parent(q), x) { assert Parent(q)[..|x|] == q[..|x|]; }
    }
    assert !AtOrBelow(Parent(q), q);
  }

  lemma AssignInSteps(m: Topics, p: Path, h: RouteRef)
    requires p in m && p != []
    ensures var m1 := m[p := m[p].(listed := true, routes := m[p].routes + [h])];
            AssignRoute(m, p, h) == if |p| > 1 then Propagate(m1, Parent(p), h) else m1
  {
    forall x | x in m && x != p ensures Below(p, x) <==> AtOrBelow(Parent(p), x) {
      if Below(p, x) { assert Parent(p)[..|x|] == p[..|x|]; }
      if AtOrBelow(Parent(p), x) { assert Parent(p)[..|x|] == p[..|x|]; }
    }
    assert !AtOrBelow(Parent(p), p);
  }

  // ---------------------------------------------------------------- pruning

  /** Below `p`, under one of the kids in `done`. */
  predicate UnderSome(q: Path, p: Path, done: seq<string>) {
    Below(q, p) && q[|p|] in done
  }

  /** removeRouteFromTopicTree at `p`, with the kids `done` behind it and `todo` ahead. */
  ghost function PruneSome(m: Topics, p: Path, done: seq<string>, todo: seq<string>, h: RouteRef): Topics {
    map q | q in m && (UnderSome(q, p, done) ==> Alive(m, q, h)) ::
      if UnderSome(q, p, done) then DropFrom(m[q], h).(kids := AliveKids(m, q, m[q].kids, h))
      else if q == p then m[q].(kids := AliveKids(m, p, done, h) + todo)
      else m[q]
  }

  lemma PruneNone(m: Topics, p: Path, h: RouteRef)
    requires p in m
    ensures PruneSome(m, p, [], m[p].kids, h) == m
  {
    assert AliveKids(m, p, [], h) + m[p].kids == m[p].kids;
    assert m[p].(kids := m[p].kids) == m[p];
  }

  lemma PruneAll(m: Topics, p: Path, h: RouteRef)
    requires Shape(m) && p in m
    ensures PruneSome(m, p, m[p].kids, [], h) == Prune(m, p, h)
  {
    forall q | q in m && Below(q, p) ensures UnderSome(q, p, m[p].kids) {
      var c := q[..|p| + 1];
      assert AtOrBelow(q, c) && c == p + [q[|p|]];
      PrefixesPresent(m, q, c);
      KidListed(m, p, q[|p|]);
    }
    assert AliveKids(m, p, m[p].kids, h) + [] == AliveKids(m, p, m[p].kids, h);
  }

  /** What happens to kid `c` of `p` once the recursion has come back from it. */
  function FinishKid(m: Topics, p: Path, c: Path, before: seq<string>, h: RouteRef): Topics
    requires p in m && c in m && p != c
  {
    var n := DropFrom(m[c], h);
    if n.kids == [] && n.routes == [] then
      (m - {c})[p := m[p].(kids := before + m[p].kids[if |before| < |m[p].kids| then |before| + 1 else |m[p].kids|..])]
    else m[c := n]
  }

  lemma {:induction false} AliveKidsSame(m: Topics, m': Topics, p: Path, kids: seq<string>, h: RouteRef)
    requires forall k :: k in kids ==> (Alive(m, p + [k], h) <==> Alive(m', p + [k], h))
    ensures AliveKids(m, p, kids, h) == AliveKids(m', p, kids, h)
  {
    if kids == [] {
    } else {
      AliveKidsSame(m, m', p, kids[1..], h);
    }
  }

  lemma {:induction false} AliveKidsSnoc(m: Topics, p: Path, kids: seq<string>, k: string, h: RouteRef)
    ensures AliveKids(m, p, kids + [k], h) == AliveKids(m, p, kids, h) + (if Alive(m, p + [k], h) then [k] else [])
  {
    if kids == [] {
      assert [] + [k] == [k] && [k][1..] == [];
    } else {
      assert (kids + [k])[1..] == kids[1..] + [k];
      AliveKidsSnoc(m, p, kids[1..], k, h);
    }
  }

  /** The subtree at kid `k` is still as it was when its turn comes. */
  lemma KidUntouched(m: Topics, p: Path, done: seq<string>, todo: seq<string>, k: string, h: RouteRef, q: Path)
    requires k !in done && AtOrBelow(q, p + [k])
    ensures var mi := PruneSome(m, p, done, todo, h);
            && (q in mi <==> q in m) && (q in m ==> mi[q] == m[q])
  {
    assert q[|p|] == (p + [k])[|p|] == k;
  }

  lemma KidAlive(m: Topics, p: Path, done: seq<string>, todo: seq<string>, k: string, h: RouteRef, q: Path)
    requires k !in done && AtOrBelow(q, p + [k])
    ensures Alive(PruneSome(m, p, done, todo, h), q, h) <==> Alive(m, q, h)
  {
    var mi := PruneSome(m, p, done, todo, h);
    forall x | AtOrBelow(x, q) ensures (x in mi <==> x in m) && (x in m ==> mi[x] == m[x]) {
      assert AtOrBelow(x, p + [k]) by {
        assert x[..|p| + 1] == x[..|q|][..|p| + 1] == q[..|p| + 1];
      }
      KidUntouched(m, p, done, todo, k, h, x);
    }
  }

  /** What PruneSome makes of the topic at `q`. */
  ghost predicate SomeAt(m: Topics, p: Path, done: seq<string>, todo: seq<string>, h: RouteRef, g: Topics, q: Path) {
    && (q in g <==> q in m && (UnderSome(q, p, done) ==> Alive(m, q, h)))
    && (q in g ==>
          g[q] == if UnderSome(q, p, done) then DropFrom(m[q], h).(kids := AliveKids(m, q, m[q].kids, h))
                  else if q == p then m[q].(kids := AliveKids(m, p, done, h) + todo)
                  else m[q])
  }

  lemma PruneSomeAt(m: Topics, p: Path, done: seq<string>, todo: seq<string>, h: RouteRef, q: Path)
    ensures SomeAt(m, p, done, todo, h, PruneSome(m, p, done, todo, h), q)
  {}

  /** The topic at `q` when the recursion for kid `c` has turned `mi` into `m1`. */
  ghost predicate KidPrunedAt(m: Topics, c: Path, h: RouteRef, mi: Topics, m1: Topics, q: Path) {
    && (q in m1 <==> q in mi && (Below(q, c) ==> Alive(m, q, h)))
    && (q in m1 && Below(q, c) ==> q in m && m1[q] == DropFrom(m[q], h).(kids := AliveKids(m, q, m[q].kids, h)))
    && (q in m1 && q == c ==> q in m && m1[q] == m[q].(kids := AliveKids(m, q, m[q].kids, h)))
    && (q in m1 && !AtOrBelow(q, c) ==> m1[q] == mi[q])
  }

  lemma KidPruned(m: Topics, p: Path, done: seq<string>, todo: seq<string>, k: string, h: RouteRef, q: Path)
    requires k !in done
    ensures var mi := PruneSome(m, p, done, todo, h);
            KidPrunedAt(m, p + [k], h, mi, Prune(mi, p + [k], h), q)
  {
    var mi, c := PruneSome(m, p, done, todo, h), p + [k];
    if AtOrBelow(q, c) && q in mi {
      KidUntouched(m, p, done, todo, k, h, q);
      KidAlive(m, p, done, todo, k, h, q);
      forall n | n in m[q].kids ensures Alive(mi, q + [n], h) <==> Alive(m, q + [n], h) {
        assert AtOrBelow(q + [n], c) by { assert (q + [n])[..|c|] == q[..|c|]; }
        KidAlive(m, p, done, todo, k, h, q + [n]);
      }
      AliveKidsSame(m, mi, q, m[q].kids, h);
    }
  }

  /** A topic without routes of its own is alive through one of its kids. */
  lemma AliveThroughKid(m: Topics, c: Path, h: RouteRef)
    requires Shape(m) && c in m && Alive(m, c, h) && RemoveFirst(m[c].routes, h) == []
    ensures AliveKids(m, c, m[c].kids, h) != []
  {
    var q :| q in m && AtOrBelow(q, c) && RemoveFirst(m[q].routes, h) != [];
    assert q[..|q|] == q && q != c;
    var k := q[|c|];
    TakeNext(q, |c|);
    assert AtOrBelow(q, c + [k]);
    PrefixesPresent(m, q, c + [k]);
    KidListed(m, c, k);
    assert k in AliveKids(m, c, m[c].kids, h);
  }

  lemma AliveFromKid(m: Topics, c: Path, k: string, h: RouteRef)
    requires Alive(m, c + [k], h)
    ensures Alive(m, c, h)
  {
    assert Parent(c + [k]) == c;
    AliveUp(m, c + [k], h);
  }

  lemma AliveNode(m: Topics, c: Path, h: RouteRef)
    requires Shape(m) && c in m
    ensures Alive(m, c, h) <==> AliveKids(m, c, m[c].kids, h) != [] || RemoveFirst(m[c].routes, h) != []
  {
    var kids := AliveKids(m, c, m[c].kids, h);
    if RemoveFirst(m[c].routes, h) != [] {
      assert AtOrBelow(c, c);
    } else if kids != [] {
      assert kids[0] in kids;
      AliveFromKid(m, c, kids[0], h);
    } else if Alive(m, c, h) {
      AliveThroughKid(m, c, h);
    }
  }

  /** One round of the loop in removeRouteFromTopicTree: the recursion turns the tree
      into `m1`, and FinishKid completes the round. */
  lemma PruneSomeStep(m: Topics, p: Path, done: seq<string>, k: string, todo: seq<string>, h: RouteRef, m1: Topics)
    requires Shape(m) && p in m && m[p].kids == done + [k] + todo
    requires m1 == Prune(PruneSome(m, p, done, [k] + todo, h), p + [k], h)
    ensures p in m1 && p + [k] in m1 && p != p + [k]
    ensures m1[p].kids == AliveKids(m, p, done, h) + [k] + todo
    ensures FinishKid(m1, p, p + [k], AliveKids(m, p, done, h), h) == PruneSome(m, p, done + [k], todo, h)
  {
    var c := p + [k];
    assert k !in done && k in m[p].kids && c in m by {
      assert NoDup(m[p].kids) && m[p].kids[|done|] == k;
      assert forall i :: 0 <= i < |done| ==> m[p].kids[i] == done[i];
    }
    var mi := PruneSome(m, p, done, [k] + todo, h);
    KidPruned(m, p, done, [k] + todo, k, h, c);
    KidPruned(m, p, done, [k] + todo, k, h, p);
    PruneSomeAt(m, p, done, [k] + todo, h, c);
    PruneSomeAt(m, p, done, [k] + todo, h, p);
    assert AtOrBelow(c, c) && !AtOrBelow(p, c);
    KidUntouched(m, p, done, [k] + todo, k, h, c);
    MoveHead(AliveKids(m, p, done, h), k, todo);
    AliveNode(m, c, h);
    AliveKidsSnoc(m, p, done, k, h);
    var f, g := FinishKid(m1, p, c, AliveKids(m, p, done, h), h), PruneSome(m, p, done + [k], todo, h);
    forall q ensures SameAt(f, g, q) {
      KidPruned(m, p, done, [k] + todo, k, h, q);
      PruneSomeAt(m, p, done, [k] + todo, h, q);
      PruneSomeAt(m, p, done + [k], todo, h, q);
      FinishKidAt(m1, p, c, AliveKids(m, p, done, h), h, q);
      FinishAt(m, p, done, k, todo, h, mi, m1, f, g, q);
    }
    SameEverywhere(f, g);
  }

  ghost predicate SameAt(f: Topics, g: Topics, q: Path) {
    (q in f <==> q in g) && (q in f ==> f[q] == g[q])
  }

  lemma SameEverywhere(f: Topics, g: Topics)
    requires forall q :: SameAt(f, g, q)
    ensures f == g
  {
    assert forall q :: SameAt(f, g, q) ==> (q in f <==> q in g);
  }

  lemma UnderSomeSnoc(q: Path, p: Path, done: seq<string>, k: string)
    ensures UnderSome(q, p, done + [k]) <==> UnderSome(q, p, done) || AtOrBelow(q, p + [k])
  {
    var c := p + [k];
    if Below(q, p) { assert q[..|c|] == q[..|p|] + [q[|p|]]; }
    if AtOrBelow(q, c) { assert q[..|c|][..|p|] == q[..|p|] && q[|p|] == q[..|c|][|p|]; }
  }

  /** What FinishKid makes of the topic at `q`. */
  ghost predicate FinishedAt(m: Topics, p: Path, c: Path, before: seq<string>, h: RouteRef, f: Topics, q: Path)
    requires p in m && c in m
  {
    var n := DropFrom(m[c], h);
    if n.kids == [] && n.routes == [] then
      && (q in f <==> q in m && q != c)
      && (q in f && q == p ==>
            f[q] == m[p].(kids := before + if |before| < |m[p].kids| then m[p].kids[|before| + 1..] else []))
      && (q in f && q != p ==> f[q] == m[q])
    else (q in f <==> q in m) && (q in f ==> f[q] == if q == c then n else m[q])
  }

  lemma FinishKidAt(m: Topics, p: Path, c: Path, before: seq<string>, h: RouteRef, q: Path)
    requires p in m && c in m && p != c
    ensures FinishedAt(m, p, c, before, h, FinishKid(m, p, c, before, h), q)
  {}

  /** What is known of the topic at `q` during a round. */
  ghost predicate PointAt(m: Topics, p: Path, done: seq<string>, k: string, todo: seq<string>, h: RouteRef,
                          mi: Topics, m1: Topics, q: Path)
  {
    SomeAt(m, p, done, [k] + todo, h, mi, q) && KidPrunedAt(m, p + [k], h, mi, m1, q)
  }

  /** What a round of the loop is about to finish. */
  ghost predicate Round(m: Topics, p: Path, done: seq<string>, k: string, todo: seq<string>, h: RouteRef,
                        mi: Topics, m1: Topics)
  {
    var c, before := p + [k], AliveKids(m, p, done, h);
    && p in m && c in m && p in m1 && c in m1 && p != c && k !in done
    && PointAt(m, p, done, k, todo, h, mi, m1, p) && PointAt(m, p, done, k, todo, h, mi, m1, c)
    && m1[p].kids == before + [k] + todo
    && (Alive(m, c, h) <==> AliveKids(m, c, m[c].kids, h) != [] || RemoveFirst(m[c].routes, h) != [])
    && AliveKids(m, p, done + [k], h) == before + (if Alive(m, c, h) then [k] else [])
  }

  /** The topic at `q` is to come out alike: `f` finishes the round, `g` is the next PruneSome. */
  ghost predicate Finishing(m: Topics, p: Path, done: seq<string>, k: string, todo: seq<string>, h: RouteRef,
                            mi: Topics, m1: Topics, f: Topics, g: Topics, q: Path)
  {
    && Round(m, p, done, k, todo, h, mi, m1) && PointAt(m, p, done, k, todo, h, mi, m1, q)
    && FinishedAt(m1, p, p + [k], AliveKids(m, p, done, h), h, f, q)
    && SomeAt(m, p, done + [k], todo, h, g, q)
  }

  lemma FinishParent(m: Topics, p: Path, done: seq<string>, k: string, todo: seq<string>, h: RouteRef,
                     mi: Topics, m1: Topics, f: Topics, g: Topics)
    requires Finishing(m, p, done, k, todo, h, mi, m1, f, g, p)
    ensures SameAt(f, g, p)
  {
    var before := AliveKids(m, p, done, h);
    assert !UnderSome(p, p, done + [k]) && !AtOrBelow(p, p + [k]);
    assert (before + [k] + todo)[|before| + 1..] == todo;
  }

  lemma FinishItself(m: Topics, p: Path, done: seq<string>, k: string, todo: seq<string>, h: RouteRef,
                     mi: Topics, m1: Topics, f: Topics, g: Topics)
    requires Finishing(m, p, done, k, todo, h, mi, m1, f, g, p + [k])
    ensures SameAt(f, g, p + [k])
  {
    var c := p + [k];
    UnderSomeSnoc(c, p, done, k);
    assert AtOrBelow(c, c) && !Below(c, c);
  }

  lemma FinishBelow(m: Topics, p: Path, done: seq<string>, k: string, todo: seq<string>, h: RouteRef,
                    mi: Topics, m1: Topics, f: Topics, g: Topics, q: Path)
    requires Finishing(m, p, done, k, todo, h, mi, m1, f, g, q) && Below(q, p + [k])
    ensures SameAt(f, g, q)
  {
    UnderSomeSnoc(q, p, done, k);
    assert q[|p|] == (p + [k])[|p|] == k;
  }

  lemma FinishElsewhere(m: Topics, p: Path, done: seq<string>, k: string, todo: seq<string>, h: RouteRef,
                        mi: Topics, m1: Topics, f: Topics, g: Topics, q: Path)
    requires Finishing(m, p, done, k, todo, h, mi, m1, f, g, q) && q != p && !AtOrBelow(q, p + [k])
    ensures SameAt(f, g, q)
  {
    UnderSomeSnoc(q, p, done, k);
    assert q != p + [k];
  }

  lemma FinishAt(m: Topics, p: Path, done: seq<string>, k: string, todo: seq<string>, h: RouteRef,
                 mi: Topics, m1: Topics, f: Topics, g: Topics, q: Path)
    requires Finishing(m, p, done, k, todo, h, mi, m1, f, g, q)
    ensures SameAt(f, g, q)
  {
    if q == p {
      FinishParent(m, p, done, k, todo, h, mi, m1, f, g);
    } else if q == p + [k] {
      FinishItself(m, p, done, k, todo, h, mi, m1, f, g);
    } else if AtOrBelow(q, p + [k]) {
      assert q[..|q|] == q;
      FinishBelow(m, p, done, k, todo, h, mi, m1, f, g, q);
    } else {
      FinishElsewhere(m, p, done, k, todo, h, mi, m1, f, g, q);
    }
  }

  lemma UnderSomeParent(x: Path, p: Path, done: seq<string>)
    requires x != []
    ensures UnderSome(x, p, done) <==> (Parent(x) == p && Last(x) in done) || UnderSome(Parent(x), p, done)
  {
    if Parent(x) == p { assert x == p + [Last(x)]; }
    if UnderSome(x, p, done) && |x| > |p| + 1 {
      assert Parent(x)[..|p|] == x[..|p|] && Parent(x)[|p|] == x[|p|];
    }
    if UnderSome(Parent(x), p, done) {
      assert Parent(x)[..|p|] == x[..|p|] && Parent(x)[|p|] == x[|p|];
    }
    if UnderSome(x, p, done) && |x| == |p| + 1 { assert Parent(x) == x[..|p|]; }
  }

  /** The tree is well shaped between two rounds too. */
  lemma PruneSomeShape(m: Topics, p: Path, done: seq<string>, todo: seq<string>, h: RouteRef)
    requires Shape(m) && p in m && m[p].kids == done + todo
    ensures Shape(PruneSome(m, p, done, todo, h))
  {
    var m' := PruneSome(m, p, done, todo, h);
    assert !UnderSome([], p, done);
    forall x, n | x in m' && n in m'[x].kids ensures x + [n] in m' {
      PruneSomeKid(m, p, done, todo, h, x, n);
    }
    forall x | x in m' && x != [] ensures Parent(x) in m' && Last(x) in m'[Parent(x)].kids {
      PruneSomeParent(m, p, done, todo, h, x);
    }
    forall x | x in m' ensures NoDup(m'[x].kids) {
      PruneSomeNoDup(m, p, done, todo, h, x);
    }
  }

  lemma DoneTodoApart(done: seq<string>, todo: seq<string>)
    requires NoDup(done + todo)
    ensures NoDup(done) && NoDup(todo) && forall n :: n in todo ==> n !in done
  {
    var s := done + todo;
    assert forall i :: 0 <= i < |done| ==> s[i] == done[i];
    assert forall i :: 0 <= i < |todo| ==> s[|done| + i] == todo[i];
  }

  lemma PruneSomeNoDup(m: Topics, p: Path, done: seq<string>, todo: seq<string>, h: RouteRef, x: Path)
    requires Shape(m) && p in m && m[p].kids == done + todo && x in PruneSome(m, p, done, todo, h)
    ensures NoDup(PruneSome(m, p, done, todo, h)[x].kids)
  {
    assert NoDup(m[x].kids);
    if x == p {
      DoneTodoApart(done, todo);
      var a := AliveKids(m, p, done, h);
      assert forall n :: n in a ==> n in done;
      assert forall i, j :: 0 <= i < |a| && 0 <= j < |todo| ==> a[i] in a && todo[j] in todo;
    }
  }

  lemma PruneSomeKid(m: Topics, p: Path, done: seq<string>, todo: seq<string>, h: RouteRef, x: Path, n: string)
    requires Shape(m) && p in m && m[p].kids == done + todo
    requires var m' := PruneSome(m, p, done, todo, h); x in m' && n in m'[x].kids
    ensures x + [n] in PruneSome(m, p, done, todo, h)
  {
    assert Parent(x + [n]) == x && Last(x + [n]) == n;
    UnderSomeParent(x + [n], p, done);
    assert NoDup(m[p].kids);
    DoneTodoApart(done, todo);
    assert n in m[x].kids;
  }

  lemma PruneSomeParent(m: Topics, p: Path, done: seq<string>, todo: seq<string>, h: RouteRef, x: Path)
    requires Shape(m) && p in m && m[p].kids == done + todo
    requires x in PruneSome(m, p, done, todo, h) && x != []
    ensures var m' := PruneSome(m, p, done, todo, h); Parent(x) in m' && Last(x) in m'[Parent(x)].kids
  {
    PruneSomeAt(m, p, done, todo, h, x);
    PruneSomeAt(m, p, done, todo, h, Parent(x));
    SomeParent(m, p, done, todo, h, PruneSome(m, p, done, todo, h), x);
  }

  lemma SomeParent(m: Topics, p: Path, done: seq<string>, todo: seq<string>, h: RouteRef, g: Topics, x: Path)
    requires Shape(m) && p in m && m[p].kids == done + todo && x in g && x != []
    requires SomeAt(m, p, done, todo, h, g, x) && SomeAt(m, p, done, todo, h, g, Parent(x))
    ensures Parent(x) in g && Last(x) in g[Parent(x)].kids
  {
    var q, n := Parent(x), Last(x);
    UnderSomeParent(x, p, done);
    assert q in m && n in m[q].kids && q + [n] == x;
    if UnderSome(x, p, done) {
      AliveUp(m, x, h);
      if q == p && n in done {
        assert n in AliveKids(m, p, done, h);
      } else {
        assert n in AliveKids(m, q, m[q].kids, h);
      }
    }
  }

  // ---------------------------------------------------------- route records

  /** The tree's list of route records and each record's topics. */
  datatype Records = Records(list: seq<RouteRef>, topics: map<RouteRef, seq<Path>>)

  function RecordsOf(t: Tree): Records { Records(t.routeList, t.topicsOf) }

  /** The body of the loop in removeTopicFromRoutes: topic `p` leaves the topic list of
      `h`, and the record goes when that list is empty. */
  function DropPair(r: Records, p: Path, h: RouteRef): Records {
    if h !in r.topics then r
    else
      var ts := RemoveFirst(r.topics[h], p);
      if ts == [] then Records(RemoveFirst(r.list, h), r.topics - {h})
      else Records(r.list, r.topics[h := ts])
  }

  function DropPairs(r: Records, p: Path, hs: seq<RouteRef>): Records
    decreases |hs|
  {
    if hs == [] then r else DropPairs(DropPair(r, p, hs[0]), p, hs[1..])
  }

  /** The topics of a list that are not in `gone`. */
  ghost function Minus(topics: seq<Path>, gone: set<Path>): (r: seq<Path>)
    ensures forall p :: p in r <==> p in topics && p !in gone
    ensures NoDup(topics) ==> NoDup(r)
  {
    if topics == [] then []
    else
      NoDupTail(topics);
      var rest := Minus(topics[1..], gone);
      if topics[0] in gone then rest else [topics[0]] + rest
  }

  /** The record keeps a topic, or had none to begin with. */
  ghost predicate Stays(r: Records, h: RouteRef, gone: set<Path>) {
    h in r.topics && (Minus(r.topics[h], gone) != [] || r.topics[h] == [])
  }

  ghost function Staying(list: seq<RouteRef>, r: Records, gone: set<Path>): (s: seq<RouteRef>)
    ensures forall h :: h in s <==> h in list && Stays(r, h, gone)
  {
    if list == [] then []
    else if Stays(r, list[0], gone) then [list[0]] + Staying(list[1..], r, gone)
    else Staying(list[1..], r, gone)
  }

  /** All topics in `gone` leave all topic lists; records that run empty go. */
  ghost function DropGone(r: Records, gone: set<Path>): Records {
    Records(Staying(r.list, r, gone),
            map h | h in r.topics && Stays(r, h, gone) :: Minus(r.topics[h], gone))
  }

  lemma {:induction false} MinusNone(topics: seq<Path>, gone: set<Path>)
    requires forall p :: p in topics ==> p !in gone
    ensures Minus(topics, gone) == topics
  {
    if topics == [] {
    } else {
      MinusNone(topics[1..], gone);
    }
  }

  lemma {:induction false} MinusMinus(topics: seq<Path>, a: set<Path>, b: set<Path>)
    ensures Minus(Minus(topics, a), b) == Minus(topics, a + b)
  {
    if topics == [] {
    } else {
      MinusMinus(topics[1..], a, b);
      var rest := Minus(topics[1..], a);
      assert ([topics[0]] + rest)[1..] == rest;
    }
  }

  lemma {:induction false} RemoveFirstIsMinus(topics: seq<Path>, p: Path)
    requires NoDup(topics)
    ensures RemoveFirst(topics, p) == Minus(topics, {p})
  {
    if topics == [] {
    } else {
      RemoveFirstCons(topics, p);
      NoDupTail(topics);
      if topics[0] == p {
        MinusNone(topics[1..], {p});
      } else {
        RemoveFirstIsMinus(topics[1..], p);
      }
    }
  }

  lemma StaysStays(r: Records, a: set<Path>, b: set<Path>, h: RouteRef)
    ensures Stays(DropGone(r, a), h, b) <==> Stays(r, h, a + b)
  {
    if h in r.topics {
      MinusMinus(r.topics[h], a, b);
    }
  }

  lemma {:induction false} StayingStaying(list: seq<RouteRef>, r: Records, a: set<Path>, b: set<Path>)
    ensures Staying(Staying(list, r, a), DropGone(r, a), b) == Staying(list, r, a + b)
  {
    if list == [] {
    } else {
      StayingStaying(list[1..], r, a, b);
      StaysStays(r, a, b, list[0]);
      var rest := Staying(list[1..], r, a);
      assert ([list[0]] + rest)[1..] == rest;
      if list[0] in r.topics { MinusMinus(r.topics[list[0]], a, b); }
    }
  }

  lemma DropGoneTwice(r: Records, a: set<Path>, b: set<Path>)
    ensures DropGone(DropGone(r, a), b) == DropGone(r, a + b)
  {
    StayingStaying(r.list, r, a, b);
    var x, y := DropGone(DropGone(r, a), b).topics, DropGone(r, a + b).topics;
    forall h ensures (h in x <==> h in y) && (h in x ==> x[h] == y[h]) {
      StaysStays(r, a, b, h);
      if h in r.topics { MinusMinus(r.topics[h], a, b); }
    }
    assert x == y;
  }

  ghost predicate TidyRecords(r: Records) {
    && NoDup(r.list)
    && (forall h :: h in r.list <==> h in r.topics)
    && (forall h :: h in r.topics ==> NoDup(r.topics[h]))
  }

  lemma {:induction false} StayingAll(list: seq<RouteRef>, r: Records, gone: set<Path>)
    requires forall h :: h in list ==> Stays(r, h, gone)
    ensures Staying(list, r, gone) == list
  {
    if list == [] {
    } else {
      StayingAll(list[1..], r, gone);
    }
  }

  lemma DropPairTidy(r: Records, p: Path, h: RouteRef)
    requires TidyRecords(r)
    ensures TidyRecords(DropPair(r, p, h))
  {
    if h in r.topics {
      RemoveFirstNoDup(r.topics[h], p);
      RemoveFirstNoDup(r.list, h);
    }
  }

  /** Dropping `p` from the routes `hs`, which are all the routes that list it. */
  lemma {:induction false} DropPairsAll(r: Records, p: Path, hs: seq<RouteRef>)
    requires TidyRecords(r) && NoDup(hs)
    requires forall h :: h in hs <==> h in r.topics && p in r.topics[h]
    ensures DropPairs(r, p, hs) == DropGone(r, {p})
    ensures TidyRecords(DropPairs(r, p, hs))
    decreases |hs|
  {
    if hs == [] {
      forall h | h in r.topics ensures Minus(r.topics[h], {p}) == r.topics[h] {
        MinusNone(r.topics[h], {p});
      }
      StayingAll(r.list, r, {p});
      assert DropGone(r, {p}).topics == r.topics;
    } else {
      DropPairTidy(r, p, hs[0]);
      NoDupTail(hs);
      var r1 := DropPair(r, p, hs[0]);
      RemoveFirstNoDup(r.topics[hs[0]], p);
      assert hs[0] in hs;
      forall h ensures h in hs[1..] <==> h in r1.topics && p in r1.topics[h] {
        assert h in hs <==> h == hs[0] || h in hs[1..];
      }
      DropPairsAll(r1, p, hs[1..]);
      DropPairThenGone(r, p, hs[0]);
    }
  }

  lemma {:induction false} StayingSame(list: seq<RouteRef>, r: Records, r': Records, gone: set<Path>)
    requires forall h :: h in list ==> (Stays(r, h, gone) <==> Stays(r', h, gone))
    ensures Staying(list, r, gone) == Staying(list, r', gone)
  {
    if list == [] {
    } else {
      StayingSame(list[1..], r, r', gone);
    }
  }

  lemma {:induction false} StayingWithout(list: seq<RouteRef>, r: Records, gone: set<Path>, g: RouteRef)
    requires !Stays(r, g, gone)
    ensures Staying(RemoveFirst(list, g), r, gone) == Staying(list, r, gone)
  {
    if list == [] {
    } else {
      RemoveFirstCons(list, g);
      if list[0] != g {
        StayingWithout(list[1..], r, gone, g);
        assert ([list[0]] + RemoveFirst(list[1..], g))[1..] == RemoveFirst(list[1..], g);
      }
    }
  }

  lemma DropPairStays(r: Records, p: Path, h: RouteRef, g: RouteRef)
    requires TidyRecords(r) && h in r.topics && p in r.topics[h]
    ensures var r1 := DropPair(r, p, h);
            && (Stays(r1, g, {p}) <==> Stays(r, g, {p}))
            && (Stays(r, g, {p}) ==> Minus(r1.topics[g], {p}) == Minus(r.topics[g], {p}))
  {
    RemoveFirstIsMinus(r.topics[h], p);
    MinusMinus(r.topics[h], {p}, {p});
    assert {p} + {p} == {p};
  }

  lemma DropPairThenGone(r: Records, p: Path, h: RouteRef)
    requires TidyRecords(r) && h in r.topics && p in r.topics[h]
    ensures DropGone(DropPair(r, p, h), {p}) == DropGone(r, {p})
  {
    var r1 := DropPair(r, p, h);
    forall g ensures Stays(r1, g, {p}) <==> Stays(r, g, {p})
             ensures Stays(r, g, {p}) ==> Minus(r1.topics[g], {p}) == Minus(r.topics[g], {p})
    {
      DropPairStays(r, p, h, g);
    }
    SameMap(DropGone(r1, {p}).topics, DropGone(r, {p}).topics);
    StayingSame(r1.list, r, r1, {p});
    if r1.list != r.list {
      RemoveFirstIsMinus(r.topics[h], p);
      StayingWithout(r.list, r, {p}, h);
    }
  }

  // ------------------------------------------------------------ cut subtrees

  ghost function Subtree(m: Topics, q: Path): set<Path> { set x | x in m && AtOrBelow(x, q) }

  lemma {:induction false} OutsideIsMinus(m: Topics, topics: seq<Path>, q: Path)
    requires forall p :: p in topics ==> p in m
    ensures Outside(topics, q) == Minus(topics, Subtree(m, q))
  {
    if topics == [] {
    } else {
      OutsideIsMinus(m, topics[1..], q);
    }
  }

  lemma {:induction false} SurvivingIsStaying(t: Tree, list: seq<RouteRef>, q: Path)
    requires forall h, p :: h in t.topicsOf && p in t.topicsOf[h] ==> p in t.nodes
    ensures Surviving(list, t.topicsOf, q) == Staying(list, RecordsOf(t), Subtree(t.nodes, q))
  {
    if list == [] {
    } else {
      SurvivingIsStaying(t, list[1..], q);
      if list[0] in t.topicsOf { OutsideIsMinus(t.nodes, t.topicsOf[list[0]], q); }
    }
  }

  /** What removeTopicFromRoutes does to the records is what Cut says. */
  lemma CutRecords(t: Tree, p: Path, name: string)
    requires Inv(t) && p in t.nodes
    ensures RecordsOf(Cut(t, p, name)) == DropGone(RecordsOf(t), Subtree(t.nodes, p + [name]))
  {
    var q := p + [name];
    forall h, x | h in t.topicsOf && x in t.topicsOf[h] ensures x in t.nodes {
      assert Assigned(t.nodes, x, h);
    }
    SurvivingIsStaying(t, t.routeList, q);
    forall h | h in t.topicsOf ensures Outside(t.topicsOf[h], q) == Minus(t.topicsOf[h], Subtree(t.nodes, q)) {
      OutsideIsMinus(t.nodes, t.topicsOf[h], q);
    }
    var a, b := Cut(t, p, name).topicsOf, DropGone(RecordsOf(t), Subtree(t.nodes, q)).topics;
    assert a == b;
  }

  ghost function SubtreeOfKids(m: Topics, p: Path, kids: seq<string>): set<Path> {
    set x | x in m && UnderSome(x, p, kids)
  }

  lemma SubtreeSplit(m: Topics, p: Path)
    requires Shape(m) && p in m
    ensures Subtree(m, p) == {p} + SubtreeOfKids(m, p, m[p].kids)
  {
    forall q | q in m && Below(q, p) ensures UnderSome(q, p, m[p].kids) {
      var c := q[..|p| + 1];
      assert AtOrBelow(q, c) && c == p + [q[|p|]];
      PrefixesPresent(m, q, c);
      KidListed(m, p, q[|p|]);
    }
    assert AtOrBelow(p, p);
    forall q | AtOrBelow(q, p) && q != p ensures Below(q, p) { assert q[..|q|] == q; }
  }

  lemma SubtreeOfKidsSnoc(m: Topics, p: Path, kids: seq<string>, k: string)
    ensures SubtreeOfKids(m, p, kids + [k]) == SubtreeOfKids(m, p, kids) + Subtree(m, p + [k])
  {
    forall x ensures UnderSome(x, p, kids + [k]) <==> UnderSome(x, p, kids) || AtOrBelow(x, p + [k]) {
      UnderSomeSnoc(x, p, kids, k);
    }
  }

  /** From `q` downwards the topics' route lists and the records tell the same story. */
  ghost predicate AgreeBelow(m: Topics, r: Records, q: Path) {
    && (forall x :: x in Subtree(m, q) ==> NoDup(m[x].routes))
    && (forall x, h :: x in Subtree(m, q) ==> (h in m[x].routes <==> h in r.topics && x in r.topics[h]))
  }

  lemma AgreeAfterDrop(m: Topics, r: Records, gone: set<Path>, q: Path)
    requires AgreeBelow(m, r, q) && gone !! Subtree(m, q)
    ensures AgreeBelow(m, DropGone(r, gone), q)
  {
    var r' := DropGone(r, gone);
    forall x, h | x in Subtree(m, q) ensures h in m[x].routes <==> h in r'.topics && x in r'.topics[h] {
      if h in m[x].routes {
        assert x in Minus(r.topics[h], gone);
      }
    }
  }

  /** The topic's own routes are done with; its kids agree still. */
  lemma AgreeAtKids(m: Topics, r: Records, p: Path, done: seq<string>, k: string)
    requires Shape(m) && AgreeBelow(m, r, p) && k !in done && p in m
    ensures AgreeBelow(m, DropGone(r, {p} + SubtreeOfKids(m, p, done)), p + [k])
  {
    var gone, c := {p} + SubtreeOfKids(m, p, done), p + [k];
    forall x | x in Subtree(m, c) ensures x in Subtree(m, p) && x !in gone {
      assert x[..|c|][..|p|] == x[..|p|] && x[|p|] == x[..|c|][|p|];
    }
    assert AgreeBelow(m, r, c);
    AgreeAfterDrop(m, r, gone, c);
  }
}
