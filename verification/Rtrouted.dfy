/** The routing daemon's route table as an object: the loops of rtrouted.c, each proved
    to do to `View()` what Broker says. */
module Rtrouted {
  import opened Sequences
  import opened TopicTree
  import opened MessageHeader
  import opened Broker
  import opened Tokenizer
  import RoutingTree

  lemma {:induction false} OwnedForgets(routes: seq<RouteData>, entries: map<RouteData, Entry>, client: ClientId,
                                        p: RouteData)
    requires p !in routes
    ensures Owned(routes, entries - {p}, client) == Owned(routes, entries, client)
  {
    if routes == [] {
    } else {
      assert routes[0] != p;
      OwnedForgets(routes[1..], entries, client, p);
    }
  }

  /** On a vector without repeats RemoveItem takes out exactly position `i`. */
  lemma RemoveAt(routes: seq<RouteData>, i: nat)
    requires NoDup(routes) && i < |routes|
    ensures RemoveFirst(routes, routes[i])[i..] == routes[i + 1..] && |RemoveFirst(routes, routes[i])| == |routes| - 1
    ensures routes[i] !in routes[i + 1..]
  {
    IndexOfAt(routes, routes[i], i);
  }

  class Router {
    const tree: RoutingTree.RoutingTree
    var routes: seq<RouteData>
    var entries: map<RouteData, Entry>
    /** Everything handed to a route's handler so far. */
    var out: seq<Event>

    ghost function View(): State
      reads this, tree
    {
      State(tree.View(), routes, entries)
    }

    ghost predicate Valid()
      reads this, tree
    {
      tree.Valid()
    }

    constructor ()
      ensures Valid() && View() == START && out == [] && fresh(tree)
    {
      tree := new RoutingTree.RoutingTree();
      routes, entries, out := [], map[], [];
    }

    method AddRoute(ptr: RouteData, e: Entry, exp: string)
      requires Valid() && Fits(exp)
      modifies this`routes, this`entries, tree
      ensures Valid() && View() == Broker.AddRoute(old(View()), ptr, e, exp)
    {
      entries := entries[ptr := e];
      routes := routes + [ptr];
      var _ := tree.AddTopicRoute(exp, ptr, false);
    }

    method ClearRoute(ptr: RouteData)
      requires Valid()
      modifies this`routes, this`entries, tree
      ensures Valid() && View() == Broker.ClearRoute(old(View()), ptr)
    {
      routes := RemoveFirst(routes, ptr);
      tree.RemoveRoute(ptr);
      entries := entries - {ptr};
    }

    /** `i` stays put when a route is taken out from under it, so Size(routes) - i falls. */
    method ClearClientRoutes(client: ClientId)
      requires Valid() && Inv(View())
      modifies this`routes, this`entries, tree
      ensures Valid() && View() == ClearClient(old(View()), client)
    {
      var i := 0;
      assert routes[0..] == routes;
      while i < |routes|
        invariant i <= |routes| && Valid() && Inv(View())
        invariant ClearAll(View(), Owned(routes[i..], entries, client)) == ClearClient(old(View()), client)
        decreases |routes| - i
      {
        var route := routes[i];
        assert routes[i..][1..] == routes[i + 1..];
        if !entries[route].internal && entries[route].client == client {
          ghost var b := View();
          RemoveAt(routes, i);
          OwnedForgets(routes[i + 1..], entries, client, route);
          ClearRouteKeeps(b, route);
          ClearRoute(route);
        } else {
          i := i + 1;
        }
      }
    }

    method FindRouteById(sender: ClientId, id: UInt32) returns (r: Option<RouteData>)
      requires Inv(View())
      ensures r == FindById(routes, entries, sender, id)
    {
      var i := 0;
      assert routes[0..] == routes;
      while i < |routes|
        invariant i <= |routes|
        invariant FindById(routes[i..], entries, sender, id) == FindById(routes, entries, sender, id)
      {
        assert routes[i..][1..] == routes[i + 1..];
        if OwnedBy(entries[routes[i]], sender) && entries[routes[i]].id == id { return Some(routes[i]); }
        i := i + 1;
      }
      return None;
    }

    method FindRouteByExpression(sender: ClientId, exp: string) returns (r: Option<RouteData>)
      requires Inv(View())
      ensures r == FindByExpression(routes, entries, sender, exp)
    {
      var i := 0;
      assert routes[0..] == routes;
      while i < |routes|
        invariant i <= |routes|
        invariant FindByExpression(routes[i..], entries, sender, exp) == FindByExpression(routes, entries, sender, exp)
      {
        assert routes[i..][1..] == routes[i + 1..];
        if OwnedBy(entries[routes[i]], sender) && entries[routes[i]].expression == exp { return Some(routes[i]); }
        i := i + 1;
      }
      return None;
    }

    method OnMessageSubscribe(sender: ClientId, r: Request, ptr: RouteData) returns (rc: Code)
      requires Valid() && Inv(View()) && Fits(r.topic)
      modifies this`routes, this`entries, tree
      ensures Valid() && (View(), rc) == Subscribe(old(View()), sender, r, ptr)
    {
      rc := Ok;
      if r.add {
        var route := FindRouteById(sender, r.routeId);
        if route.Some? {
          rc := tree.AddTopicRoute(r.topic, route.value, true);
        } else {
          AddRoute(ptr, Entry(false, sender, r.routeId, Stored(r.topic)), r.topic);
        }
      } else {
        var route := FindRouteByExpression(sender, r.topic);
        if route.Some? {
          ClearRoute(route.value);
        } else {
          tree.RemoveTopic(r.topic);
        }
      }
    }

    /** The walk over one list of routes. */
    method HandToRoutes(hs: seq<RouteRef>, h: Header, payload: Bytes) returns (matchFound: bool)
      requires Live(entries, hs)
      modifies this`out
      ensures out == old(out) + Fanout(entries, hs, h, payload)
      ensures matchFound <==> hs != []
    {
      ghost var all := Fanout(entries, hs, h, payload);
      matchFound := false;
      var i := 0;
      while i < |hs|
        invariant i <= |hs| && (matchFound <==> i > 0)
        invariant out == old(out) + all[..i]
      {
        matchFound := true;
        var e := EventOf(entries[hs[i].data], h, payload);
        OneMore(old(out), all, i);
        out := out + [e];
        i := i + 1;
      }
      assert all[..i] == all;
    }

    /** The goto runs the body again at most once: the safeguard is set before it. */
    method DispatchMessageFromClient(header: Header, payload: Bytes)
      requires Valid() && Terminated(header) && Dispatchable(View(), header)
      requires Fits(TopicText(header)) && Fits(TopicText(Bounce(header)))
      modifies this`out
      ensures out == old(out) + Dispatched(old(View()), header, payload)
    {
      var h, body, matchFound, safeguard, again := header, payload, false, false, true;
      ghost var b, want := View(), Dispatched(View(), header, payload);
      while again
        invariant View() == b
        invariant again ==> out == old(out)
        invariant again && !safeguard ==> h == header && body == payload
        invariant again && safeguard ==> h == Bounce(header) && want == Fanout(b.entries, Listed(b, h), h, body)
        invariant !again ==> out == old(out) + want
        decreases !safeguard, again
      {
        again := false;
        var list := tree.GetTopicRoutes(TopicText(h));
        matchFound := HandToRoutes(list, h, body);
        if !matchFound && !safeguard && HasFlag(h.flags, REQUEST) {
          h, body := Bounce(h), [];
          safeguard, again := true, true;
        }
      }
    }
  }

  lemma OneMore(before: seq<Event>, all: seq<Event>, i: nat)
    requires i < |all|
    ensures before + all[..i] + [all[i]] == before + all[..i + 1]
  {
    TakeNext(all, i);
  }
}
