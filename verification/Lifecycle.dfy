/** How a logger finds the handlers it must flush, and what the group makes of their
    results. A handler graph is a map from identities to handlers; it may have cycles
    and may reach one handler by several routes. */
module Lifecycle {
  import opened Basics
  import opened Errors

  type Id = nat

  /** What a handler exposes. A fan-out takes precedence over a single unwrap. */
  datatype Links = Opaque | Unwrap(next: Option<Id>) | UnwrapAll(nexts: seq<Option<Id>>)

  datatype Handler = Handler(flusher: bool, links: Links)

  type Graph = map<Id, Handler>

  const MAX_UNWRAP_DEPTH := 32

  function Nexts(h: Handler): seq<Option<Id>> {
    match h.links
    case Opaque => []
    case Unwrap(next) => [next]
    case UnwrapAll(nexts) => nexts
  }

  predicate Present(g: Graph, h: Option<Id>) {
    h.Some? && h.value in g
  }

  predicate IsFlusher(g: Graph, x: Id) {
    x in g && g[x].flusher
  }

  /** A way the walk reaches a flusher: the handlers passed, and the flusher. */
  datatype Route = Route(via: seq<Id>, end: Id)

  /** All routes below a handler, in the order of the walk. */
  function Routes(g: Graph, h: Option<Id>, depth: nat): seq<Route>
    decreases MAX_UNWRAP_DEPTH + 1 - depth, 1
  {
    if !Present(g, h) || depth > MAX_UNWRAP_DEPTH then [] else
    Own(g, h.value) + Through(h.value, RoutesOf(g, Nexts(g[h.value]), depth + 1))
  }

  function RoutesOf(g: Graph, nexts: seq<Option<Id>>, depth: nat): seq<Route>
    requires depth <= MAX_UNWRAP_DEPTH + 1
    decreases MAX_UNWRAP_DEPTH + 1 - depth, 2, |nexts|
  {
    if nexts == [] then [] else Routes(g, nexts[0], depth) + RoutesOf(g, nexts[1..], depth)
  }

  function Own(g: Graph, h: Id): seq<Route>
    requires h in g
  {
    if g[h].flusher then [Route([], h)] else []
  }

  function Through(x: Id, routes: seq<Route>): seq<Route> {
    seq(|routes|, i requires 0 <= i < |routes| => Route([x] + routes[i].via, routes[i].end))
  }

  /** The flushers at the ends of the routes. */
  function Ends(routes: seq<Route>): seq<Id> {
    seq(|routes|, i requires 0 <= i < |routes| => routes[i].end)
  }

  lemma EndsConcat(a: seq<Route>, b: seq<Route>)
    ensures Ends(a + b) == Ends(a) + Ends(b)
  {
  }

  lemma EndsThrough(x: Id, routes: seq<Route>)
    ensures Ends(Through(x, routes)) == Ends(routes)
  {
  }

  lemma {:induction false} RoutesSnoc(g: Graph, nexts: seq<Option<Id>>, h: Option<Id>, depth: nat)
    requires depth <= MAX_UNWRAP_DEPTH + 1
    ensures RoutesOf(g, nexts + [h], depth) == RoutesOf(g, nexts, depth) + Routes(g, h, depth)
    decreases |nexts|
  {
    if nexts == [] {
      assert (nexts + [h])[1..] == [];
      assert nexts + [h] == [h];
    } else {
      RoutesSnoc(g, nexts[1..], h, depth);
      assert (nexts + [h])[1..] == nexts[1..] + [h];
    }
  }

  lemma RoutesOne(g: Graph, h: Option<Id>, depth: nat)
    requires depth <= MAX_UNWRAP_DEPTH + 1
    ensures RoutesOf(g, [h], depth) == Routes(g, h, depth)
  {
    assert [h][1..] == [];
  }

  lemma OneMore(g: Graph, nexts: seq<Option<Id>>, i: nat, depth: nat)
    requires i < |nexts| && depth <= MAX_UNWRAP_DEPTH + 1
    ensures (Ends(RoutesOf(g, nexts[..i + 1], depth))
             == Ends(RoutesOf(g, nexts[..i], depth)) + Ends(Routes(g, nexts[i], depth)))
  {
    RoutesSnoc(g, nexts[..i], nexts[i], depth);
    assert nexts[..i + 1] == nexts[..i] + [nexts[i]];
    EndsConcat(RoutesOf(g, nexts[..i], depth), Routes(g, nexts[i], depth));
  }

  lemma EndsBelow(g: Graph, h: Id, depth: nat)
    requires h in g && depth <= MAX_UNWRAP_DEPTH
    ensures Ends(Routes(g, Some(h), depth)) == Ends(Own(g, h)) + Ends(RoutesOf(g, Nexts(g[h]), depth + 1))
  {
    EndsThrough(h, RoutesOf(g, Nexts(g[h]), depth + 1));
    EndsConcat(Own(g, h), Through(h, RoutesOf(g, Nexts(g[h]), depth + 1)));
  }

  /** The walk: a present flusher is appended, and the walk goes on one link deeper. */
  method Walk(g: Graph, h: Option<Id>, depth: nat, sofar: seq<Id>) returns (found: seq<Id>)
    ensures found == sofar + Ends(Routes(g, h, depth))
    decreases MAX_UNWRAP_DEPTH + 1 - depth, 0
  {
    found := sofar;
    if !Present(g, h) || depth > MAX_UNWRAP_DEPTH {
      return;
    }
    var x := g[h.value];
    if x.flusher {
      found := found + [h.value];
    }
    assert found == sofar + Ends(Own(g, h.value));
    EndsBelow(g, h.value, depth);
    ghost var below := Ends(RoutesOf(g, Nexts(x), depth + 1));
    assert Ends(Routes(g, h, depth)) == Ends(Own(g, h.value)) + below;
    match x.links {
      case UnwrapAll(nexts) =>
        found := WalkAll(g, nexts, depth + 1, found);
      case Unwrap(next) =>
        found := Walk(g, next, depth + 1, found);
        RoutesOne(g, next, depth + 1);
      case Opaque =>
        assert below == [];
    }
  }

  method WalkAll(g: Graph, nexts: seq<Option<Id>>, depth: nat, sofar: seq<Id>) returns (found: seq<Id>)
    requires depth <= MAX_UNWRAP_DEPTH + 1
    ensures found == sofar + Ends(RoutesOf(g, nexts, depth))
    decreases MAX_UNWRAP_DEPTH + 1 - depth, 1
  {
    found := sofar;
    for i := 0 to |nexts|
      invariant found == sofar + Ends(RoutesOf(g, nexts[..i], depth))
    {
      found := Walk(g, nexts[i], depth, found);
      OneMore(g, nexts, i, depth);
    }
    assert nexts[..|nexts|] == nexts;
  }

  method CollectFlushers(g: Graph, h: Option<Id>) returns (found: seq<Id>)
    ensures found == Ends(Routes(g, h, 0))
  {
    found := Walk(g, h, 0, []);
  }

  // ---- which flushers are found ----

  /** via is a chain of links from h that ends right before x. */
  predicate Leads(g: Graph, h: Option<Id>, r: Route)
    decreases |r.via|
  {
    Present(g, h) &&
    if r.via == [] then h.value == r.end
    else r.via[0] == h.value && exists n | n in Nexts(g[h.value]) :: Leads(g, n, Route(r.via[1..], r.end))
  }

  lemma LeadsOn(g: Graph, h: Id, n: Option<Id>, r: Route)
    requires h in g && n in Nexts(g[h]) && Leads(g, n, r)
    ensures Leads(g, Some(h), Route([h] + r.via, r.end))
  {
    var longer := Route([h] + r.via, r.end);
    assert Route(longer.via[1..], longer.end) == r;
  }

  lemma BelowRoute(g: Graph, h: Id, depth: nat, i: nat)
    requires h in g && depth <= MAX_UNWRAP_DEPTH
    requires |Own(g, h)| <= i < |Routes(g, Some(h), depth)|
    ensures var below := RoutesOf(g, Nexts(g[h]), depth + 1);
            var j := i - |Own(g, h)|;
            j < |below| && Routes(g, Some(h), depth)[i] == Route([h] + below[j].via, below[j].end)
  {
  }

  lemma {:induction false} RoutesLead(g: Graph, h: Option<Id>, depth: nat, i: nat)
    requires i < |Routes(g, h, depth)|
    ensures var r := Routes(g, h, depth)[i];
            Leads(g, h, r) && IsFlusher(g, r.end) && depth + |r.via| <= MAX_UNWRAP_DEPTH
    decreases MAX_UNWRAP_DEPTH + 1 - depth, 1
  {
    var own := Own(g, h.value);
    if i >= |own| {
      BelowRoute(g, h.value, depth, i);
      var r := RoutesOf(g, Nexts(g[h.value]), depth + 1)[i - |own|];
      var n := RoutesOfLead(g, Nexts(g[h.value]), depth + 1, i - |own|);
      LeadsOn(g, h.value, n, r);
    } else {
      assert Routes(g, h, depth)[i] == own[i] == Route([], h.value);
    }
  }

  lemma {:induction false} RoutesOfLead(g: Graph, nexts: seq<Option<Id>>, depth: nat, i: nat) returns (n: Option<Id>)
    requires depth <= MAX_UNWRAP_DEPTH + 1 && i < |RoutesOf(g, nexts, depth)|
    ensures var r := RoutesOf(g, nexts, depth)[i];
            n in nexts && Leads(g, n, r) && IsFlusher(g, r.end) && depth + |r.via| <= MAX_UNWRAP_DEPTH
    decreases MAX_UNWRAP_DEPTH + 1 - depth, 2, |nexts|
  {
    var first := Routes(g, nexts[0], depth);
    if i < |first| {
      n := nexts[0];
      RoutesLead(g, n, depth, i);
    } else {
      n := RoutesOfLead(g, nexts[1..], depth, i - |first|);
    }
  }

  lemma BelowFound(g: Graph, h: Id, depth: nat, r: Route)
    requires h in g && depth <= MAX_UNWRAP_DEPTH && r in RoutesOf(g, Nexts(g[h]), depth + 1)
    ensures Route([h] + r.via, r.end) in Routes(g, Some(h), depth)
  {
    var below := RoutesOf(g, Nexts(g[h]), depth + 1);
    var j :| 0 <= j < |below| && below[j] == r;
    assert Through(h, below)[j] == Route([h] + r.via, r.end);
    assert Routes(g, Some(h), depth)[|Own(g, h)| + j] == Route([h] + r.via, r.end);
  }

  lemma NextLead(g: Graph, h: Option<Id>, r: Route) returns (n: Option<Id>)
    requires Leads(g, h, r) && r.via != []
    ensures Present(g, h) && r.via[0] == h.value
    ensures n in Nexts(g[h.value]) && Leads(g, n, Route(r.via[1..], r.end))
    ensures r == Route([h.value] + r.via[1..], r.end)
  {
    n :| n in Nexts(g[h.value]) && Leads(g, n, Route(r.via[1..], r.end));
  }

  lemma EndFound(g: Graph, h: Option<Id>, depth: nat, r: Route)
    requires Leads(g, h, r) && IsFlusher(g, r.end) && depth <= MAX_UNWRAP_DEPTH && r.via == []
    ensures r in Routes(g, h, depth)
  {
    assert Own(g, h.value) == [r];
    assert Routes(g, h, depth)[0] == r;
  }

  lemma {:induction false} LeadsFound(g: Graph, h: Option<Id>, depth: nat, r: Route)
    requires Leads(g, h, r) && IsFlusher(g, r.end) && depth + |r.via| <= MAX_UNWRAP_DEPTH
    ensures r in Routes(g, h, depth)
    decreases |r.via|
  {
    if r.via == [] {
      EndFound(g, h, depth, r);
    } else {
      var tail := Route(r.via[1..], r.end);
      var n := NextLead(g, h, r);
      LeadsFound(g, n, depth + 1, tail);
      FoundAmong(g, Nexts(g[h.value]), n, depth + 1, tail);
      BelowFound(g, h.value, depth, tail);
      assert Route([h.value] + tail.via, tail.end) == r && Some(h.value) == h;
    }
  }

  lemma {:induction false} FoundAmong(g: Graph, nexts: seq<Option<Id>>, n: Option<Id>, depth: nat, r: Route)
    requires depth <= MAX_UNWRAP_DEPTH + 1 && n in nexts && r in Routes(g, n, depth)
    ensures r in RoutesOf(g, nexts, depth)
    decreases |nexts|
  {
    if nexts[0] != n {
      FoundAmong(g, nexts[1..], n, depth, r);
    }
  }

  /** The walk finds exactly the flushers that some chain of at most 32 links reaches,
      in a graph of any shape, and it always ends. */
  lemma FoundExactly(g: Graph, h: Option<Id>, x: Id)
    ensures (x in Ends(Routes(g, h, 0))
             <==> exists r: Route :: Leads(g, h, r) && r.end == x && IsFlusher(g, x) && |r.via| <= 32)
  {
    var routes := Routes(g, h, 0);
    if x in Ends(routes) {
      var i :| 0 <= i < |routes| && Ends(routes)[i] == x;
      RoutesLead(g, h, 0, i);
      assert Leads(g, h, routes[i]);
    }
    if r: Route :| Leads(g, h, r) && r.end == x && IsFlusher(g, x) && |r.via| <= MAX_UNWRAP_DEPTH {
      LeadsFound(g, h, 0, r);
      var i :| 0 <= i < |routes| && routes[i] == r;
      assert Ends(routes)[i] == x;
    }
  }

  // ---- in which order ----

  /** Each flusher a route passes has been found before the flusher at its end. */
  ghost predicate OuterFirst(g: Graph, routes: seq<Route>) {
    forall i, k | 0 <= i < |routes| && 0 <= k < |routes[i].via| ::
      IsFlusher(g, routes[i].via[k]) ==> FoundBefore(routes, i, k)
  }

  ghost predicate FoundBefore(routes: seq<Route>, i: int, k: int)
    requires 0 <= i < |routes| && 0 <= k < |routes[i].via|
  {
    exists j :: 0 <= j < i && routes[j] == Route(routes[i].via[..k], routes[i].via[k])
  }

  lemma OuterFirstConcat(g: Graph, a: seq<Route>, b: seq<Route>)
    requires OuterFirst(g, a) && OuterFirst(g, b)
    ensures OuterFirst(g, a + b)
  {
    var c := a + b;
    forall i, k | 0 <= i < |c| && 0 <= k < |c[i].via| && IsFlusher(g, c[i].via[k])
      ensures FoundBefore(c, i, k)
    {
      if i < |a| {
        assert c[i] == a[i] && FoundBefore(a, i, k);
        var j :| 0 <= j < i && a[j] == Route(a[i].via[..k], a[i].via[k]);
        assert c[j] == a[j];
      } else {
        assert c[i] == b[i - |a|] && FoundBefore(b, i - |a|, k);
        var j :| 0 <= j < i - |a| && b[j] == Route(b[i - |a|].via[..k], b[i - |a|].via[k]);
        assert c[|a| + j] == b[j];
      }
    }
  }

  lemma OuterFirstThrough(g: Graph, x: Id, routes: seq<Route>)
    requires x in g && OuterFirst(g, routes)
    ensures OuterFirst(g, Own(g, x) + Through(x, routes))
  {
    var own := Own(g, x);
    var c := own + Through(x, routes);
    forall i, k | 0 <= i < |c| && 0 <= k < |c[i].via| && IsFlusher(g, c[i].via[k])
      ensures FoundBefore(c, i, k)
    {
      var r := routes[i - |own|];
      assert c[i].via == [x] + r.via;
      if k == 0 {
        assert c[i].via[..0] == [];
        assert c[0] == Route(c[i].via[..k], c[i].via[k]);
      } else {
        assert r.via[k - 1] == c[i].via[k] && FoundBefore(routes, i - |own|, k - 1);
        var j :| 0 <= j < i - |own| && routes[j] == Route(r.via[..k - 1], r.via[k - 1]);
        assert c[i].via[..k] == [x] + r.via[..k - 1];
        assert c[|own| + j] == Route(c[i].via[..k], c[i].via[k]);
      }
    }
  }

  /** Outermost first: on the route to any found flusher, all flushers passed on the
      way were found earlier, by the same route. */
  lemma {:induction false} OutermostFirst(g: Graph, h: Option<Id>, depth: nat)
    ensures OuterFirst(g, Routes(g, h, depth))
    decreases MAX_UNWRAP_DEPTH + 1 - depth, 1
  {
    if Present(g, h) && depth <= MAX_UNWRAP_DEPTH {
      OutermostFirstOf(g, Nexts(g[h.value]), depth + 1);
      OuterFirstThrough(g, h.value, RoutesOf(g, Nexts(g[h.value]), depth + 1));
    }
  }

  lemma {:induction false} OutermostFirstOf(g: Graph, nexts: seq<Option<Id>>, depth: nat)
    requires depth <= MAX_UNWRAP_DEPTH + 1
    ensures OuterFirst(g, RoutesOf(g, nexts, depth))
    decreases MAX_UNWRAP_DEPTH + 1 - depth, 2, |nexts|
  {
    if nexts != [] {
      OutermostFirst(g, nexts[0], depth);
      OutermostFirstOf(g, nexts[1..], depth);
      OuterFirstConcat(g, Routes(g, nexts[0], depth), RoutesOf(g, nexts[1..], depth));
    }
  }

  // ---- a chain of decorators ----

  /** Following single unwrap links from h passes exactly these handlers. */
  predicate ChainOf(g: Graph, h: Option<Id>, nodes: seq<Id>)
    decreases |nodes|
  {
    if nodes == [] then !Present(g, h)
    else
      && h == Some(nodes[0]) && nodes[0] in g
      && match g[nodes[0]].links
         case Opaque => |nodes| == 1
         case Unwrap(next) => ChainOf(g, next, nodes[1..])
         case UnwrapAll(_) => false
  }

  function FlushersOf(g: Graph, nodes: seq<Id>): seq<Id> {
    if nodes == [] then [] else (if IsFlusher(g, nodes[0]) then [nodes[0]] else []) + FlushersOf(g, nodes[1..])
  }

  /** Those of the handlers that lie within 33 of the start. */
  function Within(nodes: seq<Id>, depth: nat): seq<Id> {
    if depth + |nodes| <= 33 then nodes
    else if depth > 32 then []
    else nodes[..33 - depth]
  }

  lemma WithinCons(nodes: seq<Id>, depth: nat)
    requires nodes != [] && depth <= MAX_UNWRAP_DEPTH
    ensures Within(nodes, depth) == [nodes[0]] + Within(nodes[1..], depth + 1)
  {
  }

  /** On a chain the walk finds the flushers among the first 33 handlers, in the order of
      the chain. */
  lemma {:induction false} ChainInOrder(g: Graph, h: Option<Id>, nodes: seq<Id>, depth: nat)
    requires ChainOf(g, h, nodes)
    ensures Ends(Routes(g, h, depth)) == FlushersOf(g, Within(nodes, depth))
    decreases |nodes|
  {
    if nodes != [] && depth <= MAX_UNWRAP_DEPTH {
      var x, rest := nodes[0], nodes[1..];
      EndsBelow(g, x, depth);
      WithinCons(nodes, depth);
      assert FlushersOf(g, Within(nodes, depth))
          == (if IsFlusher(g, x) then [x] else []) + FlushersOf(g, Within(rest, depth + 1));
      match g[x].links
      case Opaque =>
      case Unwrap(next) =>
        ChainInOrder(g, next, rest, depth + 1);
        RoutesOne(g, next, depth + 1);
    }
  }

  lemma {:induction false} NoFlushers(g: Graph, nodes: seq<Id>)
    requires forall i | 0 <= i < |nodes| :: !IsFlusher(g, nodes[i])
    ensures FlushersOf(g, nodes) == []
    decreases |nodes|
  {
    if nodes != [] {
      NoFlushers(g, nodes[1..]);
    }
  }

  lemma {:induction false} OneFlusher(g: Graph, nodes: seq<Id>, at: nat)
    requires at < |nodes| && forall i | 0 <= i < |nodes| :: IsFlusher(g, nodes[i]) <==> i == at
    ensures FlushersOf(g, nodes) == [nodes[at]]
    decreases |nodes|
  {
    if at == 0 {
      NoFlushers(g, nodes[1..]);
    } else {
      OneFlusher(g, nodes[1..], at - 1);
    }
  }

  lemma {:induction false} TwoFlushers(g: Graph, nodes: seq<Id>, outer: nat, inner: nat)
    requires outer < inner < |nodes|
    requires forall i | 0 <= i < |nodes| :: IsFlusher(g, nodes[i]) <==> i == outer || i == inner
    ensures FlushersOf(g, nodes) == [nodes[outer], nodes[inner]]
    decreases |nodes|
  {
    if outer == 0 {
      OneFlusher(g, nodes[1..], inner - 1);
    } else {
      TwoFlushers(g, nodes[1..], outer - 1, inner - 1);
    }
  }

  /** Two buffers on a chain are listed outer first: the order for which the guarantees
      of the stack hold. */
  lemma OuterListedFirst(g: Graph, h: Option<Id>, nodes: seq<Id>, outer: nat, inner: nat)
    requires ChainOf(g, h, nodes) && outer < inner < |nodes| <= 33
    requires forall i | 0 <= i < |nodes| :: IsFlusher(g, nodes[i]) <==> i == outer || i == inner
    ensures Ends(Routes(g, h, 0)) == [nodes[outer], nodes[inner]]
  {
    ChainInOrder(g, h, nodes, 0);
    TwoFlushers(g, nodes, outer, inner);
  }

  // ---- results of a group operation ----

  /** What flush and shutdownAllToCompletion make of their handlers' results: the first
      error, translated. */
  method FirstError(results: seq<Result>) returns (first: Result)
    ensures first.Nil? <==> forall i | 0 <= i < |results| :: results[i].Nil?
    ensures first.Fail? ==> exists i :: FirstFailure(results, i) && ShownAs(results[i], first)
    ensures !ShutdownBelow(first)
  {
    first := Nil;
    ghost var at := 0;
    for i := 0 to |results|
      invariant first.Nil? <==> forall j | 0 <= j < i :: results[j].Nil?
      invariant first.Fail? ==> 0 <= at < i && FirstFailure(results, at) && ShownAs(results[at], first)
      invariant !ShutdownBelow(first)
    {
      TranslateShows(results[i]);
      var err := Translate(results[i]);
      if err.Fail? && first.Nil? {
        first, at := err, i;
      }
    }
  }

  predicate FirstFailure(results: seq<Result>, i: int) {
    0 <= i < |results| && results[i].Fail? && forall j | 0 <= j < i :: results[j].Nil?
  }
}
