/** Building a target's routes and routing an HTTP request over one published snapshot
    (routing/pattern_router.go). */
module RouteHttp {
  import opened Text
  import opened RoutingTable
  import opened PatternTable

  // ---- routes of a description ---------------------------------------------------------

  datatype Binding = Binding(httpMethod: string, pattern: string)
  datatype Rpc = Rpc(name: string, bindings: seq<Binding>)
  datatype Service = Service(name: string, rpcs: seq<Rpc>)

  /** The binding of an RPC that declares none. */
  function DefaultBinding(rpc: Rpc): Binding {
    Binding("POST", rpc.name)
  }

  /** The HTTP bindings an RPC is reachable under. */
  function BindingsOf(rpc: Rpc): seq<Binding> {
    if rpc.bindings == [] then [DefaultBinding(rpc)] else rpc.bindings
  }

  /** The route of one binding, if its pattern compiles. */
  function RouteOf(build: string -> Option<Pattern>, s: string, rpc: Rpc, k: nat): Option<Route>
    requires k < |BindingsOf(rpc)|
  {
    match build(BindingsOf(rpc)[k].pattern)
    case None => None
    case Some(p) => Some(Route(s, rpc.name, k, p))
  }

  /** The routes of an RPC for method `m` among its first `n` bindings. */
  function RpcRoutes(build: string -> Option<Pattern>, s: string, rpc: Rpc, m: string, n: nat): seq<Route>
    requires n <= |BindingsOf(rpc)|
  {
    if n == 0 then []
    else
      RpcRoutes(build, s, rpc, m, n - 1) +
      if BindingsOf(rpc)[n - 1].httpMethod != m then []
      else match RouteOf(build, s, rpc, n - 1) case None => [] case Some(r) => [r]
  }

  function ServiceRoutes(build: string -> Option<Pattern>, s: Service, m: string, n: nat): seq<Route>
    requires n <= |s.rpcs|
  {
    if n == 0 then []
    else
      var rpc := s.rpcs[n - 1];
      ServiceRoutes(build, s, m, n - 1) + RpcRoutes(build, s.name, rpc, m, |BindingsOf(rpc)|)
  }

  /** All routes of the first `n` services for method `m`, in the order of the description. */
  function RoutesFor(build: string -> Option<Pattern>, ss: seq<Service>, m: string, n: nat): seq<Route>
    requires n <= |ss|
  {
    if n == 0 then []
    else RoutesFor(build, ss, m, n - 1) + ServiceRoutes(build, ss[n - 1], m, |ss[n - 1].rpcs|)
  }

  function Listed(routes: map<string, seq<Route>>, m: string): seq<Route> {
    if m in routes then routes[m] else []
  }

  // ---- the routes of a description, written out ----------------------------------------

  /** A binding by the places of its service, its RPC and itself in their lists. */
  datatype Place = Place(service: nat, rpc: nat, binding: nat) {
    predicate Before(p: Place) {
      || service < p.service
      || (service == p.service && (rpc < p.rpc || (rpc == p.rpc && binding < p.binding)))
    }
  }

  /** The description asks for route `r` under method `m` at place `p`: a declared binding, or the RPC's name under POST
      where none is declared. */
  predicate Declared(build: string -> Option<Pattern>, ss: seq<Service>, m: string, p: Place, r: Route) {
    && p.service < |ss| && p.rpc < |ss[p.service].rpcs|
    && var rpc := ss[p.service].rpcs[p.rpc];
    && r.service == ss[p.service].name && r.rpc == rpc.name && r.binding == p.binding
    && (rpc.bindings == [] ==> p.binding == 0 && m == "POST" && build(rpc.name) == Some(r.pattern))
    && (rpc.bindings != [] ==>
          && p.binding < |rpc.bindings| && m == rpc.bindings[p.binding].httpMethod
          && build(rpc.bindings[p.binding].pattern) == Some(r.pattern))
  }

  /** `routes` are what the description asks for before place `end`, in its order, and `places` is where. */
  ghost predicate ListedBefore(build: string -> Option<Pattern>, ss: seq<Service>, m: string, end: Place,
      routes: seq<Route>, places: seq<Place>) {
    && |places| == |routes|
    && (forall x :: 0 <= x < |places| ==> Declared(build, ss, m, places[x], routes[x]) && places[x].Before(end))
    && (forall x, y :: 0 <= x < y < |places| ==> places[x].Before(places[y]))
    && (forall p: Place, r: Route :: Declared(build, ss, m, p, r) && p.Before(end) ==> p in places)
  }

  /** `routes` are exactly what the description asks for under method `m`, in its order. */
  ghost predicate AllInOrder(build: string -> Option<Pattern>, ss: seq<Service>, m: string, routes: seq<Route>) {
    exists places: seq<Place> :: AllListed(build, ss, m, routes, places)
  }

  ghost predicate AllListed(build: string -> Option<Pattern>, ss: seq<Service>, m: string, routes: seq<Route>,
      places: seq<Place>) {
    && |places| == |routes|
    && (forall x :: 0 <= x < |places| ==> Declared(build, ss, m, places[x], routes[x]))
    && (forall x, y :: 0 <= x < y < |places| ==> places[x].Before(places[y]))
    && (forall p: Place, r: Route :: Declared(build, ss, m, p, r) ==> p in places)
  }

  lemma NextBinding(build: string -> Option<Pattern>, ss: seq<Service>, m: string, at: Place, routes: seq<Route>,
      places: seq<Place>) returns (more: seq<Place>)
    requires at.service < |ss| && at.rpc < |ss[at.service].rpcs|
    requires at.binding < |BindingsOf(ss[at.service].rpcs[at.rpc])|
    requires ListedBefore(build, ss, m, at, routes, places)
    ensures var rpc, k := ss[at.service].rpcs[at.rpc], at.binding;
            ListedBefore(build, ss, m, at.(binding := k + 1), routes +
              (if BindingsOf(rpc)[k].httpMethod != m then []
               else match RouteOf(build, ss[at.service].name, rpc, k) case None => [] case Some(r) => [r]), more)
  {
    var rpc, k, end := ss[at.service].rpcs[at.rpc], at.binding, at.(binding := at.binding + 1);
    if BindingsOf(rpc)[k].httpMethod == m && build(BindingsOf(rpc)[k].pattern).Some? {
      var r := RouteOf(build, ss[at.service].name, rpc, k).value;
      more := places + [at];
      assert Declared(build, ss, m, at, r);
      forall p: Place, r: Route | Declared(build, ss, m, p, r) && p.Before(end) ensures p in more {
        if !p.Before(at) { assert p == at == more[|places|]; } else { assert p in places; }
      }
    } else {
      more := places;
      assert routes + [] == routes;
      assert forall r: Route :: !Declared(build, ss, m, at, r);
      forall p: Place, r: Route | Declared(build, ss, m, p, r) && p.Before(end) ensures p in more {
        assert p.Before(at) || p == at;
      }
    }
  }

  lemma {:induction false} RpcPlaces(build: string -> Option<Pattern>, ss: seq<Service>, m: string, at: Place,
      routes: seq<Route>, places: seq<Place>) returns (more: seq<Place>)
    requires at.service < |ss| && at.rpc < |ss[at.service].rpcs|
    requires at.binding <= |BindingsOf(ss[at.service].rpcs[at.rpc])|
    requires ListedBefore(build, ss, m, at.(binding := 0), routes, places)
    ensures ListedBefore(build, ss, m, at, routes +
              RpcRoutes(build, ss[at.service].name, ss[at.service].rpcs[at.rpc], m, at.binding), more)
    decreases at.binding
  {
    hide ListedBefore, RouteOf, BindingsOf;
    if at.binding == 0 {
      more := places;
      assert routes + [] == routes;
    } else {
      var s, rpc, k := ss[at.service].name, ss[at.service].rpcs[at.rpc], at.binding - 1;
      var before := RpcPlaces(build, ss, m, at.(binding := k), routes, places);
      var sofar := RpcRoutes(build, s, rpc, m, k);
      more := NextBinding(build, ss, m, at.(binding := k), routes + sofar, before);
      RpcRoutesStep(build, s, rpc, k);
      hide RpcRoutes;
      var last := if BindingsOf(rpc)[k].httpMethod != m then []
                  else match RouteOf(build, s, rpc, k) case None => [] case Some(r) => [r];
      assert routes + sofar + last == routes + (sofar + last);
    }
  }

  lemma {:induction false} ServicePlaces(build: string -> Option<Pattern>, ss: seq<Service>, m: string, i: nat, j: nat,
      routes: seq<Route>, places: seq<Place>) returns (more: seq<Place>)
    requires i < |ss| && j <= |ss[i].rpcs|
    requires ListedBefore(build, ss, m, Place(i, 0, 0), routes, places)
    ensures ListedBefore(build, ss, m, Place(i, j, 0), routes + ServiceRoutes(build, ss[i], m, j), more)
    decreases j
  {
    hide ListedBefore, RpcRoutes, BindingsOf;
    if j == 0 {
      more := places;
      assert routes + [] == routes;
    } else {
      var s, rpc := ss[i], ss[i].rpcs[j - 1];
      var before := ServicePlaces(build, ss, m, i, j - 1, routes, places);
      var sofar, n := ServiceRoutes(build, s, m, j - 1), |BindingsOf(rpc)|;
      more := RpcPlaces(build, ss, m, Place(i, j - 1, n), routes + sofar, before);
      ServiceRoutesStep(build, s, m, j - 1);
      hide ServiceRoutes;
      var last := RpcRoutes(build, s.name, rpc, m, n);
      assert routes + sofar + last == routes + (sofar + last);
      RpcOver(build, ss, m, i, j - 1, routes + sofar + last, more);
    }
  }

  lemma RpcOver(build: string -> Option<Pattern>, ss: seq<Service>, m: string, i: nat, j: nat, routes: seq<Route>,
      places: seq<Place>)
    requires i < |ss| && j < |ss[i].rpcs|
    requires ListedBefore(build, ss, m, Place(i, j, |BindingsOf(ss[i].rpcs[j])|), routes, places)
    ensures ListedBefore(build, ss, m, Place(i, j + 1, 0), routes, places)
  {
  }

  lemma {:induction false} AllPlaces(build: string -> Option<Pattern>, ss: seq<Service>, m: string, n: nat)
    returns (places: seq<Place>)
    requires n <= |ss|
    ensures ListedBefore(build, ss, m, Place(n, 0, 0), RoutesFor(build, ss, m, n), places)
    decreases n
  {
    hide ServiceRoutes;
    if n == 0 {
      places := [];
    } else {
      hide ListedBefore;
      var before := AllPlaces(build, ss, m, n - 1);
      places := ServicePlaces(build, ss, m, n - 1, |ss[n - 1].rpcs|, RoutesFor(build, ss, m, n - 1), before);
      ServiceOver(build, ss, m, n - 1, RoutesFor(build, ss, m, n), places);
    }
  }

  lemma ServiceOver(build: string -> Option<Pattern>, ss: seq<Service>, m: string, i: nat, routes: seq<Route>,
      places: seq<Place>)
    requires i < |ss| && ListedBefore(build, ss, m, Place(i, |ss[i].rpcs|, 0), routes, places)
    ensures ListedBefore(build, ss, m, Place(i + 1, 0, 0), routes, places)
  {
  }

  /** The routes of a description are exactly the buildable ones it asks for, in its order. */
  lemma RoutesInOrder(build: string -> Option<Pattern>, ss: seq<Service>, m: string)
    ensures AllInOrder(build, ss, m, RoutesFor(build, ss, m, |ss|))
  {
    hide RoutesFor;
    var places := AllPlaces(build, ss, m, |ss|);
    assert forall p: Place, r: Route :: Declared(build, ss, m, p, r) ==> p.Before(Place(|ss|, 0, 0));
    assert AllListed(build, ss, m, RoutesFor(build, ss, m, |ss|), places);
  }

  /** There is one such list. */
  lemma OneOrder(build: string -> Option<Pattern>, ss: seq<Service>, m: string, a: seq<Route>, b: seq<Route>)
    requires AllInOrder(build, ss, m, a) && AllInOrder(build, ss, m, b)
    ensures a == b
  {
    var ps: seq<Place> :| AllListed(build, ss, m, a, ps);
    var qs: seq<Place> :| AllListed(build, ss, m, b, qs);
    hide *;
    ListedParts(build, ss, m, a, ps);
    ListedParts(build, ss, m, b, qs);
    forall p: Place ensures p in ps <==> p in qs {
      SamePlaces(build, ss, m, a, ps, b, qs, p);
      SamePlaces(build, ss, m, b, qs, a, ps, p);
    }
    SortedSame(ps, qs);
    forall x | 0 <= x < |a| ensures a[x] == b[x] {
      OneRoute(build, ss, m, ps[x], a[x], b[x]);
    }
  }

  lemma ListedParts(build: string -> Option<Pattern>, ss: seq<Service>, m: string, routes: seq<Route>, places: seq<Place>)
    requires AllListed(build, ss, m, routes, places)
    ensures |places| == |routes| && forall x :: 0 <= x < |places| ==> Declared(build, ss, m, places[x], routes[x])
    ensures forall x, y :: 0 <= x < y < |places| ==> places[x].Before(places[y])
  {
  }

  lemma SamePlaces(build: string -> Option<Pattern>, ss: seq<Service>, m: string, a: seq<Route>, ps: seq<Place>,
      b: seq<Route>, qs: seq<Place>, p: Place)
    requires AllListed(build, ss, m, a, ps) && AllListed(build, ss, m, b, qs)
    ensures p in ps ==> p in qs
  {
    hide Declared;
    if p in ps {
      var x :| 0 <= x < |ps| && ps[x] == p;
      assert Declared(build, ss, m, p, a[x]);
    }
  }

  lemma OneRoute(build: string -> Option<Pattern>, ss: seq<Service>, m: string, p: Place, r: Route, r': Route)
    requires Declared(build, ss, m, p, r) && Declared(build, ss, m, p, r')
    ensures r == r'
  {
  }

  /** Two lists of places in order that hold the same places are the same list. */
  lemma {:induction false} SortedSame(a: seq<Place>, b: seq<Place>)
    requires forall x, y :: 0 <= x < y < |a| ==> a[x].Before(a[y])
    requires forall x, y :: 0 <= x < y < |b| ==> b[x].Before(b[y])
    requires forall p: Place :: p in a <==> p in b
    ensures a == b
    decreases |a|
  {
    BothEmpty(a, b);
    if a != [] {
      var m, n := |a| - 1, |b| - 1;
      assert a[m] in b && b[n] in a;
      assert a[m] == b[n] by {
        var x :| 0 <= x < |b| && b[x] == a[m];
        var y :| 0 <= y < |a| && a[y] == b[n];
      }
      forall p: Place ensures p in a[..m] <==> p in b[..n] {
        SplitLast(a, p);
        SplitLast(b, p);
      }
      SortedSame(a[..m], b[..n]);
      assert a == a[..m] + [a[m]] && b == b[..n] + [b[n]];
    }
  }

  lemma BothEmpty(a: seq<Place>, b: seq<Place>)
    requires forall p: Place :: p in a <==> p in b
    ensures a == [] <==> b == []
  {
    if a != [] { assert a[0] in b; }
    if b != [] { assert b[0] in a; }
  }

  lemma SplitLast(a: seq<Place>, p: Place)
    requires |a| > 0 && forall x, y :: 0 <= x < y < |a| ==> a[x].Before(a[y])
    ensures p in a[..|a| - 1] <==> p in a && p != a[|a| - 1]
  {
  }

  class RouteBuilder {
    var routes: map<string, seq<Route>>

    constructor ()
      ensures routes == map[]
    {
      routes := map[];
    }

    method AddBinding(build: string -> Option<Pattern>, s: string, rpc: Rpc, k: nat)
      requires k < |BindingsOf(rpc)|
      modifies this
      ensures forall m :: Listed(routes, m) == Listed(old(routes), m) +
                if BindingsOf(rpc)[k].httpMethod != m then []
                else match RouteOf(build, s, rpc, k) case None => [] case Some(r) => [r]
      ensures (forall m :: m in old(routes) ==> old(routes)[m] != []) ==> forall m :: m in routes ==> routes[m] != []
    {
      var b := BindingsOf(rpc)[k];
      var pattern := build(b.pattern);
      if pattern.Some? {
        routes := routes[b.httpMethod := Listed(routes, b.httpMethod) + [Route(s, rpc.name, k, pattern.value)]];
      }
    }
  }

  /** Every HTTP method gets exactly the buildable bindings declared for it, in order, and no method gets an empty list. */
  method BuildPatternRoutes(build: string -> Option<Pattern>, ss: seq<Service>) returns (routes: map<string, seq<Route>>)
    ensures forall m :: AllInOrder(build, ss, m, Listed(routes, m))
    ensures forall m :: Listed(routes, m) == RoutesFor(build, ss, m, |ss|)
    ensures forall m :: m in routes ==> routes[m] != []
  {
    var builder := new RouteBuilder();
    for i := 0 to |ss|
      invariant fresh(builder) && forall m :: m in builder.routes ==> builder.routes[m] != []
      invariant forall m :: Listed(builder.routes, m) == RoutesFor(build, ss, m, i)
    {
      BuildService(builder, build, ss[i]);
    }
    routes := builder.routes;
    forall m ensures AllInOrder(build, ss, m, Listed(routes, m)) {
      RoutesInOrder(build, ss, m);
    }
  }

  method BuildService(builder: RouteBuilder, build: string -> Option<Pattern>, s: Service)
    requires forall m :: m in builder.routes ==> builder.routes[m] != []
    modifies builder
    ensures forall m :: m in builder.routes ==> builder.routes[m] != []
    ensures forall m :: Listed(builder.routes, m) == Listed(old(builder.routes), m) + ServiceRoutes(build, s, m, |s.rpcs|)
  {
    hide ServiceRoutes, Listed, RpcRoutes;
    NoServiceRoutes(build, s);
    for j := 0 to |s.rpcs|
      invariant forall m :: m in builder.routes ==> builder.routes[m] != []
      invariant forall m :: Listed(builder.routes, m) == Listed(old(builder.routes), m) + ServiceRoutes(build, s, m, j)
    {
      ghost var before := builder.routes;
      BuildRpc(builder, build, s.name, s.rpcs[j]);
      forall m ensures Listed(builder.routes, m) == Listed(old(builder.routes), m) + ServiceRoutes(build, s, m, j + 1) {
        ServiceRoutesStep(build, s, m, j);
        assert Listed(before, m) == Listed(old(builder.routes), m) + ServiceRoutes(build, s, m, j);
      }
    }
  }

  lemma NoServiceRoutes(build: string -> Option<Pattern>, s: Service)
    ensures forall m :: ServiceRoutes(build, s, m, 0) == []
  {
  }

  lemma ServiceRoutesStep(build: string -> Option<Pattern>, s: Service, m: string, j: nat)
    requires j < |s.rpcs|
    ensures ServiceRoutes(build, s, m, j + 1) ==
              ServiceRoutes(build, s, m, j) + RpcRoutes(build, s.name, s.rpcs[j], m, |BindingsOf(s.rpcs[j])|)
  {
  }

  method BuildRpc(builder: RouteBuilder, build: string -> Option<Pattern>, s: string, rpc: Rpc)
    requires forall m :: m in builder.routes ==> builder.routes[m] != []
    modifies builder
    ensures forall m :: m in builder.routes ==> builder.routes[m] != []
    ensures forall m :: Listed(builder.routes, m) ==
              Listed(old(builder.routes), m) + RpcRoutes(build, s, rpc, m, |BindingsOf(rpc)|)
  {
    hide RpcRoutes, Listed, RouteOf;
    NoRpcRoutes(build, s, rpc);
    if |rpc.bindings| < 1 {
      builder.AddBinding(build, s, rpc, 0);
      RpcRoutesStep(build, s, rpc, 0);
    } else {
      for k := 0 to |rpc.bindings|
        invariant forall m :: m in builder.routes ==> builder.routes[m] != []
        invariant forall m :: Listed(builder.routes, m) == Listed(old(builder.routes), m) + RpcRoutes(build, s, rpc, m, k)
      {
        ghost var before := builder.routes;
        builder.AddBinding(build, s, rpc, k);
        RpcRoutesStep(build, s, rpc, k);
        forall m ensures Listed(builder.routes, m) == Listed(old(builder.routes), m) + RpcRoutes(build, s, rpc, m, k + 1) {
          assert Listed(before, m) == Listed(old(builder.routes), m) + RpcRoutes(build, s, rpc, m, k);
        }
      }
    }
  }

  lemma NoRpcRoutes(build: string -> Option<Pattern>, s: string, rpc: Rpc)
    ensures forall m :: RpcRoutes(build, s, rpc, m, 0) == []
  {
  }

  lemma RpcRoutesStep(build: string -> Option<Pattern>, s: string, rpc: Rpc, k: nat)
    requires k < |BindingsOf(rpc)|
    ensures forall m :: RpcRoutes(build, s, rpc, m, k + 1) == RpcRoutes(build, s, rpc, m, k) +
              if BindingsOf(rpc)[k].httpMethod != m then []
              else match RouteOf(build, s, rpc, k) case None => [] case Some(r) => [r]
  {
  }

  // ---- one request ---------------------------------------------------------------------

  type Params = map<string, string>

  datatype MatchResult = Matched(params: Params) | NoMatch | MalformedSequence

  /** What the matching library answers for a pattern, path components and a verb. */
  type Matcher = (Pattern, seq<string>, string) -> MatchResult

  /** The library's match of a buffer of components. It may leave anything behind in the buffer. */
  method MatchAndEscape(matcher: Matcher, p: Pattern, components: array<string>, verb: string) returns (r: MatchResult)
    modifies components
    ensures r == matcher(p, old(components[..]), verb)
  {
    r := matcher(p, components[..], verb);
    for i := 0 to components.Length {
      components[i] := *;
    }
  }

  datatype Code = NotFound | InvalidArgument | Unavailable

  datatype RouteResult = Routed(target: Target, route: Route, params: Params) | Refused(code: Code)

  datatype Verdict = Skip | Final(result: RouteResult)

  /** Where the route's own verb starts in the last component, or -1. */
  function VerbStart(last: string, verb: string): int {
    if verb != "" && HasSuffix(last, ":" + verb) then |last| - |verb| - 1 else -1
  }

  /** What one route alone says about the request's original path components. */
  function VerdictOf(matcher: Matcher, components: seq<string>, target: Target, route: Route): Verdict
    requires |components| > 0
  {
    var last := components[|components| - 1];
    var idx := VerbStart(last, route.pattern.verb);
    if idx == 0 then Final(Refused(NotFound))
    else
      var stripped := if idx > 0 then components[|components| - 1 := last[..idx]] else components;
      var verb := if idx > 0 then route.pattern.verb else "";
      match matcher(route.pattern, stripped, verb)
      case NoMatch => Skip
      case MalformedSequence => Final(Refused(InvalidArgument))
      case Matched(params) => Final(Routed(target, route, params))
  }

  /** What an answer of the matching library is turned into. */
  predicate AnswersMatch(m: MatchResult, target: Target, route: Route, v: Verdict) {
    && (m.NoMatch? ==> v == Skip)
    && (m.MalformedSequence? ==> v == Final(Refused(InvalidArgument)))
    && (m.Matched? ==> v == Final(Routed(target, route, m.params)))
  }

  /** The verdict written out. A last component that ends in ":" and the route's verb is matched without them, with the
      verb beside it; when it has nothing else the request is refused; any other path is matched as it is, without a
      verb. */
  ghost predicate RightVerdict(matcher: Matcher, components: seq<string>, target: Target, route: Route, v: Verdict)
    requires |components| > 0
  {
    var pattern, verb := route.pattern, route.pattern.verb;
    && (forall front: seq<string>, p: string :: verb != "" && p != "" && components == front + [p + (":" + verb)] ==>
          AnswersMatch(matcher(pattern, front + [p], verb), target, route, v))
    && (forall front: seq<string> :: verb != "" && components == front + [":" + verb] ==> v == Final(Refused(NotFound)))
    && (verb == "" || (forall p: string :: components[|components| - 1] != p + (":" + verb)) ==>
          AnswersMatch(matcher(pattern, components, ""), target, route, v))
  }

  /** What one route says is the verdict written out. */
  lemma VerdictIsRight(matcher: Matcher, components: seq<string>, target: Target, route: Route)
    requires |components| > 0
    ensures RightVerdict(matcher, components, target, route, VerdictOf(matcher, components, target, route))
  {
    var verb, last, v := route.pattern.verb, components[|components| - 1], VerdictOf(matcher, components, target, route);
    forall front: seq<string>, p: string | verb != "" && p != "" && components == front + [p + (":" + verb)]
      ensures AnswersMatch(matcher(route.pattern, front + [p], verb), target, route, v)
    {
      StripsVerb(p, verb);
      assert last == p + (":" + verb) && components[|components| - 1 := p] == front + [p];
    }
    forall front: seq<string> | verb != "" && components == front + [":" + verb] ensures v == Final(Refused(NotFound)) {
      StripsVerb("", verb);
      assert "" + (":" + verb) == ":" + verb == last;
    }
    if verb == "" || forall p: string :: last != p + (":" + verb) {
      NoVerbThere(last, verb);
    }
  }

  lemma StripsVerb(p: string, verb: string)
    requires verb != ""
    ensures var last := p + (":" + verb); VerbStart(last, verb) == |p| && last[..|p|] == p
  {
  }

  lemma NoVerbThere(last: string, verb: string)
    requires verb == "" || forall p: string :: last != p + (":" + verb)
    ensures VerbStart(last, verb) == -1
  {
    if verb != "" && HasSuffix(last, ":" + verb) {
      var p := BeforeSuffix(last, ":" + verb);
      assert false;
    }
  }

  lemma BeforeSuffix(s: string, suffix: string) returns (p: string)
    requires HasSuffix(s, suffix)
    ensures s == p + suffix
  {
    p := s[..|s| - |suffix|];
  }

  /** There is one right verdict. */
  lemma OneVerdict(matcher: Matcher, components: seq<string>, target: Target, route: Route, v: Verdict)
    requires |components| > 0 && RightVerdict(matcher, components, target, route, v)
    ensures v == VerdictOf(matcher, components, target, route)
  {
    var verb, n := route.pattern.verb, |components| - 1;
    var last, front := components[n], components[..n];
    assert components == front + [last];
    VerdictIsRight(matcher, components, target, route);
    hide VerdictOf;
    if verb != "" && !(forall p: string :: last != p + (":" + verb)) {
      var p: string :| last == p + (":" + verb);
      if p == "" {
        assert components == front + [":" + verb];
      } else {
        assert components == front + [p + (":" + verb)];
      }
    }
  }

  /** The routes of a list of entries one after the other. */
  function Candidates(entries: seq<Entry>): seq<(Target, Route)> {
    if entries == [] then []
    else Candidates(entries[..|entries| - 1]) + Owned(entries[|entries| - 1])
  }

  function Owned(e: Entry): seq<(Target, Route)> {
    seq(|e.routes|, i requires 0 <= i < |e.routes| => (e.target, e.routes[i]))
  }

  /** All candidates skip the request. */
  ghost predicate AllSkip(matcher: Matcher, components: seq<string>, candidates: seq<(Target, Route)>)
    requires |components| > 0
  {
    forall k :: 0 <= k < |candidates| ==> VerdictOf(matcher, components, candidates[k].0, candidates[k].1) == Skip
  }

  /** The request is decided by the first candidate that does not skip it, or not found. */
  ghost predicate FirstDecides(matcher: Matcher, components: seq<string>, candidates: seq<(Target, Route)>, r: RouteResult)
    requires |components| > 0
  {
    || (AllSkip(matcher, components, candidates) && r == Refused(NotFound))
    || (exists k :: 0 <= k < |candidates| && AllSkip(matcher, components, candidates[..k])
          && VerdictOf(matcher, components, candidates[k].0, candidates[k].1) == Final(r))
  }

  /** The first deciding candidate leaves one answer only. */
  lemma FirstDecidesOnce(matcher: Matcher, components: seq<string>, candidates: seq<(Target, Route)>,
                         r: RouteResult, r': RouteResult)
    requires |components| > 0
    requires FirstDecides(matcher, components, candidates, r) && FirstDecides(matcher, components, candidates, r')
    ensures r == r'
  {
    hide VerdictOf;
    if !AllSkip(matcher, components, candidates) {
      var k :| 0 <= k < |candidates| && AllSkip(matcher, components, candidates[..k])
          && VerdictOf(matcher, components, candidates[k].0, candidates[k].1) == Final(r);
      var k' :| 0 <= k' < |candidates| && AllSkip(matcher, components, candidates[..k'])
          && VerdictOf(matcher, components, candidates[k'].0, candidates[k'].1) == Final(r');
      if k < k' { EarlierSkips(matcher, components, candidates, k, k'); }
      if k' < k { EarlierSkips(matcher, components, candidates, k', k); }
    }
  }

  lemma EarlierSkips(matcher: Matcher, components: seq<string>, candidates: seq<(Target, Route)>, k: nat, n: nat)
    requires |components| > 0 && k < n <= |candidates| && AllSkip(matcher, components, candidates[..n])
    ensures VerdictOf(matcher, components, candidates[k].0, candidates[k].1) == Skip
  {
    assert candidates[..n][k] == candidates[k];
  }

  /** The request is decided by the first candidate whose verdict, written out, is not to skip it, or not found. */
  ghost predicate FirstAnswers(matcher: Matcher, components: seq<string>, candidates: seq<(Target, Route)>, r: RouteResult)
    requires |components| > 0
  {
    || (SkippedBefore(matcher, components, candidates, |candidates|) && r == Refused(NotFound))
    || (exists k :: 0 <= k < |candidates| && SkippedBefore(matcher, components, candidates, k)
          && RightVerdict(matcher, components, candidates[k].0, candidates[k].1, Final(r)))
  }

  ghost predicate SkippedBefore(matcher: Matcher, components: seq<string>, candidates: seq<(Target, Route)>, k: nat)
    requires |components| > 0 && k <= |candidates|
  {
    forall i :: 0 <= i < k ==> RightVerdict(matcher, components, candidates[i].0, candidates[i].1, Skip)
  }

  lemma SkipWrittenOut(matcher: Matcher, components: seq<string>, candidates: seq<(Target, Route)>, k: nat)
    requires |components| > 0 && k <= |candidates| && AllSkip(matcher, components, candidates[..k])
    ensures SkippedBefore(matcher, components, candidates, k)
  {
    hide VerdictOf, RightVerdict;
    forall i | 0 <= i < k ensures RightVerdict(matcher, components, candidates[i].0, candidates[i].1, Skip) {
      assert candidates[..k][i] == candidates[i];
      VerdictIsRight(matcher, components, candidates[i].0, candidates[i].1);
    }
  }

  /** What decides by the verdicts decides by the verdicts written out. */
  lemma FirstWrittenOut(matcher: Matcher, components: seq<string>, candidates: seq<(Target, Route)>, r: RouteResult)
    requires |components| > 0 && FirstDecides(matcher, components, candidates, r)
    ensures FirstAnswers(matcher, components, candidates, r)
  {
    hide VerdictOf, RightVerdict, SkippedBefore, AllSkip;
    if AllSkip(matcher, components, candidates) && r == Refused(NotFound) {
      assert candidates[..|candidates|] == candidates;
      SkipWrittenOut(matcher, components, candidates, |candidates|);
    } else {
      var k :| 0 <= k < |candidates| && AllSkip(matcher, components, candidates[..k])
          && VerdictOf(matcher, components, candidates[k].0, candidates[k].1) == Final(r);
      SkipWrittenOut(matcher, components, candidates, k);
      VerdictIsRight(matcher, components, candidates[k].0, candidates[k].1);
    }
  }

  /** The answer for a decided request: it needs a connection to the target. */
  predicate Connected(pool: set<string>, decided: RouteResult, r: RouteResult) {
    && (decided.Refused? ==> r == decided)
    && (decided.Routed? ==> r == if decided.target.name in pool then decided else Refused(Unavailable))
  }

  /** What the router answers when `decided` came out of the table. */
  function WithConnection(pool: set<string>, decided: RouteResult): RouteResult {
    match decided
    case Refused(_) => decided
    case Routed(target, _, _) => if target.name in pool then decided else Refused(Unavailable)
  }

  lemma ConnectionNeeded(pool: set<string>, decided: RouteResult)
    ensures Connected(pool, decided, WithConnection(pool, decided))
  {
  }

  /** Tries one route, overwriting the shared buffer of components. */
  method TryRoute(matcher: Matcher, components: seq<string>, buffer: array<string>, target: Target, route: Route)
    returns (v: Verdict)
    requires |components| > 0 && buffer.Length == |components|
    modifies buffer
    ensures v == VerdictOf(matcher, components, target, route)
    ensures RightVerdict(matcher, components, target, route, v)
  {
    VerdictIsRight(matcher, components, target, route);
    hide RightVerdict;
    var last := components[|components| - 1];
    var verb := "";
    var patternVerb := route.pattern.verb;
    var verbIdx := -1;
    if patternVerb != "" && HasSuffix(last, ":" + patternVerb) {
      verbIdx := |last| - |patternVerb| - 1;
    }
    if verbIdx == 0 {
      return Final(Refused(NotFound));
    }
    forall i | 0 <= i < buffer.Length {
      buffer[i] := components[i];
    }
    if verbIdx > 0 {
      buffer[buffer.Length - 1], verb := last[..verbIdx], last[verbIdx + 1..];
      assert last[verbIdx..] == ":" + patternVerb;
      assert verb == last[verbIdx..][1..];
      assert buffer[..] == components[|components| - 1 := last[..verbIdx]];
    } else {
      assert buffer[..] == components;
    }
    var m := MatchAndEscape(matcher, route.pattern, buffer, verb);
    match m {
      case NoMatch => v := Skip;
      case MalformedSequence => v := Final(Refused(InvalidArgument));
      case Matched(params) => v := Final(Routed(target, route, params));
    }
  }

  /** Tries the routes of one list element in order. */
  method TryEntry(matcher: Matcher, components: seq<string>, buffer: array<string>, e: Entry) returns (v: Verdict)
    requires |components| > 0 && buffer.Length == |components|
    modifies buffer
    ensures v == Skip ==> AllSkip(matcher, components, Owned(e))
    ensures v.Final? ==> exists k :: 0 <= k < |Owned(e)| && AllSkip(matcher, components, Owned(e)[..k])
                           && VerdictOf(matcher, components, Owned(e)[k].0, Owned(e)[k].1) == v
  {
    hide VerdictOf;
    for i := 0 to |e.routes|
      invariant AllSkip(matcher, components, Owned(e)[..i])
    {
      v := TryRoute(matcher, components, buffer, e.target, e.routes[i]);
      assert Owned(e)[i] == (e.target, e.routes[i]);
      if v.Final? {
        return;
      }
    }
    assert Owned(e)[..|e.routes|] == Owned(e);
    v := Skip;
  }

  /** RouteHTTP over the snapshot loaded at its start. */
  method RouteHTTP(table: StaticTable, matcher: Matcher, pool: set<string>, httpMethod: string, rawPath: string, decodedPath: string)
    returns (r: RouteResult)
    requires table.Valid()
    ensures var path := if rawPath == "" then decodedPath else rawPath;
            if path == "" || path[0] != '/' then r == Refused(InvalidArgument)
            else exists decided ::
              && FirstDecides(matcher, Split(path[1..], '/'), Candidates(ListFor(table.View(), httpMethod)), decided)
              && FirstAnswers(matcher, Split(path[1..], '/'), Candidates(ListFor(table.View(), httpMethod)), decided)
              && Connected(pool, decided, r)
  {
    hide *;
    var path := rawPath;
    if path == "" {
      path := decodedPath;
    }
    if path == "" || path[0] != '/' {
      return Refused(InvalidArgument);
    }
    var components := Split(path[1..], '/');
    var buffer := new string[|components|];
    ghost var candidates := Candidates(ListFor(table.View(), httpMethod));
    var decided := Decide(table, matcher, components, buffer, httpMethod);
    FirstWrittenOut(matcher, components, candidates, decided);
    r := WithConnection(pool, decided);
    ConnectionNeeded(pool, decided);
  }

  /** The list elements of a snapshot carry the entries it shows. */
  lemma ItemsShown(held: StaticTable, m: string)
    requires held.Valid()
    ensures m !in held.routes ==> ListFor(held.View(), m) == []
    ensures m in held.routes ==>
              var entries, items := ListFor(held.View(), m), held.routes[m].items;
              |entries| == |items| && forall i :: 0 <= i < |items| ==> entries[i] == items[i].value
  {
  }

  lemma NothingYet(matcher: Matcher, components: seq<string>, entries: seq<Entry>)
    requires |components| > 0
    ensures AllSkip(matcher, components, Candidates(entries[..0]))
    ensures entries == [] ==> AllSkip(matcher, components, Candidates(entries))
  {
  }

  lemma NoneDecides(matcher: Matcher, components: seq<string>, entries: seq<Entry>)
    requires |components| > 0 && AllSkip(matcher, components, Candidates(entries))
    ensures FirstDecides(matcher, components, Candidates(entries), Refused(NotFound))
  {
    hide AllSkip;
  }

  lemma SkipBoth(matcher: Matcher, components: seq<string>, a: seq<(Target, Route)>, b: seq<(Target, Route)>)
    requires |components| > 0 && AllSkip(matcher, components, a) && AllSkip(matcher, components, b)
    ensures AllSkip(matcher, components, a + b)
  {
    hide VerdictOf;
  }

  lemma DecidedHere(matcher: Matcher, components: seq<string>, entries: seq<Entry>, i: nat, v: Verdict)
    requires |components| > 0 && i < |entries| && v.Final? && AllSkip(matcher, components, Candidates(entries[..i]))
    requires exists k :: 0 <= k < |Owned(entries[i])| && AllSkip(matcher, components, Owned(entries[i])[..k])
                && VerdictOf(matcher, components, Owned(entries[i])[k].0, Owned(entries[i])[k].1) == v
    ensures FirstDecides(matcher, components, Candidates(entries), v.result)
  {
    hide *;
    CandidatesStep(entries, i);
    var before, own := Candidates(entries[..i]), Owned(entries[i]);
    var k :| 0 <= k < |own| && AllSkip(matcher, components, own[..k]) && VerdictOf(matcher, components, own[k].0, own[k].1) == v;
    DecidedAt(matcher, components, before, own, k, Candidates(entries)[|before| + |own|..], v.result);
  }

  /** The iteration of RouteHTTP over the list of the request's HTTP method. */
  method Decide(table: StaticTable, matcher: Matcher, components: seq<string>, buffer: array<string>, httpMethod: string)
    returns (decided: RouteResult)
    requires table.Valid() && |components| > 0 && buffer.Length == |components|
    modifies buffer
    ensures FirstDecides(matcher, components, Candidates(ListFor(old(table.View()), httpMethod)), decided)
  {
    hide *;
    ghost var entries := ListFor(table.View(), httpMethod);
    ItemsShown(table, httpMethod);
    NothingYet(matcher, components, entries);
    if httpMethod !in table.routes {
      NoneDecides(matcher, components, entries);
      return Refused(NotFound);
    }
    var items := table.routes[httpMethod].items;
    for i := 0 to |items|
      invariant |entries| == |items| && forall j :: 0 <= j < |items| ==> entries[j] == items[j].value
      invariant AllSkip(matcher, components, Candidates(entries[..i]))
    {
      var v := TryEntry(matcher, components, buffer, items[i].value);
      CandidatesStep(entries, i);
      if v.Final? {
        DecidedHere(matcher, components, entries, i, v);
        return v.result;
      }
      SkipBoth(matcher, components, Candidates(entries[..i]), Owned(entries[i]));
    }
    assert entries[..|items|] == entries;
    NoneDecides(matcher, components, entries);
    return Refused(NotFound);
  }

  lemma {:induction false} CandidatesStep(entries: seq<Entry>, i: nat)
    requires i < |entries|
    ensures Candidates(entries[..i + 1]) == Candidates(entries[..i]) + Owned(entries[i])
    ensures var n := |Candidates(entries[..i])| + |Owned(entries[i])|;
            n <= |Candidates(entries)| &&
            Candidates(entries) == Candidates(entries[..i]) + Owned(entries[i]) + Candidates(entries)[n..]
    decreases |entries|
  {
    hide Owned;
    assert entries[..i + 1][..i] == entries[..i];
    if i + 1 == |entries| {
      assert entries[..i + 1] == entries;
    } else {
      var front := entries[..|entries| - 1];
      CandidatesStep(front, i);
      assert front[..i] == entries[..i] && front[..i + 1] == entries[..i + 1] && front[i] == entries[i];
      assert Candidates(entries) == Candidates(front) + Owned(entries[|entries| - 1]);
    }
  }

  lemma DecidedAt(matcher: Matcher, components: seq<string>, before: seq<(Target, Route)>, own: seq<(Target, Route)>, k: nat,
                  after: seq<(Target, Route)>, r: RouteResult)
    requires |components| > 0 && k < |own|
    requires AllSkip(matcher, components, before) && AllSkip(matcher, components, own[..k])
    requires VerdictOf(matcher, components, own[k].0, own[k].1) == Final(r)
    ensures FirstDecides(matcher, components, before + own + after, r)
  {
    hide VerdictOf;
    var all := before + own + after;
    var n := |before| + k;
    assert all[n] == own[k];
    assert all[..n] == before + own[..k];
  }

  // ---- snapshots -----------------------------------------------------------------------

  /** The snapshot shares nothing with what the table may change. */
  ghost predicate Apart(mt: MutableTable, held: StaticTable)
    reads mt
  {
    held.routes.Values !! mt.routes.Values && held.elems !! mt.elems
  }

  method ApplyChange(mt: MutableTable, c: Change, held: StaticTable, ghost before: seq<Change>)
    requires mt.Valid() && mt.View() == TableOf(before) && held.Valid() && Apart(mt, held)
    modifies mt, mt.routes.Values, mt.elems
    ensures mt.Valid() && mt.View() == TableOf(before + [c])
    ensures held.Valid() && held.View() == old(held.View()) && Apart(mt, held)
    ensures fresh(mt.routes.Values - old(mt.routes.Values)) && fresh(mt.elems - old(mt.elems))
  {
    TableOfStep(before, c);
    hide *;
    ApartParts(mt, held);
    if c.Add? {
      mt.AddTarget(c.target, c.routes);
    } else {
      mt.RemoveTarget(c.name);
    }
    ApartParts(mt, held);
  }

  lemma ApartParts(mt: MutableTable, held: StaticTable)
    ensures Apart(mt, held) <==> held.routes.Values !! mt.routes.Values && held.elems !! mt.elems
  {
  }

  /** Whatever changes follow, a snapshot taken earlier keeps showing the table of its commit. */
  method Replay(mt: MutableTable, h: seq<Change>, held: StaticTable, ghost before: seq<Change>)
    requires mt.Valid() && mt.View() == TableOf(before) && held.Valid() && Apart(mt, held)
    modifies mt, mt.routes.Values, mt.elems
    ensures mt.Valid() && mt.View() == TableOf(before + h)
    ensures held.Valid() && held.View() == old(held.View()) && Apart(mt, held)
    ensures fresh(mt.routes.Values - old(mt.routes.Values)) && fresh(mt.elems - old(mt.elems))
    decreases |h|
  {
    hide *;
    if h == [] {
      assert before + h == before;
    } else {
      ApplyChange(mt, h[0], held, before);
      assert before + [h[0]] + h[1..] == before + h;
      Replay(mt, h[1..], held, before + [h[0]]);
    }
  }

  // ---- a request amid changes ----------------------------------------------------------

  /** The table shows the history `h`, and the snapshot still shows `view`. */
  ghost predicate Holding(mt: MutableTable, held: StaticTable, h: seq<Change>, view: Table)
    reads mt, mt.routes.Values, mt.elems, mt.published, mt.published.routes.Values, mt.published.elems, held.routes.Values, held.elems
  {
    mt.Valid() && mt.View() == TableOf(h) && held.Valid() && held.View() == view && Apart(mt, held)
  }

  lemma HoldingParts(mt: MutableTable, held: StaticTable, h: seq<Change>, view: Table)
    ensures Holding(mt, held, h, view) <==>
              mt.Valid() && mt.View() == TableOf(h) && held.Valid() && held.View() == view && Apart(mt, held)
  {
  }

  /** Some changes happen, then one route is tried. */
  method ChangeThenTry(mt: MutableTable, held: StaticTable, changes: seq<Change>, ghost h: seq<Change>, ghost view: Table,
                       matcher: Matcher, components: seq<string>, buffer: array<string>, target: Target, route: Route)
    returns (v: Verdict)
    requires Holding(mt, held, h, view) && |components| > 0 && buffer.Length == |components|
    modifies buffer, mt, mt.routes.Values, mt.elems
    ensures Holding(mt, held, h + changes, view)
    ensures fresh(mt.routes.Values - old(mt.routes.Values)) && fresh(mt.elems - old(mt.elems))
    ensures v == VerdictOf(matcher, components, target, route)
  {
    hide *;
    HoldingParts(mt, held, h, view);
    Replay(mt, changes, held, h);
    HoldingParts(mt, held, h + changes, view);
    v := TryRoute(matcher, components, buffer, target, route);
  }

  /** The changes before the first `n` routes of one element. */
  function RowChanges(changes: nat -> seq<Change>, n: nat): seq<Change> {
    if n == 0 then [] else RowChanges(changes, n - 1) + changes(n - 1)
  }

  /** The numbers of the first `n` routes of the element at `i`. */
  function RowSlots(i: nat, n: nat): seq<(nat, nat)> {
    if n == 0 then [] else RowSlots(i, n - 1) + [(i, n - 1)]
  }

  /** Where the candidates stand: the number of the list element and of the route in it, in the order they are tried. */
  function Slots(entries: seq<Entry>): seq<(nat, nat)> {
    if entries == [] then []
    else Slots(entries[..|entries| - 1]) + RowSlots(|entries| - 1, |entries[|entries| - 1].routes|)
  }

  /** The changes before the routes at these places, in order. */
  function ChangesAt(changes: (nat, nat) -> seq<Change>, slots: seq<(nat, nat)>): seq<Change> {
    if slots == [] then []
    else
      var last := slots[|slots| - 1];
      ChangesAt(changes, slots[..|slots| - 1]) + changes(last.0, last.1)
  }

  predicate Names(entries: seq<Entry>, at: (nat, nat), candidate: (Target, Route)) {
    && at.0 < |entries| && at.1 < |entries[at.0].routes|
    && candidate == (entries[at.0].target, entries[at.0].routes[at.1])
  }

  /** Each candidate is the route its place names. */
  lemma {:induction false} SlotsAreCandidates(entries: seq<Entry>)
    ensures |Slots(entries)| == |Candidates(entries)|
    ensures forall j :: 0 <= j < |Slots(entries)| ==> Names(entries, Slots(entries)[j], Candidates(entries)[j])
    decreases |entries|
  {
    if entries != [] {
      hide *;
      var n := |entries| - 1;
      var front, last := entries[..n], entries[n];
      SlotsAreCandidates(front);
      RowSlotsAt(n, |last.routes|);
      SlotsUnfold(entries);
      OwnedSize(last);
      forall j | 0 <= j < |Slots(entries)| ensures Names(entries, Slots(entries)[j], Candidates(entries)[j]) {
        if j < |Slots(front)| {
          NamesMore(entries, Slots(front)[j], Candidates(front)[j]);
        } else {
          OwnedAt(last, j - |Slots(front)|);
          NamesLast(entries, j - |Slots(front)|);
        }
      }
    }
  }

  lemma OwnedSize(e: Entry)
    ensures |Owned(e)| == |e.routes|
  {
  }

  lemma NamesMore(entries: seq<Entry>, at: (nat, nat), candidate: (Target, Route))
    requires entries != [] && Names(entries[..|entries| - 1], at, candidate)
    ensures Names(entries, at, candidate)
  {
  }

  lemma NamesLast(entries: seq<Entry>, k: nat)
    requires entries != [] && k < |entries[|entries| - 1].routes|
    ensures var n := |entries| - 1; Names(entries, (n, k), (entries[n].target, entries[n].routes[k]))
  {
  }

  lemma SlotsUnfold(entries: seq<Entry>)
    requires entries != []
    ensures var n := |entries| - 1;
            && Slots(entries) == Slots(entries[..n]) + RowSlots(n, |entries[n].routes|)
            && Candidates(entries) == Candidates(entries[..n]) + Owned(entries[n])
  {
  }

  lemma {:induction false} RowSlotsAt(i: nat, n: nat)
    ensures |RowSlots(i, n)| == n && forall k :: 0 <= k < n ==> RowSlots(i, n)[k] == (i, k)
    decreases n
  {
    if n > 0 { RowSlotsAt(i, n - 1); }
  }

  lemma {:induction false} SlotsStep(entries: seq<Entry>, i: nat)
    requires i < |entries|
    ensures Slots(entries[..i + 1]) == Slots(entries[..i]) + RowSlots(i, |entries[i].routes|) <= Slots(entries)
    decreases |entries|
  {
    hide *;
    assert entries[..i + 1][..i] == entries[..i] && entries[..i + 1][i] == entries[i];
    SlotsUnfold(entries[..i + 1]);
    if i + 1 == |entries| {
      assert entries[..i + 1] == entries;
    } else {
      var front := entries[..|entries| - 1];
      SlotsStep(front, i);
      assert front[..i] == entries[..i] && front[..i + 1] == entries[..i + 1] && front[i] == entries[i];
      SlotsUnfold(entries);
      PrefixGrows(Slots(entries[..i + 1]), Slots(front), RowSlots(|front|, |entries[|front|].routes|));
    }
  }

  lemma PrefixGrows(a: seq<(nat, nat)>, b: seq<(nat, nat)>, c: seq<(nat, nat)>)
    requires a <= b
    ensures a <= b + c
  {
  }

  lemma {:induction false} ChangesStep(changes: (nat, nat) -> seq<Change>, slots: seq<(nat, nat)>, i: nat, row: nat -> seq<Change>, n: nat)
    requires forall k: nat :: row(k) == changes(i, k)
    ensures ChangesAt(changes, slots + RowSlots(i, n)) == ChangesAt(changes, slots) + RowChanges(row, n)
    decreases n
  {
    hide *;
    if n == 0 {
      NoRow(i, row);
      assert slots + [] == slots && ChangesAt(changes, slots) + [] == ChangesAt(changes, slots);
    } else {
      ChangesStep(changes, slots, i, row, n - 1);
      RowEnds(i, row, n);
      OneMoreChange(changes, slots + RowSlots(i, n - 1), (i, n - 1));
      assert slots + (RowSlots(i, n - 1) + [(i, n - 1)]) == slots + RowSlots(i, n - 1) + [(i, n - 1)];
      assert ChangesAt(changes, slots) + (RowChanges(row, n - 1) + row(n - 1))
          == ChangesAt(changes, slots) + RowChanges(row, n - 1) + row(n - 1);
    }
  }

  lemma NoRow(i: nat, row: nat -> seq<Change>)
    ensures RowSlots(i, 0) == [] && RowChanges(row, 0) == []
  {
  }

  lemma RowEnds(i: nat, row: nat -> seq<Change>, n: nat)
    requires n > 0
    ensures RowSlots(i, n) == RowSlots(i, n - 1) + [(i, n - 1)] && RowChanges(row, n) == RowChanges(row, n - 1) + row(n - 1)
  {
  }

  lemma OneMoreChange(changes: (nat, nat) -> seq<Change>, slots: seq<(nat, nat)>, last: (nat, nat))
    ensures ChangesAt(changes, slots + [last]) == ChangesAt(changes, slots) + changes(last.0, last.1)
  {
    assert (slots + [last])[..|slots|] == slots;
  }

  /** The first `tried` places of a list that ends in the middle of element `i`. */
  lemma SlotsTried(entries: seq<Entry>, i: nat, n: nat)
    requires i < |entries| && n <= |entries[i].routes|
    ensures var tried := |Slots(entries[..i])| + n;
            tried <= |Slots(entries)| && Slots(entries)[..tried] == Slots(entries[..i]) + RowSlots(i, n)
  {
    hide Slots, RowSlots;
    SlotsStep(entries, i);
    RowSlotsAt(i, n);
    RowSlotsAt(i, |entries[i].routes|);
    assert RowSlots(i, n) == RowSlots(i, |entries[i].routes|)[..n];
    var all := Slots(entries);
    assert all[..|Slots(entries[..i + 1])|] == Slots(entries[..i + 1]);
  }

  /** The candidate tried last decides, all before it having skipped; or all were tried and skip. */
  ghost predicate DecidesLast(matcher: Matcher, components: seq<string>, candidates: seq<(Target, Route)>, tried: nat, r: RouteResult)
    requires |components| > 0
  {
    && tried <= |candidates|
    && if AllSkip(matcher, components, candidates) then tried == |candidates| && r == Refused(NotFound)
       else
         && tried > 0 && AllSkip(matcher, components, candidates[..tried - 1])
         && VerdictOf(matcher, components, candidates[tried - 1].0, candidates[tried - 1].1) == Final(r)
  }

  /** The routes of one element are tried with changes before each. */
  method TryEntryAmid(mt: MutableTable, held: StaticTable, changes: nat -> seq<Change>, ghost h0: seq<Change>, ghost view: Table,
                      matcher: Matcher, components: seq<string>, buffer: array<string>, e: Entry)
    returns (v: Verdict, ghost tried: nat)
    requires Holding(mt, held, h0, view) && |components| > 0 && buffer.Length == |components|
    modifies buffer, mt, mt.routes.Values, mt.elems
    ensures Holding(mt, held, h0 + RowChanges(changes, tried), view)
    ensures fresh(mt.routes.Values - old(mt.routes.Values)) && fresh(mt.elems - old(mt.elems))
    ensures |Owned(e)| == |e.routes| >= tried
    ensures v == Skip ==> tried == |e.routes| && AllSkip(matcher, components, Owned(e))
    ensures v.Final? ==> tried > 0 && AllSkip(matcher, components, Owned(e)[..tried - 1])
                         && VerdictOf(matcher, components, Owned(e)[tried - 1].0, Owned(e)[tried - 1].1) == v
  {
    hide *;
    ghost var h := h0;
    NoneTried(matcher, components, e);
    NoChanges(changes, h0);
    for i := 0 to |e.routes|
      invariant h == h0 + RowChanges(changes, i) && Holding(mt, held, h, view) && |Owned(e)| == |e.routes|
      invariant fresh(mt.routes.Values - old(mt.routes.Values)) && fresh(mt.elems - old(mt.elems))
      invariant AllSkip(matcher, components, Owned(e)[..i])
    {
      OwnedAt(e, i);
      MoreChanges(changes, h0, i);
      v := ChangeThenTry(mt, held, changes(i), h, view, matcher, components, buffer, e.target, e.routes[i]);
      h := h + changes(i);
      if v.Final? {
        return v, i + 1;
      }
      SkipMore(matcher, components, Owned(e), i);
    }
    assert Owned(e)[..|e.routes|] == Owned(e);
    return Skip, |e.routes|;
  }

  lemma NoChanges(changes: nat -> seq<Change>, h: seq<Change>)
    ensures h + RowChanges(changes, 0) == h
  {
  }

  lemma MoreChanges(changes: nat -> seq<Change>, h: seq<Change>, i: nat)
    ensures h + RowChanges(changes, i + 1) == h + RowChanges(changes, i) + changes(i)
  {
  }

  lemma NoneTried(matcher: Matcher, components: seq<string>, e: Entry)
    requires |components| > 0
    ensures |Owned(e)| == |e.routes| && AllSkip(matcher, components, Owned(e)[..0])
  {
  }

  lemma OwnedAt(e: Entry, i: nat)
    requires i < |e.routes|
    ensures |Owned(e)| == |e.routes| && Owned(e)[i] == (e.target, e.routes[i])
  {
  }

  lemma SkipMore(matcher: Matcher, components: seq<string>, candidates: seq<(Target, Route)>, i: nat)
    requires |components| > 0 && i < |candidates| && AllSkip(matcher, components, candidates[..i])
    requires VerdictOf(matcher, components, candidates[i].0, candidates[i].1) == Skip
    ensures AllSkip(matcher, components, candidates[..i + 1])
  {
    hide VerdictOf;
    assert candidates[..i + 1] == candidates[..i] + [candidates[i]];
  }

  /** The iteration of RouteHTTP with changes before every route it tries. */
  method DecideAmid(mt: MutableTable, held: StaticTable, changes: (nat, nat) -> seq<Change>, ghost h0: seq<Change>, ghost view: Table,
                    matcher: Matcher, components: seq<string>, buffer: array<string>, httpMethod: string)
    returns (decided: RouteResult, ghost tried: nat)
    requires Holding(mt, held, h0, view) && |components| > 0 && buffer.Length == |components|
    modifies buffer, mt, mt.routes.Values, mt.elems
    ensures DecidesLast(matcher, components, Candidates(ListFor(view, httpMethod)), tried, decided)
    ensures |Slots(ListFor(view, httpMethod))| >= tried
    ensures Holding(mt, held, h0 + ChangesAt(changes, Slots(ListFor(view, httpMethod))[..tried]), view)
  {
    hide *;
    ghost var h, entries := h0, ListFor(view, httpMethod);
    HoldingParts(mt, held, h, view);
    ItemsShown(held, httpMethod);
    NothingYet(matcher, components, entries);
    NothingChanged(changes, entries, h0);
    SlotsAreCandidates(entries);
    if httpMethod !in held.routes {
      AllTried(matcher, components, entries);
      return Refused(NotFound), 0;
    }
    var n := |held.routes[httpMethod].items|;
    var i := 0;
    while i < n
      invariant 0 <= i <= n == |entries| && httpMethod in held.routes
      invariant h == h0 + ChangesAt(changes, Slots(entries[..i])) && Holding(mt, held, h, view)
      invariant fresh(mt.routes.Values - old(mt.routes.Values)) && fresh(mt.elems - old(mt.elems))
      invariant AllSkip(matcher, components, Candidates(entries[..i]))
    {
      HoldingParts(mt, held, h, view);
      ItemsShown(held, httpMethod);
      var e := held.routes[httpMethod].items[i].value;
      var at: nat := i;
      var row := (k: nat) => changes(at, k);
      var v;
      v, tried := TryEntryAmid(mt, held, row, h, view, matcher, components, buffer, e);
      ChangesTried(changes, h0, entries, i, row, tried);
      CandidatesStep(entries, i);
      if v.Final? {
        SlotsAreCandidates(entries[..i]);
        LastDecides(matcher, components, entries, i, tried, v);
        return v.result, |Slots(entries[..i])| + tried;
      }
      SlotsStep(entries, i);
      h := h + RowChanges(row, tried);
      SkipBoth(matcher, components, Candidates(entries[..i]), Owned(e));
      i := i + 1;
    }
    assert entries[..n] == entries;
    AllTried(matcher, components, entries);
    assert Slots(entries)[..|Slots(entries)|] == Slots(entries);
    return Refused(NotFound), |Slots(entries)|;
  }

  lemma NothingChanged(changes: (nat, nat) -> seq<Change>, entries: seq<Entry>, h: seq<Change>)
    ensures entries[..0] == [] && h + ChangesAt(changes, Slots(entries[..0])) == h
    ensures entries == [] ==> Slots(entries) == [] && h + ChangesAt(changes, Slots(entries)[..0]) == h
  {
  }

  lemma ChangesTried(changes: (nat, nat) -> seq<Change>, h: seq<Change>, entries: seq<Entry>, i: nat, row: nat -> seq<Change>, n: nat)
    requires i < |entries| && n <= |entries[i].routes| && forall k: nat :: row(k) == changes(i, k)
    ensures var tried := |Slots(entries[..i])| + n;
            && tried <= |Slots(entries)|
            && h + ChangesAt(changes, Slots(entries)[..tried]) == h + ChangesAt(changes, Slots(entries[..i])) + RowChanges(row, n)
            && Slots(entries)[..tried] == Slots(entries[..i]) + RowSlots(i, n)
  {
    hide Slots, RowSlots, ChangesAt, RowChanges;
    SlotsTried(entries, i, n);
    ChangesStep(changes, Slots(entries[..i]), i, row, n);
    assert h + (ChangesAt(changes, Slots(entries[..i])) + RowChanges(row, n))
        == h + ChangesAt(changes, Slots(entries[..i])) + RowChanges(row, n);
  }

  lemma AllTried(matcher: Matcher, components: seq<string>, entries: seq<Entry>)
    requires |components| > 0 && AllSkip(matcher, components, Candidates(entries))
    ensures DecidesLast(matcher, components, Candidates(entries), |Candidates(entries)|, Refused(NotFound))
  {
    hide AllSkip;
  }

  lemma LastDecides(matcher: Matcher, components: seq<string>, entries: seq<Entry>, i: nat, n: nat, v: Verdict)
    requires |components| > 0 && i < |entries| && v.Final? && AllSkip(matcher, components, Candidates(entries[..i]))
    requires 0 < n <= |Owned(entries[i])| && AllSkip(matcher, components, Owned(entries[i])[..n - 1])
    requires VerdictOf(matcher, components, Owned(entries[i])[n - 1].0, Owned(entries[i])[n - 1].1) == v
    ensures DecidesLast(matcher, components, Candidates(entries), |Candidates(entries[..i])| + n, v.result)
  {
    hide *;
    CandidatesStep(entries, i);
    var before, own, all := Candidates(entries[..i]), Owned(entries[i]), Candidates(entries);
    var k := |before| + n - 1;
    assert all[k] == own[n - 1];
    assert all[..k] == before + own[..n - 1];
    SkipBoth(matcher, components, before, own[..n - 1]);
    DecidesAt(matcher, components, all, k, v);
  }

  lemma DecidesAt(matcher: Matcher, components: seq<string>, candidates: seq<(Target, Route)>, k: nat, v: Verdict)
    requires |components| > 0 && k < |candidates| && v.Final? && AllSkip(matcher, components, candidates[..k])
    requires VerdictOf(matcher, components, candidates[k].0, candidates[k].1) == v
    ensures DecidesLast(matcher, components, candidates, k + 1, v.result)
  {
    hide VerdictOf;
  }

  /** The candidate tried last is the first that decides. */
  lemma LastIsFirst(matcher: Matcher, components: seq<string>, candidates: seq<(Target, Route)>, tried: nat, r: RouteResult)
    requires |components| > 0 && DecidesLast(matcher, components, candidates, tried, r)
    ensures FirstDecides(matcher, components, candidates, r)
  {
    hide AllSkip, VerdictOf;
  }

  /** RouteHTTP while the table changes: it loads the published snapshot once. Whatever changes happen before each route
      it tries, the request is decided by the table as it was when the snapshot was loaded; and exactly the changes
      before the routes up to the deciding one are in the table then. */
  method RouteAmidChanges(mt: MutableTable, changes: (nat, nat) -> seq<Change>, ghost before: seq<Change>, matcher: Matcher,
                          pool: set<string>, httpMethod: string, rawPath: string, decodedPath: string)
    returns (r: RouteResult, ghost tried: nat)
    requires mt.Valid() && mt.View() == TableOf(before)
    modifies mt, mt.routes.Values, mt.elems
    ensures mt.Valid() && tried <= |Slots(ListFor(TableOf(before), httpMethod))|
    ensures mt.View() == TableOf(before + ChangesAt(changes, Slots(ListFor(TableOf(before), httpMethod))[..tried]))
    ensures var path := if rawPath == "" then decodedPath else rawPath;
            if path == "" || path[0] != '/' then tried == 0 && r == Refused(InvalidArgument)
            else exists decided ::
              && DecidesLast(matcher, Split(path[1..], '/'), Candidates(ListFor(TableOf(before), httpMethod)), tried, decided)
              && FirstAnswers(matcher, Split(path[1..], '/'), Candidates(ListFor(TableOf(before), httpMethod)), decided)
              && Connected(pool, decided, r)
  {
    hide *;
    var path := rawPath;
    if path == "" {
      path := decodedPath;
    }
    ghost var entries := ListFor(TableOf(before), httpMethod);
    if path == "" || path[0] != '/' {
      NothingTried(changes, entries, before);
      return Refused(InvalidArgument), 0;
    }
    var held := mt.published;
    PublishedHeld(mt, before);
    var components := Split(path[1..], '/');
    var buffer := new string[|components|];
    var decided;
    decided, tried := DecideAmid(mt, held, changes, before, TableOf(before), matcher, components, buffer, httpMethod);
    HoldingParts(mt, held, before + ChangesAt(changes, Slots(entries)[..tried]), TableOf(before));
    LastIsFirst(matcher, components, Candidates(entries), tried, decided);
    FirstWrittenOut(matcher, components, Candidates(entries), decided);
    r := WithConnection(pool, decided);
    ConnectionNeeded(pool, decided);
  }

  lemma NothingTried(changes: (nat, nat) -> seq<Change>, entries: seq<Entry>, h: seq<Change>)
    ensures h + ChangesAt(changes, Slots(entries)[..0]) == h
  {
    hide Slots;
    assert Slots(entries)[..0] == [];
  }

  lemma PublishedHeld(mt: MutableTable, h: seq<Change>)
    requires mt.Valid() && mt.View() == TableOf(h)
    ensures Holding(mt, mt.published, h, TableOf(h))
  {
    hide TableOf, ListsOk, TableIn;
  }

  lemma TableOfStep(h: seq<Change>, c: Change)
    ensures TableOf(h + [c]) == Apply(TableOf(h), c)
    ensures c.Add? ==> Apply(TableOf(h), c) == AddTarget(TableOf(h), c.target, c.routes)
    ensures c.Remove? ==> Apply(TableOf(h), c) == RemoveTarget(TableOf(h), c.name)
  {
    assert (h + [c])[..|h|] == h;
  }
}
