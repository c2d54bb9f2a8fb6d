/** Which target owns which gRPC service, as a value: the table of routing/service_router.go and what updates make of it. */
module ServiceRoutes {
  import opened Text

  datatype Service = Service(name: string, methods: seq<string>)

  datatype Target = Target(name: string, services: seq<Service>)

  datatype Route = Route(target: Target, service: Service)

  type Routes = map<string, Route>
  type Owned = map<string, seq<string>>

  datatype Table = Table(routes: Routes, owned: Owned)

  function Names(services: seq<Service>): set<string> {
    set s | s in services :: s.name
  }

  /** The first service of the name. */
  function First(services: seq<Service>, name: string): (s: Service)
    requires name in Names(services)
    ensures s in services && s.name == name
  {
    if services[0].name == name then services[0] else First(services[1..], name)
  }

  predicate OwnedByOther(routes: Routes, name: string, target: string) {
    name in routes && routes[name].target.name != target
  }

  function OwnedBy(owned: Owned, target: string): seq<string> {
    if target in owned then owned[target] else []
  }

  /** Where a service goes after the update: other targets keep theirs, a service already routed keeps the description
      stored first, and what the description no longer lists is dropped. */
  function RouteAfter(routes: Routes, desc: Target, name: string): Option<Route> {
    if OwnedByOther(routes, name, desc.name) then Some(routes[name])
    else if name !in Names(desc.services) then None
    else if name in routes then Some(routes[name])
    else Some(Route(desc, First(desc.services, name)))
  }

  /** The services of an update that no other target owns, in order. */
  function Claimed(routes: Routes, target: string, services: seq<Service>): (r: seq<string>)
    ensures forall n :: n in r <==> n in Names(services) && !OwnedByOther(routes, n, target)
    decreases |services|
  {
    if services == [] then []
    else
      var n := |services| - 1;
      assert services == services[..n] + [services[n]];
      Claimed(routes, target, services[..n])
      + if OwnedByOther(routes, services[n].name, target) then [] else [services[n].name]
  }

  function Updated(t: Table, desc: Target): Table {
    Table(map n | n in t.routes.Keys + Names(desc.services) && RouteAfter(t.routes, desc, n).Some? :: RouteAfter(t.routes, desc, n).value,
          t.owned[desc.name := Claimed(t.routes, desc.name, desc.services)])
  }

  function Removed(t: Table, target: string): Table {
    Table(map n | n in t.routes && OwnedByOther(t.routes, n, target) :: t.routes[n], t.owned - {target})
  }

  /** A service is routed to a target if and only if the target's list holds it. */
  ghost predicate OwnersAgree(t: Table) {
    && (forall n :: n in t.routes ==> n in OwnedBy(t.owned, t.routes[n].target.name))
    && (forall o, n :: o in t.owned && n in t.owned[o] ==> n in t.routes && t.routes[n].target.name == o)
  }

  lemma UpdatedAgrees(t: Table, desc: Target)
    requires OwnersAgree(t)
    ensures OwnersAgree(Updated(t, desc))
  {
    var t' := Updated(t, desc);
    hide First, Claimed;
    forall n | n in t'.routes ensures n in OwnedBy(t'.owned, t'.routes[n].target.name) {
      assert RouteAfter(t.routes, desc, n) == Some(t'.routes[n]);
      assert t'.routes[n].target.name == desc.name ==> n in Names(desc.services);
    }
    forall o, n | o in t'.owned && n in t'.owned[o] ensures n in t'.routes && t'.routes[n].target.name == o {
      assert o != desc.name ==> o in t.owned && t'.owned[o] == t.owned[o];
      assert o == desc.name ==> n in Names(desc.services) && !OwnedByOther(t.routes, n, desc.name);
    }
  }

  lemma RemovedAgrees(t: Table, target: string)
    requires OwnersAgree(t)
    ensures OwnersAgree(Removed(t, target))
  {
  }

  /** Two targets never own the same service. */
  lemma OwnersDisjoint(t: Table, a: string, b: string, n: string)
    requires OwnersAgree(t) && n in OwnedBy(t.owned, a) && n in OwnedBy(t.owned, b)
    ensures a == b
  {
    assert a in t.owned && n in t.owned[a] && b in t.owned && n in t.owned[b];
    assert n in t.routes && t.routes[n].target.name == a;
  }

  // ---- histories -----------------------------------------------------------------------

  datatype Op = Update(desc: Target) | Remove(target: string)

  function Apply(t: Table, op: Op): Table {
    match op
    case Update(desc) => Updated(t, desc)
    case Remove(target) => Removed(t, target)
  }

  function TableOf(h: seq<Op>): Table
    decreases |h|
  {
    if h == [] then Table(map[], map[]) else Apply(TableOf(h[..|h| - 1]), h[|h| - 1])
  }

  lemma {:induction false} HistoryAgrees(h: seq<Op>)
    ensures OwnersAgree(TableOf(h))
    decreases |h|
  {
    if h != [] {
      HistoryAgrees(h[..|h| - 1]);
      match h[|h| - 1] {
        case Update(desc) => UpdatedAgrees(TableOf(h[..|h| - 1]), desc);
        case Remove(target) => RemovedAgrees(TableOf(h[..|h| - 1]), target);
      }
    }
  }

  ghost predicate Owns(t: Table, target: string, name: string) {
    name in t.routes && t.routes[name].target.name == target
  }

  /** The target itself gives the service up. */
  predicate GivesUp(op: Op, target: string, name: string) {
    match op
    case Update(desc) => desc.name == target && name !in Names(desc.services)
    case Remove(removed) => removed == target
  }

  /** Nobody but its owner takes a service away, and while it is kept its description stays the one stored first. */
  lemma OnlyOwnerGivesUp(t: Table, op: Op, target: string, name: string)
    requires Owns(t, target, name)
    ensures Owns(Apply(t, op), target, name) <==> !GivesUp(op, target, name)
    ensures !GivesUp(op, target, name) ==> Apply(t, op).routes[name] == t.routes[name]
  {
  }

  /** Over any run: as long as its owner does not give it up, a service stays routed to it exactly as first stored. */
  lemma {:induction false} NeverStolen(h: seq<Op>, k: nat, target: string, name: string)
    requires k <= |h| && Owns(TableOf(h[..k]), target, name)
    requires forall i :: k <= i < |h| ==> !GivesUp(h[i], target, name)
    ensures Owns(TableOf(h), target, name) && TableOf(h).routes[name] == TableOf(h[..k]).routes[name]
    decreases |h|
  {
    if k < |h| {
      var front := h[..|h| - 1];
      assert front[..k] == h[..k];
      NeverStolen(front, k, target, name);
      OnlyOwnerGivesUp(TableOf(front), h[|h| - 1], target, name);
      hide Apply, Owns, GivesUp;
    } else {
      assert h[..k] == h;
    }
  }

  /** A free service goes to the first update that lists it. */
  lemma FreeIsTaken(t: Table, op: Op, target: string, name: string)
    requires name !in t.routes
    ensures Owns(Apply(t, op), target, name) <==> op.Update? && op.desc.name == target && name in Names(op.desc.services)
  {
  }

  /** An owned service shows the new description after an update if and only if it was unrouted or showed it before. */
  lemma DescriptionShown(t: Table, desc: Target, name: string)
    requires Owns(Updated(t, desc), desc.name, name)
    ensures Updated(t, desc).routes[name].target == desc <==> name !in t.routes || t.routes[name].target == desc
  {
  }

  // ---- what readers see in between -----------------------------------------------------

  ghost predicate BetweenAt(routes: Routes, desc: Target, r: Routes, n: string) {
    && (OwnedByOther(routes, n, desc.name) || (n in routes && n in Names(desc.services)) ==> n in r && r[n] == routes[n])
    && (n in r && n in routes ==> r[n] == routes[n])
    && (n in r && n !in routes ==> n in Names(desc.services) && r[n] == Route(desc, First(desc.services, n)))
  }

  /** Every state a reader may see while the update runs: kept and foreign services are routed as before throughout,
      new ones are absent or as they will be, and dropped ones are as before or gone. */
  ghost predicate Between(routes: Routes, desc: Target, r: Routes) {
    forall n :: BetweenAt(routes, desc, r, n)
  }

  /** Every state a reader may see while a target is removed. */
  ghost predicate BetweenRemoval(routes: Routes, target: string, r: Routes) {
    forall n ::
      && (OwnedByOther(routes, n, target) ==> n in r)
      && (n in r ==> n in routes && r[n] == routes[n])
  }

  // ---- gRPC method names ---------------------------------------------------------------

  datatype RpcName = RpcName(service: string, rpc: string)

  /** parseRPCName: a leading slash is optional; without another slash the name is malformed. */
  function ParseRpcName(name: string): Option<RpcName> {
    var trimmed := if name != "" && name[0] == '/' then name[1..] else name;
    var i := IndexAny(trimmed, "/");
    if i < 0 then None else Some(RpcName(trimmed[..i], trimmed[i + 1..]))
  }

  /** Exactly the names that read service "/" method, with or without a slash in front, are taken apart. */
  lemma ParsedRpcName(name: string, svc: string, rpc: string)
    requires '/' !in svc
    ensures ParseRpcName(name) == Some(RpcName(svc, rpc)) <==>
              name == "/" + svc + "/" + rpc || (name == svc + "/" + rpc && svc != "")
  {
    hide *;
    if name == "/" + svc + "/" + rpc {
      Written(name, svc, rpc, true);
    } else if name == svc + "/" + rpc && svc != "" {
      Written(name, svc, rpc, false);
    } else if ParseRpcName(name) == Some(RpcName(svc, rpc)) {
      TakenApart(name, svc, rpc);
    }
  }

  lemma Written(name: string, svc: string, rpc: string, slash: bool)
    requires '/' !in svc
    requires if slash then name == "/" + svc + "/" + rpc else name == svc + "/" + rpc && svc != ""
    ensures ParseRpcName(name) == Some(RpcName(svc, rpc))
  {
    if slash {
      assert name[1..] == svc + "/" + rpc;
    } else {
      assert name[0] == svc[0] && svc[0] in svc;
    }
    FirstSlash(svc, rpc);
    hide IndexAny, Has;
  }

  lemma TakenApart(name: string, svc: string, rpc: string)
    requires ParseRpcName(name) == Some(RpcName(svc, rpc))
    ensures name == "/" + svc + "/" + rpc || (name == svc + "/" + rpc && svc != "")
  {
    if name != "" && name[0] == '/' {
      CutApart(name[1..]);
      Behind(name, svc, rpc);
    } else {
      CutApart(name);
      FirstIsNoSlash(svc, rpc);
    }
    hide IndexAny, Has;
  }

  lemma Behind(name: string, svc: string, rpc: string)
    ensures name != "" && name[0] == '/' && name[1..] == svc + "/" + rpc ==> name == "/" + svc + "/" + rpc
  {
    if name != "" && name[0] == '/' && name[1..] == svc + "/" + rpc {
      assert name == ['/'] + name[1..];
      assert ['/'] + (svc + "/" + rpc) == "/" + svc + "/" + rpc;
    }
  }

  lemma CutApart(s: string)
    ensures var i := IndexAny(s, "/"); i >= 0 ==> s == s[..i] + "/" + s[i + 1..]
  {
  }

  lemma FirstIsNoSlash(svc: string, rpc: string)
    ensures (svc + "/" + rpc)[0] != '/' ==> svc != ""
  {
  }

  lemma FirstSlash(svc: string, rpc: string)
    requires '/' !in svc
    ensures var s := svc + "/" + rpc; IndexAny(s, "/") == |svc| && s[..|svc|] == svc && s[|svc| + 1..] == rpc
  {
    var s := svc + "/" + rpc;
    assert s[..|svc|] == svc;
    assert !Has(svc, "/") by { assert forall k :: 0 <= k < |svc| ==> svc[k] in svc; }
    IndexAnyAt(s, "/", |svc|);
  }
}
