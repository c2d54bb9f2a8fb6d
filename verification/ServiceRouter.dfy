/** ServiceRouter of routing/service_router.go, the set of watched targets, and the life cycle of its watchers. */
module ServiceRouter {
  import opened Text
  import opened ServiceRoutes

  /** internal/syncset: a set behind a mutex. */
  class SyncSet {
    var elems: set<string>

    constructor ()
      ensures elems == {}
    {
      elems := {};
    }

    /** Adds a key; whether it was not there before. */
    method Add(key: string) returns (added: bool)
      modifies this
      ensures elems == old(elems) + {key} && added == (key !in old(elems))
    {
      if key in elems {
        return false;
      }
      elems := elems + {key};
      return true;
    }

    /** Removes a key; whether it was there before. */
    method Remove(key: string) returns (removed: bool)
      modifies this
      ensures elems == old(elems) - {key} && removed == (key in old(elems))
    {
      if key !in elems {
        return false;
      }
      elems := elems - {key};
      return true;
    }
  }

  // ---- the two loops of an update ------------------------------------------------------

  /** The routes once the first `i` services of the update are stored where nothing was. */
  ghost function Stored(routes: Routes, desc: Target, i: nat): Routes
    requires i <= |desc.services|
  {
    map n | n in routes.Keys + Names(desc.services[..i]) ::
      if n in routes then routes[n] else assert n in Names(desc.services); Route(desc, First(desc.services, n))
  }

  /** The routes once the first `j` services owned before the update are deleted unless still present. */
  ghost function Dropped(routes: Routes, list: seq<string>, present: set<string>, j: nat): Routes
    requires j <= |list|
  {
    map n | n in routes && (n in list[..j] ==> n in present) :: routes[n]
  }

  lemma {:induction false} FirstIs(services: seq<Service>, i: nat)
    requires i < |services| && services[i].name !in Names(services[..i])
    ensures services[i].name in Names(services) && First(services, services[i].name) == services[i]
    decreases |services|
  {
    assert services[i] in services;
    if i > 0 {
      assert services[0] in services[..i];
      assert services[1..][..i - 1] == services[..i][1..];
      forall s | s in services[1..][..i - 1] ensures s in services[..i] { }
      FirstIs(services[1..], i - 1);
    }
  }

  lemma StoredStart(routes: Routes, desc: Target)
    ensures Stored(routes, desc, 0) == routes
  {
  }

  lemma NamesStep(services: seq<Service>, i: nat)
    requires i < |services|
    ensures Names(services[..i + 1]) == Names(services[..i]) + {services[i].name}
    ensures Names(services[..i]) <= Names(services)
  {
    assert services[..i + 1] == services[..i] + [services[i]];
  }

  lemma StoredStep(routes: Routes, desc: Target, i: nat)
    requires i < |desc.services|
    ensures var svc, r := desc.services[i], Stored(routes, desc, i);
            && Stored(routes, desc, i + 1) == (if svc.name in r then r else r[svc.name := Route(desc, svc)])
            && (svc.name in r && r[svc.name].target.name != desc.name <==> OwnedByOther(routes, svc.name, desc.name))
  {
    var svc := desc.services[i];
    NamesStep(desc.services, i);
    if svc.name !in Names(desc.services[..i]) { FirstIs(desc.services, i); }
    hide Names, First;
  }

  lemma StoredBetween(routes: Routes, desc: Target, i: nat)
    requires i <= |desc.services|
    ensures Between(routes, desc, Stored(routes, desc, i))
  {
    forall n ensures BetweenAt(routes, desc, Stored(routes, desc, i), n) {
      assert n in Names(desc.services[..i]) ==> n in Names(desc.services);
      hide First;
    }
  }

  lemma ClaimedStep(routes: Routes, desc: Target, i: nat)
    requires i < |desc.services|
    ensures var svc := desc.services[i];
            Claimed(routes, desc.name, desc.services[..i + 1]) ==
              Claimed(routes, desc.name, desc.services[..i]) + if OwnedByOther(routes, svc.name, desc.name) then [] else [svc.name]
  {
    assert desc.services[..i + 1][..i] == desc.services[..i];
  }

  lemma DroppedStart(routes: Routes, list: seq<string>, present: set<string>)
    ensures Dropped(routes, list, present, 0) == routes
  {
  }

  lemma DroppedStep(routes: Routes, list: seq<string>, present: set<string>, j: nat)
    requires j < |list|
    ensures Dropped(routes, list, present, j + 1) ==
              if list[j] in present then Dropped(routes, list, present, j) else Dropped(routes, list, present, j) - {list[j]}
  {
    assert list[..j + 1] == list[..j] + [list[j]];
  }

  /** The list of the target holds just its routed services. */
  ghost predicate OwnList(routes: Routes, target: string, list: seq<string>) {
    forall n :: n in list <==> n in routes && !OwnedByOther(routes, n, target)
  }

  lemma OwnersList(t: Table, target: string)
    requires OwnersAgree(t)
    ensures OwnList(t.routes, target, OwnedBy(t.owned, target))
  {
    forall n | n in OwnedBy(t.owned, target) ensures n in t.routes && !OwnedByOther(t.routes, n, target) {
      assert target in t.owned && n in t.owned[target];
      assert t.routes[n].target.name == target;
    }
  }

  lemma DroppedBetween(routes: Routes, desc: Target, list: seq<string>, present: set<string>, all: Routes, j: nat)
    requires OwnList(routes, desc.name, list) && j <= |list|
    requires present == Elements(Claimed(routes, desc.name, desc.services)) && Between(routes, desc, all)
    ensures Between(routes, desc, Dropped(all, list, present, j))
  {
    forall n ensures BetweenAt(routes, desc, Dropped(all, list, present, j), n) {
      assert BetweenAt(routes, desc, all, n);
      assert n in list[..j] ==> n in list;
      assert n in present <==> n in Names(desc.services) && !OwnedByOther(routes, n, desc.name);
      hide First, Names, Claimed;
    }
  }

  lemma DroppedAll(routes: Routes, desc: Target, list: seq<string>, present: set<string>, owned: Owned)
    requires OwnList(routes, desc.name, list)
    requires present == Elements(Claimed(routes, desc.name, desc.services))
    ensures Dropped(Stored(routes, desc, |desc.services|), list, present, |list|) == Updated(Table(routes, owned), desc).routes
  {
    assert list[..|list|] == list && desc.services[..|desc.services|] == desc.services;
    hide First, Names, Claimed;
    var r, u := Dropped(Stored(routes, desc, |desc.services|), list, present, |list|), Updated(Table(routes, owned), desc).routes;
    forall n ensures n in r <==> n in u
             ensures n in r ==> r[n] == u[n]
    {
      assert n in present <==> n in Names(desc.services) && !OwnedByOther(routes, n, desc.name);
    }
  }

  /** How a request was routed, or why it was not. */
  datatype Routed = Malformed | UnknownService | NoConnection(target: string) | To(route: Route, rpc: RpcName)

  class ServiceRouter {
    var routes: Routes
    var svcRoutes: Owned
    const watcherSet: SyncSet
    // Every value `routes` ever had: what readers, who take no lock, may have seen.
    ghost var seen: seq<Routes>
    // The watchers that are not closed.
    ghost var watching: map<string, ServiceRouterWatcher>

    ghost function View(): Table
      reads this`routes, this`svcRoutes
    {
      Table(routes, svcRoutes)
    }

    /** Ownership agrees, and readers see the current routes. */
    ghost predicate TableOk()
      reads this`routes, this`svcRoutes, this`seen
    {
      OwnersAgree(View()) && seen != [] && seen[|seen| - 1] == routes
    }

    /** Only watched targets own services, and each has one open watcher. */
    ghost predicate Valid()
      reads this, watcherSet, watching.Values
    {
      && TableOk()
      && watching.Keys == watcherSet.elems
      && svcRoutes.Keys <= watching.Keys
      && forall t :: t in watching ==> watching[t].sr == this && watching[t].target == t && !watching[t].closed
    }

    constructor ()
      ensures Valid() && fresh(watcherSet) && View() == Table(map[], map[]) && watching == map[]
    {
      routes, svcRoutes, seen, watching := map[], map[], [map[]], map[];
      watcherSet := new SyncSet();
    }

    /** sync.Map.LoadOrStore: the value that is there already stays. */
    method LoadOrStore(name: string, route: Route) returns (actual: Route, loaded: bool)
      modifies this`routes, this`seen
      ensures loaded == (name in old(routes)) && routes == (if loaded then old(routes) else old(routes)[name := route])
      ensures actual == routes[name]
      ensures seen == if loaded then old(seen) else old(seen) + [routes]
    {
      if name in routes {
        return routes[name], true;
      }
      routes := routes[name := route];
      seen := seen + [routes];
      return route, false;
    }

    method Delete(name: string)
      modifies this`routes, this`seen
      ensures routes == old(routes) - {name} && seen == old(seen) + [routes]
    {
      routes := routes - {name};
      seen := seen + [routes];
    }

    /** Replaces the services of a target; no state in between unroutes a kept service or touches a foreign one. */
    method UpdateRoutes(desc: Target)
      requires TableOk()
      modifies this`routes, this`svcRoutes, this`seen
      ensures TableOk() && View() == Updated(old(View()), desc)
      ensures old(seen) <= seen && AllBetween(old(routes), desc, seen, |old(seen)|)
    {
      hide *;
      ghost var t := View();
      ghost var r0 := routes;
      ViewParts();
      OwnersList(t, desc.name);
      StoredStart(r0, desc);
      ClaimedStart(r0, desc);
      NothingBetween(r0, desc, seen);
      var newSvcRoutes: seq<string> := [];
      var present: set<string> := {};
      for i := 0 to |desc.services|
        invariant svcRoutes == t.owned
        invariant routes == Stored(r0, desc, i) && seen != [] && seen[|seen| - 1] == routes
        invariant newSvcRoutes == Claimed(r0, desc.name, desc.services[..i]) && present == Elements(newSvcRoutes)
        invariant old(seen) <= seen && AllBetween(r0, desc, seen, |old(seen)|)
      {
        var svc := desc.services[i];
        StoredStep(r0, desc, i);
        StoredBetween(r0, desc, i + 1);
        ClaimedStep(r0, desc, i);
        MoreBetween(r0, desc, seen, |old(seen)|, Stored(r0, desc, i + 1));
        var route, loaded := LoadOrStore(svc.name, Route(desc, svc));
        if loaded && route.target.name != desc.name {
          continue;
        }
        OneElement(newSvcRoutes, svc.name);
        present := present + {svc.name};
        newSvcRoutes := newSvcRoutes + [svc.name];
      }
      assert desc.services[..|desc.services|] == desc.services;
      var outdated := if desc.name in svcRoutes then svcRoutes[desc.name] else [];
      OutdatedIs(svcRoutes, desc.name);
      ghost var all := routes;
      StoredBetween(r0, desc, |desc.services|);
      DroppedStart(all, outdated, present);
      for j := 0 to |outdated|
        invariant svcRoutes == t.owned
        invariant routes == Dropped(all, outdated, present, j) && seen != [] && seen[|seen| - 1] == routes
        invariant old(seen) <= seen && AllBetween(r0, desc, seen, |old(seen)|)
      {
        DroppedStep(all, outdated, present, j);
        DroppedBetween(r0, desc, outdated, present, all, j + 1);
        MoreBetween(r0, desc, seen, |old(seen)|, Dropped(all, outdated, present, j + 1));
        if outdated[j] !in present {
          Delete(outdated[j]);
        }
      }
      DroppedAll(r0, desc, outdated, present, t.owned);
      svcRoutes := svcRoutes[desc.name := newSvcRoutes];
      UpdatedParts(t, desc);
      UpdatedAgrees(t, desc);
      ViewParts();
    }

    /** Unroutes every service of a target, one by one. */
    method RemoveTarget(target: string)
      requires TableOk()
      modifies this`routes, this`svcRoutes, this`seen
      ensures TableOk() && View() == Removed(old(View()), target)
      ensures old(seen) <= seen && forall i :: |old(seen)| <= i < |seen| ==> BetweenRemoval(old(routes), target, seen[i])
    {
      hide *;
      ghost var t := View();
      ghost var r0 := routes;
      ViewParts();
      OwnersList(t, target);
      var list := if target in svcRoutes then svcRoutes[target] else [];
      OutdatedIs(svcRoutes, target);
      DroppedStart(r0, list, {});
      for j := 0 to |list|
        invariant svcRoutes == t.owned
        invariant routes == Dropped(r0, list, {}, j) && seen != [] && seen[|seen| - 1] == routes
        invariant old(seen) <= seen && forall i :: |old(seen)| <= i < |seen| ==> BetweenRemoval(r0, target, seen[i])
      {
        DroppedStep(r0, list, {}, j);
        RemovalBetween(r0, target, list, j + 1);
        Delete(list[j]);
      }
      svcRoutes := svcRoutes - {target};
      RemovedParts(t, target, list);
      RemovedAgrees(t, target);
      ViewParts();
    }

    lemma ViewParts()
      ensures View() == Table(routes, svcRoutes)
      ensures TableOk() <==> OwnersAgree(View()) && seen != [] && seen[|seen| - 1] == routes
    {
      hide OwnersAgree;
    }

    /** RouteGRPC: the target is looked up by the service name alone. */
    method RouteRpc(name: string, connected: set<string>) returns (r: Routed)
      ensures r == Malformed <==> ParseRpcName(name).None?
      ensures forall p :: ParseRpcName(name) == Some(p) ==>
                r == if p.service !in routes then UnknownService
                     else if routes[p.service].target.name !in connected then NoConnection(routes[p.service].target.name)
                     else To(routes[p.service], p)
    {
      hide ParseRpcName;
      var parsed := ParseRpcName(name);
      if parsed.None? {
        return Malformed;
      }
      if parsed.value.service !in routes {
        return UnknownService;
      }
      var route := routes[parsed.value.service];
      if route.target.name !in connected {
        return NoConnection(route.target.name);
      }
      return To(route, parsed.value);
    }

    /** A watcher for a target that has none. */
    method Watch(target: string) returns (w: ServiceRouterWatcher?)
      requires Valid()
      modifies watcherSet, this`watching
      ensures Valid() && (w == null <==> target in old(watching))
      ensures w == null ==> watching == old(watching)
      ensures w != null ==> fresh(w) && watching == old(watching)[target := w]
    {
      var added := watcherSet.Add(target);
      if !added {
        return null;
      }
      w := new ServiceRouterWatcher(this, target);
      watching := watching[target := w];
    }
  }

  class ServiceRouterWatcher {
    const sr: ServiceRouter
    const target: string
    var closed: bool

    constructor (sr: ServiceRouter, target: string)
      ensures this.sr == sr && this.target == target && !closed
    {
      this.sr, this.target, closed := sr, target, false;
    }

    /** Open watchers are the ones their router knows. */
    ghost predicate Known()
      reads this, sr
    {
      !closed ==> target in sr.watching && sr.watching[target] == this
    }

    /** Updates of other targets and on closed watchers are ignored. */
    method UpdateDesc(desc: Target)
      requires sr.Valid() && Known()
      modifies sr`routes, sr`svcRoutes, sr`seen
      ensures sr.Valid() && Known()
      ensures sr.View() == if closed || desc.name != target then old(sr.View()) else Updated(old(sr.View()), desc)
    {
      hide OwnersAgree, Updated, AllBetween;
      if closed {
        return;
      }
      if desc.name != target {
        return;
      }
      UpdatedKeys(sr.View(), desc);
      sr.UpdateRoutes(desc);
    }

    /** Closing twice panics; afterwards the target owns nothing and can be watched again. */
    method Close() returns (panicked: bool)
      requires sr.Valid() && Known()
      modifies this, sr, sr.watcherSet
      ensures sr.Valid() && closed && panicked == old(closed)
      ensures panicked ==> sr.View() == old(sr.View()) && sr.watching == old(sr.watching)
      ensures !panicked ==> sr.View() == Removed(old(sr.View()), target) && sr.watching == old(sr.watching) - {target}
    {
      hide OwnersAgree, Removed;
      if closed {
        return true;
      }
      closed := true;
      RemovedKeys(sr.View(), target);
      sr.RemoveTarget(target);
      var _ := sr.watcherSet.Remove(target);
      sr.watching := sr.watching - {target};
      return false;
    }
  }

  ghost predicate AllBetween(routes: Routes, desc: Target, seen: seq<Routes>, from: nat) {
    forall i :: from <= i < |seen| ==> Between(routes, desc, seen[i])
  }

  lemma NothingBetween(routes: Routes, desc: Target, seen: seq<Routes>)
    ensures AllBetween(routes, desc, seen, |seen|)
  {
  }

  lemma MoreBetween(routes: Routes, desc: Target, seen: seq<Routes>, from: nat, r: Routes)
    requires AllBetween(routes, desc, seen, from) && Between(routes, desc, r)
    ensures AllBetween(routes, desc, seen + [r], from)
  {
    hide Between;
  }

  lemma ClaimedStart(routes: Routes, desc: Target)
    ensures Claimed(routes, desc.name, desc.services[..0]) == [] && Elements([]) == {}
  {
  }

  lemma OneElement(names: seq<string>, n: string)
    ensures Elements(names + [n]) == Elements(names) + {n}
  {
  }

  lemma OutdatedIs(owned: Owned, target: string)
    ensures OwnedBy(owned, target) == if target in owned then owned[target] else []
  {
  }

  lemma UpdatedParts(t: Table, desc: Target)
    ensures Updated(t, desc) == Table(Updated(t, desc).routes, t.owned[desc.name := Claimed(t.routes, desc.name, desc.services)])
  {
  }

  lemma RemovalBetween(routes: Routes, target: string, list: seq<string>, j: nat)
    requires OwnList(routes, target, list) && j <= |list|
    ensures BetweenRemoval(routes, target, Dropped(routes, list, {}, j))
  {
    assert forall n :: n in list[..j] ==> n in list;
  }

  lemma RemovedParts(t: Table, target: string, list: seq<string>)
    requires OwnList(t.routes, target, list)
    ensures Table(Dropped(t.routes, list, {}, |list|), t.owned - {target}) == Removed(t, target)
  {
    assert list[..|list|] == list;
    assert Dropped(t.routes, list, {}, |list|) == Removed(t, target).routes;
  }

  lemma UpdatedKeys(t: Table, desc: Target)
    ensures Updated(t, desc).owned.Keys == t.owned.Keys + {desc.name}
  {
  }

  lemma RemovedKeys(t: Table, target: string)
    ensures Removed(t, target).owned.Keys == t.owned.Keys - {target}
  {
  }
}
