/** The heap of routing/pattern_router.go: per-method linked lists indexed by a second map of raw
    list-element links, changed in place and cloned into immutable snapshots. */
module PatternTable {
  import opened RoutingTable
  import opened LinkedIndex

  function IndexOf(items: seq<Element>, e: Element): (i: int)
    ensures -1 <= i < |items|
    ensures i == -1 <==> e !in items
    ensures i >= 0 ==> items[i] == e
  {
    if items == [] then -1
    else if items[0] == e then 0
    else
      var i := IndexOf(items[1..], e);
      assert items == [items[0]] + items[1..];
      if i < 0 then -1 else i + 1
  }

  /** container/list.List: a sequence of elements that keep their identity. */
  class List {
    var items: seq<Element>

    constructor ()
      ensures items == []
    {
      items := [];
    }

    method PushBack(value: Entry) returns (e: Element)
      modifies this
      ensures fresh(e) && e.value == value && items == old(items) + [e]
    {
      e := new Element(value);
      items := items + [e];
    }

    /** Removes the element if the list holds it. */
    method Remove(e: Element)
      modifies this
      ensures e !in old(items) ==> items == old(items)
      ensures e in old(items) ==> items == Drop(old(items), IndexOf(old(items), e))
    {
      var i := IndexOf(items, e);
      if i >= 0 {
        items := items[..i] + items[i + 1..];
      }
    }
  }

  ghost predicate OwnLists(routes: map<string, List>) {
    forall m, n :: m in routes && n in routes && m != n ==> routes[m] != routes[n]
  }

  ghost function ItemsIn(routes: map<string, List>): Items
    reads routes.Values
  {
    map m | m in routes :: routes[m].items
  }

  ghost function ValuesIn(elems: set<Element>): Values
    reads elems
  {
    map e | e in elems :: e.value
  }

  /** Lists of a table over a given set of elements. */
  ghost predicate ListsOk(routes: map<string, List>, elems: set<Element>)
    reads routes.Values
  {
    OwnLists(routes) && ItemsOk(ItemsIn(routes), elems)
  }

  /** The value of a table. */
  ghost function TableIn(routes: map<string, List>, elems: set<Element>): Table
    requires ListsOk(routes, elems)
    reads routes.Values, elems
  {
    assert ValuesIn(elems).Keys == elems;
    ViewOf(ItemsIn(routes), ValuesIn(elems))
  }

  method CloneLinkedList(l: List, ghost elems: set<Element>) returns (cp: List, ghost made: set<Element>)
    requires forall e :: e in l.items ==> e in elems
    ensures fresh(cp) && fresh(made) && NoDup(cp.items)
    ensures Carries(cp.items, ValuesIn(made), l.items, ValuesIn(elems))
  {
    cp := new List();
    made := {};
    for i := 0 to |l.items|
      invariant fresh(cp) && fresh(made) && NoDup(cp.items)
      invariant forall e :: e in cp.items ==> e in made
      invariant |cp.items| == i && forall j :: 0 <= j < i ==> cp.items[j].value == l.items[j].value
      invariant cp != l
    {
      var e := cp.PushBack(l.items[i].value);
      made := made + {e};
    }
    assert forall i :: 0 <= i < |l.items| ==> cp.items[i] in cp.items && l.items[i] in l.items;
  }

  /** A table that is only read. */
  class StaticTable {
    const routes: map<string, List>
    ghost const elems: set<Element>

    ghost predicate Valid()
      reads routes.Values
    {
      ListsOk(routes, elems)
    }

    ghost function View(): Table
      requires Valid()
      reads routes.Values, elems
    {
      TableIn(routes, elems)
    }

    constructor (routes: map<string, List>, ghost elems: set<Element>)
      ensures this.routes == routes && this.elems == elems
    {
      this.routes := routes;
      this.elems := elems;
    }
  }

  /** The table that is changed under its mutex. */
  class MutableTable {
    var published: StaticTable
    var routes: map<string, List>
    var targetLinks: Links
    // Every element the lists hold or ever held.
    ghost var elems: set<Element>

    ghost predicate Inv(links: Links)
      reads this`routes, this`elems, routes.Values, elems
    {
      OwnLists(routes) && IndexOk(ItemsIn(routes), ValuesIn(elems), links)
    }

    ghost function View(): Table
      requires ListsOk(routes, elems)
      reads this`routes, this`elems, routes.Values, elems
    {
      TableIn(routes, elems)
    }

    /** Lists and links are inverse; the published snapshot shows this table and shares no list and no element with it. */
    ghost predicate Valid()
      reads this, routes.Values, elems, published.routes.Values, published.elems
    {
      && Inv(targetLinks)
      && ListsOk(routes, elems)
      && published.Valid() && published.View() == View()
      && published.routes.Values !! routes.Values && published.elems !! elems
    }

    constructor ()
      ensures Valid() && View() == map[]
      ensures fresh(published) && routes == map[] && elems == {}
    {
      routes := map[];
      targetLinks := map[];
      elems := {};
      published := new StaticTable(map[], {});
    }

    /** Takes an element out of its list; an emptied list leaves the table. */
    method RemoveRoute(m: string, link: Element)
      requires OwnLists(routes) && m in routes && link in routes[m].items
      modifies this`routes, routes[m]
      ensures OwnLists(routes) && routes.Values <= old(routes.Values)
      ensures ItemsIn(routes) == TakeOut(old(ItemsIn(routes)), m, IndexOf(old(routes[m].items), link))
    {
      var lst := routes[m];
      ghost var i: nat := IndexOf(lst.items, link);
      lst.Remove(link);
      if |lst.items| == 0 {
        routes := routes - {m};
      }
    }

    /** Puts a new element at the back of the method's list, making the list when there is none. */
    method AddRoute(m: string, route: Entry) returns (link: Element)
      requires OwnLists(routes)
      modifies this`routes, this`elems, routes.Values
      ensures OwnLists(routes) && fresh(routes.Values - old(routes.Values))
      ensures fresh(link) && elems == old(elems) + {link}
      ensures ItemsIn(routes) == var items := old(ItemsIn(routes)); items[m := ItemsFor(items, m) + [link]]
      ensures ValuesIn(elems) == old(ValuesIn(elems))[link := route]
    {
      hide *;
      var lst := ListOf(m);
      link := PushTo(m, lst, route);
    }

    method PushTo(m: string, lst: List, route: Entry) returns (link: Element)
      requires OwnLists(routes) && m in routes && routes[m] == lst
      modifies this`elems, lst
      ensures OwnLists(routes) && fresh(link) && elems == old(elems) + {link}
      ensures m in old(ItemsIn(routes)) && ItemsIn(routes) == var items := old(ItemsIn(routes)); items[m := items[m] + [link]]
      ensures ValuesIn(elems) == old(ValuesIn(elems))[link := route]
    {
      link := lst.PushBack(route);
      elems := elems + {link};
    }

    /** The method's list, made when there is none. */
    method ListOf(m: string) returns (lst: List)
      requires OwnLists(routes)
      modifies this`routes
      ensures OwnLists(routes) && fresh(routes.Values - old(routes.Values))
      ensures m in routes && routes[m] == lst
      ensures var items := old(ItemsIn(routes)); m in ItemsIn(routes) && ItemsIn(routes) == items[m := ItemsFor(items, m)]
    {
      if m in routes {
        lst := routes[m];
      } else {
        lst := new List();
        routes := routes[m := lst];
      }
    }

    method Commit() returns (st: StaticTable)
      requires ListsOk(routes, elems)
      ensures fresh(st) && fresh(st.routes.Values) && fresh(st.elems)
      ensures st.Valid() && st.View() == View()
    {
      var copy, made := CopyLists();
      hide ItemsOk, Cloned, ViewOf;
      assert ItemsIn(copy).Keys == ItemsIn(routes).Keys;
      assert ValuesIn(made).Keys == made && ValuesIn(elems).Keys == elems;
      AllCloned(ItemsIn(copy), ValuesIn(made), ItemsIn(routes), ValuesIn(elems));
      st := new StaticTable(copy, made);
    }

    /** The loop of commit. */
    method CopyLists() returns (copy: map<string, List>, ghost made: set<Element>)
      requires ListsOk(routes, elems)
      ensures (forall n :: n in copy ==> fresh(copy[n])) && fresh(made)
      ensures copy.Keys == routes.Keys && OwnLists(copy)
      ensures Cloned(ItemsIn(copy), ValuesIn(made), ItemsIn(routes), ValuesIn(elems))
    {
      hide *;
      copy, made := map[], {};
      NothingCloned(ItemsIn(routes), ValuesIn(elems));
      NothingIn();
      var todo := routes.Keys;
      while todo != {}
        invariant copy.Keys == routes.Keys - todo && todo <= routes.Keys
        invariant (forall n :: n in copy ==> fresh(copy[n])) && fresh(made) && OwnLists(copy)
        invariant Cloned(ItemsIn(copy), ValuesIn(made), ItemsIn(routes), ValuesIn(elems))
        decreases todo
      {
        var m :| m in todo;
        copy, made := CopyList(m, copy, made);
        todo := todo - {m};
      }
    }

    /** One iteration of commit: the copy of the list of `m` joins the copies made so far. */
    method CopyList(m: string, copy: map<string, List>, ghost made: set<Element>)
      returns (copy': map<string, List>, ghost made': set<Element>)
      requires ListsOk(routes, elems) && m in routes && m !in copy && OwnLists(copy)
      requires Cloned(ItemsIn(copy), ValuesIn(made), ItemsIn(routes), ValuesIn(elems))
      ensures copy'.Keys == copy.Keys + {m} && OwnLists(copy')
      ensures (forall n :: n in copy' ==> (n in copy && copy'[n] == copy[n]) || fresh(copy'[n])) && fresh(made' - made)
      ensures Cloned(ItemsIn(copy'), ValuesIn(made'), ItemsIn(routes), ValuesIn(elems))
    {
      hide *;
      ListParts(routes, elems, m);
      ItemsKeys(copy);
      var cp, more := CloneLinkedList(routes[m], elems);
      copy', made' := copy[m := cp], made + more;
      ItemsInMore(copy, m, cp);
      OwnMore(copy, m, cp);
      ValuesInUnion(made, more);
      ValuesKeys(elems);
      ValuesKeys(more);
      ValuesKeys(made);
      CloneMore(ItemsIn(copy), ValuesIn(made), m, cp.items, ValuesIn(more), ItemsIn(routes), ValuesIn(elems));
    }


    /** Sets the value of an element. */
    method SetRoutes(link: Element, route: Entry)
      requires link in elems
      modifies link
      ensures ValuesIn(elems) == old(ValuesIn(elems))[link := route]
    {
      link.value := route;
    }

    /** The state between two steps of an update of one target. */
    ghost predicate Updating(links: Links, view: Table, target: Target, newRoutes: map<string, seq<Route>>, done: set<string>)
      reads this`routes, this`elems, routes.Values, elems
    {
      && OwnLists(routes) && ValuesIn(elems).Keys == elems
      && IndexOk(ItemsIn(routes), ValuesIn(elems), links)
      && Halfway(ItemsIn(routes), ValuesIn(elems), view, target, newRoutes, done)
    }

    lemma NextLink(links: Links, view: Table, target: Target, newRoutes: map<string, seq<Route>>, done: set<string>, l: MethodLink)
      requires Updating(links, view, target, newRoutes, done) && l in LinksOf(links, target.name)
      ensures l.httpMethod in routes && l.link in routes[l.httpMethod].items && l.link in elems
      ensures l.httpMethod in ItemsIn(routes) && ItemsIn(routes)[l.httpMethod] == routes[l.httpMethod].items
    {
      LinkedElement(ItemsIn(routes), ValuesIn(elems), links, target.name, l);
    }

    /** An existing link of a method the target no longer has. */
    method DropLink(link: MethodLink, ghost target: Target, ghost links: Links, ghost k: nat,
                    ghost view: Table, ghost newRoutes: map<string, seq<Route>>, ghost done: set<string>)
      requires Updating(links, view, target, newRoutes, done)
      requires k < |LinksOf(links, target.name)| && LinksOf(links, target.name)[k] == link
      requires link.httpMethod !in done && link.httpMethod !in newRoutes
      modifies this`routes, routes.Values
      ensures routes.Values <= old(routes.Values)
      ensures Updating(links[target.name := Drop(LinksOf(links, target.name), k)],
                       view, target, newRoutes, done + {link.httpMethod})
    {
      hide *;
      NextLink(links, view, target, newRoutes, done, link);
      UpdatingParts(links, view, target, newRoutes, done);
      ghost var items, values := ItemsIn(routes), ValuesIn(elems);
      ghost var i: nat := IndexOf(routes[link.httpMethod].items, link.link);
      MethodDropped(items, values, links, view, target, newRoutes, done, k, i);
      RemoveRoute(link.httpMethod, link.link);
      UpdatingParts(links[target.name := Drop(LinksOf(links, target.name), k)], view, target, newRoutes, done + {link.httpMethod});
    }

    /** An existing link of a method the target still has. */
    method KeepLink(link: MethodLink, target: Target, patternRoutes: seq<Route>, ghost links: Links,
                    ghost view: Table, ghost newRoutes: map<string, seq<Route>>, ghost done: set<string>)
      requires Updating(links, view, target, newRoutes, done)
      requires link in LinksOf(links, target.name) && link.httpMethod !in done
      requires link.httpMethod in newRoutes && newRoutes[link.httpMethod] == patternRoutes
      modifies elems
      ensures Updating(links, view, target, newRoutes, done + {link.httpMethod})
    {
      hide *;
      NextLink(links, view, target, newRoutes, done, link);
      ghost var items, values := ItemsIn(routes), ValuesIn(elems);
      UpdatingParts(links, view, target, newRoutes, done);
      MethodReplaced(items, values, links, view, target, newRoutes, done, link);
      SetRoutes(link.link, Entry(target, patternRoutes));
      assert ItemsIn(routes) == items;
      SameKeys(values, link.link, Entry(target, patternRoutes));
      UpdatingParts(links, view, target, newRoutes, done + {link.httpMethod});
    }

    lemma UpdatingParts(links: Links, view: Table, target: Target, newRoutes: map<string, seq<Route>>, done: set<string>)
      ensures Updating(links, view, target, newRoutes, done) <==>
                && OwnLists(routes) && ValuesIn(elems).Keys == elems
                && IndexOk(ItemsIn(routes), ValuesIn(elems), links)
                && Halfway(ItemsIn(routes), ValuesIn(elems), view, target, newRoutes, done)
    {
    }

    /** One iteration of the first loop of addTarget. */
    method UpdateLink(oldLinks: seq<MethodLink>, k: nat, target: Target, seen: seq<MethodLink>, left: map<string, seq<Route>>,
                      ghost view: Table, ghost newRoutes: map<string, seq<Route>>, ghost done: set<string>)
      returns (newLinks: seq<MethodLink>, pending: map<string, seq<Route>>)
      requires k < |oldLinks| && oldLinks[k].httpMethod !in done && left == newRoutes - done
      requires Updating(targetLinks[target.name := seen + oldLinks[k..]], view, target, newRoutes, done)
      modifies this`routes, routes.Values, elems
      ensures routes.Values <= old(routes.Values)
      ensures newLinks == if oldLinks[k].httpMethod in newRoutes then seen + [oldLinks[k]] else seen
      ensures pending == newRoutes - (done + {oldLinks[k].httpMethod})
      ensures Updating(targetLinks[target.name := newLinks + oldLinks[k + 1..]], view, target, newRoutes,
                       done + {oldLinks[k].httpMethod})
    {
      hide *;
      newLinks, pending := seen, left;
      var link := oldLinks[k];
      ghost var links := targetLinks[target.name := newLinks + oldLinks[k..]];
      LinksStep(targetLinks, target.name, newLinks, oldLinks, k);
      if link.httpMethod !in pending {
        DropLink(link, target, links, |newLinks|, view, newRoutes, done);
      } else {
        KeepLink(link, target, pending[link.httpMethod], links, view, newRoutes, done);
        newLinks := newLinks + [link];
        pending := pending - {link.httpMethod};
      }
    }

    /** The first loop of addTarget: existing links are updated in place or dropped. */
    method UpdateLinks(target: Target, newRoutes: map<string, seq<Route>>, ghost view: Table)
      returns (newLinks: seq<MethodLink>, pending: map<string, seq<Route>>, ghost done: set<string>)
      requires Updating(targetLinks[target.name := LinksOf(targetLinks, target.name)], view, target, newRoutes, {})
      requires DistinctMethods(LinksOf(targetLinks, target.name))
      modifies this`routes, routes.Values, elems
      ensures routes.Values <= old(routes.Values)
      ensures Updating(targetLinks[target.name := newLinks], view, target, newRoutes, done)
      ensures pending == newRoutes - done
      ensures forall l :: l in newLinks ==> l.httpMethod in done
    {
      hide *;
      var oldLinks := LinksOf(targetLinks, target.name);
      newLinks, pending, done := [], newRoutes, {};
      AllAhead(oldLinks);
      for k := 0 to |oldLinks|
        invariant routes.Values <= old(routes.Values)
        invariant Updating(targetLinks[target.name := newLinks + oldLinks[k..]], view, target, newRoutes, done)
        invariant forall j :: k <= j < |oldLinks| ==> oldLinks[j].httpMethod !in done
        invariant forall l :: l in newLinks ==> l.httpMethod in done
        invariant pending == newRoutes - done
      {
        OthersDiffer(oldLinks, k);
        newLinks, pending := UpdateLink(oldLinks, k, target, newLinks, pending, view, newRoutes, done);
        done := done + {oldLinks[k].httpMethod};
      }
      assert newLinks + oldLinks[|oldLinks|..] == newLinks;
    }

    /** The second loop of addTarget: routes for methods new to the target. */
    method AddLinks(target: Target, kept: seq<MethodLink>, left: map<string, seq<Route>>,
                    ghost view: Table, ghost newRoutes: map<string, seq<Route>>, ghost before: set<string>)
      returns (newLinks: seq<MethodLink>, ghost done: set<string>)
      requires Updating(targetLinks[target.name := kept], view, target, newRoutes, before)
      requires left == newRoutes - before
      requires forall l :: l in kept ==> l.httpMethod in before
      modifies this`routes, this`elems, routes.Values
      ensures fresh(routes.Values - old(routes.Values)) && fresh(elems - old(elems))
      ensures Updating(targetLinks[target.name := newLinks], view, target, newRoutes, done)
      ensures newRoutes.Keys <= done && forall l :: l in newLinks ==> l.httpMethod in done
    {
      newLinks, done := kept, before;
      var pending := left;
      hide Updating;
      while pending.Keys != {}
        invariant fresh(routes.Values - old(routes.Values)) && fresh(elems - old(elems))
        invariant Updating(targetLinks[target.name := newLinks], view, target, newRoutes, done)
        invariant forall l :: l in newLinks ==> l.httpMethod in done
        invariant pending == newRoutes - done
        decreases pending.Keys
      {
        var m :| m in pending.Keys;
        ghost var links := targetLinks[target.name := newLinks];
        var link := AddLink(m, target, pending[m], links, view, newRoutes, done);
        newLinks := newLinks + [MethodLink(m, link)];
        assert links[target.name := newLinks] == targetLinks[target.name := newLinks];
        pending := pending - {m};
        done := done + {m};
      }
      assert forall m :: m in newRoutes && m !in done ==> m in pending.Keys;
    }

    method AddLink(m: string, target: Target, patternRoutes: seq<Route>, ghost links: Links,
                   ghost view: Table, ghost newRoutes: map<string, seq<Route>>, ghost done: set<string>)
      returns (link: Element)
      requires Updating(links, view, target, newRoutes, done)
      requires m in newRoutes && newRoutes[m] == patternRoutes && m !in done
      requires forall l :: l in LinksOf(links, target.name) ==> l.httpMethod in done
      modifies this`routes, this`elems, routes.Values
      ensures fresh(routes.Values - old(routes.Values)) && fresh(elems - old(elems))
      ensures Updating(links[target.name := LinksOf(links, target.name) + [MethodLink(m, link)]],
                       view, target, newRoutes, done + {m})
    {
      ghost var items, values := ItemsIn(routes), ValuesIn(elems);
      hide IndexOk, Halfway;
      link := AddRoute(m, Entry(target, patternRoutes));
      MethodAdded(items, values, links, view, target, newRoutes, done, m, link);
    }

    /** The two loops of addTarget. */
    method UpdateTarget(target: Target, newRoutes: map<string, seq<Route>>) returns (newLinks: seq<MethodLink>)
      requires Inv(targetLinks) && ListsOk(routes, elems)
      modifies this`routes, this`elems, routes.Values, elems
      ensures Inv(targetLinks[target.name := newLinks]) && ListsOk(routes, elems)
      ensures View() == RoutingTable.AddTarget(old(View()), target, newRoutes)
      ensures fresh(routes.Values - old(routes.Values)) && fresh(elems - old(elems))
    {
      ghost var view := View();
      StartUpdate(target, newRoutes);
      hide *;
      var pending;
      ghost var done;
      newLinks, pending, done := UpdateLinks(target, newRoutes, view);
      newLinks, done := AddLinks(target, newLinks, pending, view, newRoutes, done);
      LinksHere(targetLinks, target.name, newLinks);
      EndUpdate(targetLinks[target.name := newLinks], view, target, newRoutes, done);
    }

    /** Adds or updates the routes of a target and publishes a new snapshot. */
    method AddTarget(target: Target, newRoutes: map<string, seq<Route>>)
      requires Valid()
      modifies this, routes.Values, elems
      ensures Valid() && View() == RoutingTable.AddTarget(old(View()), target, newRoutes)
      ensures fresh(published) && fresh(published.routes.Values) && fresh(published.elems)
      ensures fresh(routes.Values - old(routes.Values)) && fresh(elems - old(elems))
    {
      hide *;
      ValidParts();
      var newLinks := UpdateTarget(target, newRoutes);
      targetLinks := targetLinks[target.name := newLinks];
      published := Commit();
      ValidParts();
    }

    /** Removes all routes of a target and publishes a new snapshot. */
    method RemoveTarget(name: string)
      requires Valid()
      modifies this, routes.Values, elems
      ensures Valid() && View() == RoutingTable.RemoveTarget(old(View()), name)
      ensures fresh(published) && fresh(published.routes.Values) && fresh(published.elems)
      ensures routes.Values <= old(routes.Values) && elems == old(elems)
    {
      hide *;
      ValidParts();
      DropTarget(name);
      targetLinks := targetLinks - {name};
      published := Commit();
      ValidParts();
    }

    lemma ValidParts()
      ensures Valid() <==>
                && Inv(targetLinks) && ListsOk(routes, elems)
                && published.Valid() && published.View() == View()
                && published.routes.Values !! routes.Values && published.elems !! elems
    {
    }

    /** The loop of removeTarget. */
    method DropTarget(name: string)
      requires Inv(targetLinks) && ListsOk(routes, elems)
      modifies this`routes, routes.Values
      ensures Inv(targetLinks - {name}) && ListsOk(routes, elems)
      ensures View() == RoutingTable.RemoveTarget(old(View()), name)
      ensures routes.Values <= old(routes.Values)
    {
      hide *;
      ghost var view := View();
      ghost var target := Target(name, 0);
      StartUpdate(target, map[]);
      var oldLinks := LinksOf(targetLinks, name);
      ghost var done: set<string> := {};
      AllAhead(oldLinks);
      for k := 0 to |oldLinks|
        invariant routes.Values <= old(routes.Values)
        invariant Updating(targetLinks[name := [] + oldLinks[k..]], view, target, map[], done)
        invariant forall j :: k <= j < |oldLinks| ==> oldLinks[j].httpMethod !in done
      {
        LinksStep(targetLinks, name, [], oldLinks, k);
        OthersDiffer(oldLinks, k);
        DropLink(oldLinks[k], target, targetLinks[name := [] + oldLinks[k..]], 0, view, map[], done);
        done := done + {oldLinks[k].httpMethod};
      }
      ghost var left := [] + oldLinks[|oldLinks|..];
      LinksHere(targetLinks, name, left);
      EndUpdate(targetLinks[name := left], view, target, map[], done);
      ForgetLinks(targetLinks[name := left], name);
      ForgottenAnyway(targetLinks, name, left);
      DropsAreRemoval(view, target);
    }

    lemma ForgetLinks(links: Links, name: string)
      requires Inv(links) && LinksOf(links, name) == []
      ensures Inv(links - {name})
    {
      ForgetTarget(ItemsIn(routes), ValuesIn(elems), links, name);
    }

    lemma StartUpdate(target: Target, newRoutes: map<string, seq<Route>>)
      requires Inv(targetLinks) && ListsOk(routes, elems)
      ensures Updating(targetLinks[target.name := LinksOf(targetLinks, target.name)], View(), target, newRoutes, {})
      ensures DistinctMethods(LinksOf(targetLinks, target.name))
    {
      assert ValuesIn(elems).Keys == elems;
      StartIndex(ItemsIn(routes), ValuesIn(elems), targetLinks, target.name);
      NothingDone(ItemsIn(routes), ValuesIn(elems), target, newRoutes);
    }

    lemma EndUpdate(links: Links, view: Table, target: Target, newRoutes: map<string, seq<Route>>, done: set<string>)
      requires Updating(links, view, target, newRoutes, done) && newRoutes.Keys <= done
      requires forall l :: l in LinksOf(links, target.name) ==> l.httpMethod in done
      ensures Inv(links) && ListsOk(routes, elems)
      ensures View() == RoutingTable.AddTarget(view, target, newRoutes)
    {
      AllDone(ItemsIn(routes), ValuesIn(elems), links, view, target, newRoutes, done);
    }
  }

  lemma AllAhead(links: seq<MethodLink>)
    ensures [] + links[0..] == links && [] + links[|links|..] == []
  {
  }

  lemma OthersDiffer(links: seq<MethodLink>, k: nat)
    requires DistinctMethods(links) && k < |links|
    ensures forall j :: k < j < |links| ==> links[j].httpMethod != links[k].httpMethod
  {
  }

  lemma ForgottenAnyway(links: Links, t: string, more: seq<MethodLink>)
    ensures links[t := more] - {t} == links - {t}
  {
  }

  lemma LinksHere(links: Links, t: string, more: seq<MethodLink>)
    ensures LinksOf(links[t := more], t) == more
  {
  }

  /** The first of the links not yet visited. */
  lemma LinksStep(links: Links, t: string, seen: seq<MethodLink>, all: seq<MethodLink>, k: nat)
    requires k < |all|
    ensures var now := links[t := seen + all[k..]];
            && |LinksOf(now, t)| > |seen| && LinksOf(now, t)[|seen|] == all[k] && all[k] in LinksOf(now, t)
            && now[t := Drop(LinksOf(now, t), |seen|)] == links[t := seen + all[k + 1..]]
            && now == links[t := seen + [all[k]] + all[k + 1..]]
  {
    DropMiddle(seen, all[k..]);
    assert all[k..][1..] == all[k + 1..];
    assert seen + all[k..] == seen + [all[k]] + all[k + 1..];
  }

  lemma SameKeys(values: Values, e: Element, v: Entry)
    ensures e in values ==> values[e := v].Keys == values.Keys
  {
  }

  lemma ItemsInMore(routes: map<string, List>, m: string, l: List)
    ensures ItemsIn(routes[m := l]) == ItemsIn(routes)[m := l.items]
  {
  }

  lemma OwnMore(routes: map<string, List>, m: string, l: List)
    requires OwnLists(routes) && forall n :: n in routes ==> routes[n] != l
    ensures OwnLists(routes[m := l])
  {
  }

  lemma ValuesKeys(elems: set<Element>)
    ensures ValuesIn(elems).Keys == elems
  {
  }

  lemma ItemsKeys(routes: map<string, List>)
    ensures ItemsIn(routes).Keys == routes.Keys
  {
  }

  lemma ListParts(routes: map<string, List>, elems: set<Element>, m: string)
    requires ListsOk(routes, elems) && m in routes
    ensures ItemsOk(ItemsIn(routes), ValuesIn(elems).Keys) && m in ItemsIn(routes) && ItemsIn(routes)[m] == routes[m].items
    ensures forall e :: e in routes[m].items ==> e in elems
  {
    MembersIn(ItemsIn(routes), elems, m);
  }

  lemma ValuesInUnion(a: set<Element>, b: set<Element>)
    ensures ValuesIn(a + b) == ValuesIn(a) + ValuesIn(b)
  {
  }

  // ---- clones --------------------------------------------------------------------------

  ghost predicate Carries(a: seq<Element>, values: Values, b: seq<Element>, values': Values) {
    && |a| == |b|
    && forall i :: 0 <= i < |a| ==> a[i] in values && b[i] in values' && values[a[i]] == values'[b[i]]
  }

  /** The lists copied so far carry the values of the originals. */
  ghost predicate Cloned(copy: Items, made: Values, items: Items, values: Values) {
    && ItemsOk(copy, made.Keys) && copy.Keys <= items.Keys
    && forall m :: m in copy ==> Carries(copy[m], made, items[m], values)
  }

  lemma NothingCloned(items: Items, values: Values)
    ensures Cloned(map[], map[], items, values)
  {
  }

  lemma NothingIn()
    ensures OwnLists(map[]) && ItemsIn(map[]) == map[] && ValuesIn({}) == map[]
  {
  }

  lemma CloneMore(copy: Items, made: Values, m: string, s: seq<Element>, more: Values, items: Items, values: Values)
    requires Cloned(copy, made, items, values) && ItemsOk(items, values.Keys)
    requires m in items && m !in copy && more.Keys !! made.Keys
    requires NoDup(s) && Carries(s, more, items[m], values)
    ensures Cloned(copy[m := s], made + more, items, values)
  {
    hide NoDup;
    var copy', made' := copy[m := s], made + more;
    assert made'.Keys == made.Keys + more.Keys;
    assert forall e :: e in s ==> e in more;
    assert s != [];
    forall n | n in copy' ensures Carries(copy'[n], made', items[n], values) {
      if n != m { assert Carries(copy[n], made, items[n], values); }
    }
  }

  lemma MembersIn(items: Items, elems: set<Element>, m: string)
    requires ItemsOk(items, elems) && m in items
    ensures forall e :: e in items[m] ==> e in elems
  {
  }

  lemma AllCloned(copy: Items, made: Values, items: Items, values: Values)
    requires Cloned(copy, made, items, values) && ItemsOk(items, values.Keys) && copy.Keys == items.Keys
    ensures ItemsOk(copy, made.Keys)
    ensures ViewOf(copy, made) == ViewOf(items, values)
  {
    hide NoDup;
    forall m | m in items ensures ValuesOf(copy[m], made) == ValuesOf(items[m], values) {
      assert Carries(copy[m], made, items[m], values);
    }
  }
}
