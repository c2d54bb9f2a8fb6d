/** The linked structure of routing/pattern_router.go as a value: which elements each method's list holds,
    what each element carries, and which links each target keeps. */
module LinkedIndex {
  import opened RoutingTable

  /** container/list.Element: its value can be replaced while it stays where it is. */
  class Element {
    var value: Entry

    constructor (value: Entry)
      ensures this.value == value
    {
      this.value := value;
    }
  }

  datatype MethodLink = MethodLink(httpMethod: string, link: Element)

  type Items = map<string, seq<Element>>
  type Values = map<Element, Entry>
  type Links = map<string, seq<MethodLink>>

  predicate NoDup(s: seq<Element>) {
    forall i, j :: 0 <= i < j < |s| ==> s[i] != s[j]
  }

  /** No list is empty and no element stands twice. */
  ghost predicate ItemsOk(items: Items, elems: set<Element>) {
    && (forall m :: m in items ==> items[m] != [] && NoDup(items[m]))
    && (forall m, e :: m in items && e in items[m] ==> e in elems)
    && (forall m, n, e :: m in items && n in items && m != n && e in items[m] ==> e !in items[n])
  }

  predicate DistinctMethods(links: seq<MethodLink>) {
    forall i, j :: 0 <= i < j < |links| ==> links[i].httpMethod != links[j].httpMethod
  }

  function LinksOf(links: Links, name: string): seq<MethodLink> {
    if name in links then links[name] else []
  }

  function ItemsFor(items: Items, m: string): seq<Element> {
    if m in items then items[m] else []
  }

  /** Lists and links are mutually inverse: every element of target T under method M is held by exactly one
      link of T, and every link of T holds an element of T. */
  ghost predicate Inverse(items: Items, values: Values, links: Links) {
    && (forall m, e :: m in items && e in items[m] ==>
          e in values && MethodLink(m, e) in LinksOf(links, values[e].target.name))
    && (forall t, l: MethodLink :: t in links && l in links[t] ==>
          l.link in ItemsFor(items, l.httpMethod) && l.link in values && values[l.link].target.name == t)
    && (forall t :: t in links ==> DistinctMethods(links[t]))
  }

  ghost predicate IndexOk(items: Items, values: Values, links: Links) {
    ItemsOk(items, values.Keys) && Inverse(items, values, links)
  }

  function ValuesOf(s: seq<Element>, values: Values): (vs: seq<Entry>)
    requires forall e :: e in s ==> e in values
    ensures |vs| == |s| && forall i :: 0 <= i < |vs| ==> vs[i] == values[s[i]]
  {
    seq(|s|, i requires 0 <= i < |s| => values[s[i]])
  }

  ghost function ViewOf(items: Items, values: Values): Table
    requires ItemsOk(items, values.Keys)
  {
    map m | m in items :: ValuesOf(items[m], values)
  }

  /** At most one element per target and list. */
  lemma OnePerTarget(items: Items, values: Values, links: Links, m: string)
    requires IndexOk(items, values, links) && m in items
    ensures DistinctNames(ValuesOf(items[m], values))
    ensures TableOk(ViewOf(items, values))
  {
    forall m, i, j | m in items && 0 <= i < j < |items[m]|
      ensures values[items[m][i]].target.name != values[items[m][j]].target.name
    {
      var s := items[m];
      var t, t' := values[s[i]].target.name, values[s[j]].target.name;
      assert s[i] in s && s[j] in s;
      assert MethodLink(m, s[i]) in LinksOf(links, t) && MethodLink(m, s[j]) in LinksOf(links, t');
    }
    forall m | m in items ensures DistinctNames(ValuesOf(items[m], values)) {
    }
  }

  function Drop<T>(s: seq<T>, k: nat): seq<T>
    requires k < |s|
  {
    s[..k] + s[k + 1..]
  }

  /** Taking element `i` out of the list of `m`; an emptied list goes. */
  function TakeOut(items: Items, m: string, i: nat): Items
    requires m in items && i < |items[m]|
  {
    if |items[m]| == 1 then items - {m} else items[m := Drop(items[m], i)]
  }

  lemma TakeOutOk(items: Items, elems: set<Element>, m: string, i: nat)
    requires ItemsOk(items, elems) && m in items && i < |items[m]|
    ensures ItemsOk(TakeOut(items, m, i), elems)
    ensures forall n :: ItemsFor(TakeOut(items, m, i), n) ==
              if n == m then Drop(items[m], i) else ItemsFor(items, n)
  {
    DropMembers(items[m], i);
    var items' := TakeOut(items, m, i);
    assert forall n, e :: n in items' && e in items'[n] ==> n in items && e in items[n];
  }

  lemma TakeOutInverse(items: Items, values: Values, links: Links, m: string, i: nat, t: string, k: nat)
    requires IndexOk(items, values, links)
    requires m in items && i < |items[m]|
    requires t in links && k < |links[t]| && links[t][k] == MethodLink(m, items[m][i])
    ensures Inverse(TakeOut(items, m, i), values, links[t := Drop(links[t], k)])
  {
    hide Drop, TakeOut, NoDup, DistinctMethods, LinksOf, ItemsFor, ItemsOk, IndexOk;
    IndexParts(items, values, links);
    DropLinks(links[t], k);
    var items', links' := TakeOut(items, m, i), links[t := Drop(links[t], k)];
    forall n, f | n in items' && f in items'[n]
      ensures f in values && MethodLink(n, f) in LinksOf(links', values[f].target.name)
    {
      ElementStays(items, values, links, m, i, t, k, n, f);
    }
    forall t', l: MethodLink | t' in links' && l in links'[t']
      ensures l.link in ItemsFor(items', l.httpMethod) && l.link in values && values[l.link].target.name == t'
    {
      LinkStays(items, values, links, m, i, t, k, t', l);
    }
  }

  /** An element still in the lists is still linked. */
  lemma ElementStays(items: Items, values: Values, links: Links, m: string, i: nat, t: string, k: nat, n: string, f: Element)
    requires IndexOk(items, values, links)
    requires m in items && i < |items[m]|
    requires t in links && k < |links[t]| && links[t][k] == MethodLink(m, items[m][i])
    requires n in TakeOut(items, m, i) && f in TakeOut(items, m, i)[n]
    ensures f in values && MethodLink(n, f) in LinksOf(links[t := Drop(links[t], k)], values[f].target.name)
  {
    hide Drop, TakeOut, NoDup, DistinctMethods;
    DropMembers(items[m], i);
    DropLinks(links[t], k);
    TakenOut(items, m, i, n);
    assert n in items && f in items[n] && (n == m ==> f != items[m][i]);
  }

  /** A link still kept still holds an element of its list. */
  lemma LinkStays(items: Items, values: Values, links: Links, m: string, i: nat, t: string, k: nat, t': string, l: MethodLink)
    requires IndexOk(items, values, links)
    requires m in items && i < |items[m]|
    requires t in links && k < |links[t]| && links[t][k] == MethodLink(m, items[m][i])
    requires t' in links && l in (if t' == t then Drop(links[t], k) else links[t'])
    ensures l.link in ItemsFor(TakeOut(items, m, i), l.httpMethod) && l.link in values && values[l.link].target.name == t'
  {
    hide Drop, TakeOut, NoDup, DistinctMethods;
    DropMembers(items[m], i);
    DropLinks(links[t], k);
    TakenOut(items, m, i, l.httpMethod);
    assert l in links[t'] && links[t][k] in links[t];
    assert values[items[m][i]].target.name == t;
  }

  lemma TakenOut(items: Items, m: string, i: nat, n: string)
    requires m in items && i < |items[m]|
    ensures ItemsFor(TakeOut(items, m, i), n) == if n == m then Drop(items[m], i) else ItemsFor(items, n)
    ensures n in TakeOut(items, m, i) ==> n in items && TakeOut(items, m, i)[n] == ItemsFor(TakeOut(items, m, i), n)
  {
  }

  lemma ViewByItems(items: Items, values: Values, n: string)
    requires ItemsOk(items, values.Keys)
    ensures forall e :: e in ItemsFor(items, n) ==> e in values
    ensures ListFor(ViewOf(items, values), n) == ValuesOf(ItemsFor(items, n), values)
  {
  }

  /** Removing an element together with its link. */
  lemma RemovedTogether(items: Items, values: Values, links: Links, m: string, i: nat, t: string, k: nat)
    requires IndexOk(items, values, links)
    requires m in items && i < |items[m]|
    requires t in links && k < |links[t]| && links[t][k] == MethodLink(m, items[m][i])
    ensures IndexOk(TakeOut(items, m, i), values, links[t := Drop(links[t], k)])
    ensures forall n :: ListFor(ViewOf(TakeOut(items, m, i), values), n) ==
              if n == m then Without(ListFor(ViewOf(items, values), m), t) else ListFor(ViewOf(items, values), n)
  {
    hide *;
    IndexParts(items, values, links);
    TakeOutOk(items, values.Keys, m, i);
    TakeOutInverse(items, values, links, m, i, t, k);
    IndexParts(TakeOut(items, m, i), values, links[t := Drop(links[t], k)]);
    DroppedEntry(items, values, links, m, i, t, k);
    forall n ensures ListFor(ViewOf(TakeOut(items, m, i), values), n) ==
              if n == m then Without(ListFor(ViewOf(items, values), m), t) else ListFor(ViewOf(items, values), n)
    {
      TakenOut(items, m, i, n);
      ViewByItems(TakeOut(items, m, i), values, n);
      ViewByItems(items, values, n);
      ItemsForIn(items, m);
    }
  }

  lemma DroppedEntry(items: Items, values: Values, links: Links, m: string, i: nat, t: string, k: nat)
    requires IndexOk(items, values, links)
    requires m in items && i < |items[m]|
    requires t in links && k < |links[t]| && links[t][k] == MethodLink(m, items[m][i])
    ensures (forall e :: e in items[m] ==> e in values) && (forall e :: e in Drop(items[m], i) ==> e in values)
    ensures ValuesOf(Drop(items[m], i), values) == Without(ValuesOf(items[m], values), t)
  {
    hide *;
    LinkedValue(items, values, links, m, i, t, k);
    OnePerTarget(items, values, links, m);
    WithoutAt(ValuesOf(items[m], values), t, i);
    DroppedValues(items[m], values, i);
  }

  lemma LinkedValue(items: Items, values: Values, links: Links, m: string, i: nat, t: string, k: nat)
    requires IndexOk(items, values, links)
    requires m in items && i < |items[m]|
    requires t in links && k < |links[t]| && links[t][k] == MethodLink(m, items[m][i])
    ensures (forall e :: e in items[m] ==> e in values) && values[items[m][i]].target.name == t
  {
    hide NoDup, DistinctMethods;
    assert links[t][k] in links[t];
  }

  lemma DroppedValues(s: seq<Element>, values: Values, i: nat)
    requires i < |s| && forall e :: e in s ==> e in values
    ensures forall e :: e in Drop(s, i) ==> e in values
    ensures ValuesOf(Drop(s, i), values) == ValuesOf(s, values)[..i] + ValuesOf(s, values)[i + 1..]
  {
  }

  lemma IndexParts(items: Items, values: Values, links: Links)
    ensures IndexOk(items, values, links) <==> ItemsOk(items, values.Keys) && Inverse(items, values, links)
  {
  }

  lemma ItemsForIn(items: Items, m: string)
    ensures m in items ==> ItemsFor(items, m) == items[m]
  {
  }

  lemma DropMembers(s: seq<Element>, i: nat)
    requires i < |s| && NoDup(s)
    ensures NoDup(Drop(s, i))
    ensures forall e :: e in Drop(s, i) <==> e in s && e != s[i]
  {
    forall e | e in s && e != s[i] ensures e in Drop(s, i) {
      var j :| 0 <= j < |s| && s[j] == e;
      assert Drop(s, i)[if j < i then j else j - 1] == e;
    }
  }

  lemma DropLinks(s: seq<MethodLink>, i: nat)
    requires i < |s| && DistinctMethods(s)
    ensures DistinctMethods(Drop(s, i))
    ensures forall l :: l in Drop(s, i) <==> l in s && l != s[i]
  {
    forall l | l in s && l != s[i] ensures l in Drop(s, i) {
      var j :| 0 <= j < |s| && s[j] == l;
      assert Drop(s, i)[if j < i then j else j - 1] == l;
    }
  }

  /** Giving an element a new value of the same target. */
  lemma ReplacedInPlace(items: Items, values: Values, links: Links, m: string, e: Element, v: Entry)
    requires IndexOk(items, values, links)
    requires m in items && e in items[m] && values[e].target.name == v.target.name
    ensures IndexOk(items, values[e := v], links)
    ensures forall n :: ListFor(ViewOf(items, values[e := v]), n) ==
              if n == m then Upsert(ListFor(ViewOf(items, values), m), v) else ListFor(ViewOf(items, values), n)
  {
    hide *;
    var values' := values[e := v];
    IndexParts(items, values, links);
    ElementKnown(items, values.Keys, m, e);
    assert values'.Keys == values.Keys;
    ReplacedInverse(items, values, links, e, v);
    IndexParts(items, values', links);
    ReplacedEntry(items, values, links, m, e, v);
    ItemsForIn(items, m);
    forall n ensures ListFor(ViewOf(items, values'), n) ==
              if n == m then Upsert(ListFor(ViewOf(items, values), m), v) else ListFor(ViewOf(items, values), n)
    {
      ViewByItems(items, values', n);
      ViewByItems(items, values, n);
      if n != m {
        InNoOther(items, values.Keys, m, e, n);
        SameValues(ItemsFor(items, n), values, e, v);
      }
    }
  }

  lemma ElementKnown(items: Items, elems: set<Element>, m: string, e: Element)
    requires ItemsOk(items, elems) && m in items && e in items[m]
    ensures e in elems
  {
  }

  lemma InNoOther(items: Items, elems: set<Element>, m: string, e: Element, n: string)
    requires ItemsOk(items, elems) && m in items && e in items[m] && n != m
    ensures e !in ItemsFor(items, n)
  {
  }

  lemma SameValues(s: seq<Element>, values: Values, e: Element, v: Entry)
    requires e !in s && forall f :: f in s ==> f in values
    ensures ValuesOf(s, values[e := v]) == ValuesOf(s, values)
  {
    assert forall i :: 0 <= i < |s| ==> s[i] in s;
  }

  lemma ReplacedEntry(items: Items, values: Values, links: Links, m: string, e: Element, v: Entry)
    requires IndexOk(items, values, links)
    requires m in items && e in items[m] && values[e].target.name == v.target.name
    ensures forall f :: f in items[m] ==> f in values
    ensures ValuesOf(items[m], values[e := v]) == Upsert(ValuesOf(items[m], values), v)
  {
    hide Inverse, Upsert, DistinctNames, ViewOf, TableOk;
    var i :| 0 <= i < |items[m]| && items[m][i] == e;
    OnePerTarget(items, values, links, m);
    UpsertAt(ValuesOf(items[m], values), v, i);
    assert forall j :: 0 <= j < |items[m]| ==> items[m][j] in items[m];
  }

  lemma ReplacedInverse(items: Items, values: Values, links: Links, e: Element, v: Entry)
    requires Inverse(items, values, links) && e in values && values[e].target.name == v.target.name
    ensures Inverse(items, values[e := v], links)
  {
    hide DistinctMethods;
  }

  /** Putting a new element at the back of a list that has none of its target, and linking it. */
  lemma AddedAtBack(items: Items, values: Values, links: Links, m: string, e: Element, v: Entry)
    requires IndexOk(items, values, links) && e !in values
    requires forall l :: l in LinksOf(links, v.target.name) ==> l.httpMethod != m
    ensures IndexOk(items[m := ItemsFor(items, m) + [e]], values[e := v],
                    links[v.target.name := LinksOf(links, v.target.name) + [MethodLink(m, e)]])
    ensures forall n :: ListFor(ViewOf(items[m := ItemsFor(items, m) + [e]], values[e := v]), n) ==
              if n == m then Upsert(ListFor(ViewOf(items, values), m), v) else ListFor(ViewOf(items, values), n)
  {
    hide *;
    var items', values' := items[m := ItemsFor(items, m) + [e]], values[e := v];
    var links' := links[v.target.name := LinksOf(links, v.target.name) + [MethodLink(m, e)]];
    IndexParts(items, values, links);
    AddedItemsOk(items, values.Keys, m, e);
    assert values'.Keys == values.Keys + {e};
    AddedInverse(items, values, links, m, e, v);
    IndexParts(items', values', links');
    NoneOfTarget(items, values, links, m, v.target.name);
    AddedEntry(ItemsFor(items, m), values, e, v);
    forall n ensures ListFor(ViewOf(items', values'), n) ==
              if n == m then Upsert(ListFor(ViewOf(items, values), m), v) else ListFor(ViewOf(items, values), n)
    {
      ViewByItems(items', values', n);
      ViewByItems(items, values, n);
      PutItems(items, m, ItemsFor(items, m) + [e], n);
      if n != m { SameValues(ItemsFor(items, n), values, e, v); }
    }
  }

  lemma PutItems(items: Items, m: string, s: seq<Element>, n: string)
    ensures ItemsFor(items[m := s], n) == if n == m then s else ItemsFor(items, n)
  {
  }

  lemma AddedEntry(s: seq<Element>, values: Values, e: Element, v: Entry)
    requires e !in values && (forall f :: f in s ==> f in values) && !Holds(ValuesOf(s, values), v.target.name)
    ensures forall f :: f in s + [e] ==> f in values[e := v]
    ensures ValuesOf(s + [e], values[e := v]) == Upsert(ValuesOf(s, values), v)
  {
    hide Upsert, Holds;
    assert forall i :: 0 <= i < |s| ==> s[i] in s;
    UpsertAppends(ValuesOf(s, values), v);
  }

  lemma UpsertAppends(s: seq<Entry>, v: Entry)
    requires !Holds(s, v.target.name)
    ensures Upsert(s, v) == s + [v]
  {
  }

  lemma AddedItemsOk(items: Items, elems: set<Element>, m: string, e: Element)
    requires ItemsOk(items, elems) && e !in elems
    ensures ItemsOk(items[m := ItemsFor(items, m) + [e]], elems + {e})
  {
  }

  lemma NoneOfTarget(items: Items, values: Values, links: Links, m: string, t: string)
    requires IndexOk(items, values, links)
    requires forall l :: l in LinksOf(links, t) ==> l.httpMethod != m
    ensures forall e :: e in ItemsFor(items, m) ==> e in values
    ensures !Holds(ValuesOf(ItemsFor(items, m), values), t)
  {
    var s := ItemsFor(items, m);
    forall i | 0 <= i < |s| ensures values[s[i]].target.name != t {
      assert s[i] in s;
      assert MethodLink(m, s[i]) in LinksOf(links, values[s[i]].target.name);
    }
  }

  lemma AddedInverse(items: Items, values: Values, links: Links, m: string, e: Element, v: Entry)
    requires IndexOk(items, values, links) && e !in values
    requires forall l :: l in LinksOf(links, v.target.name) ==> l.httpMethod != m
    ensures Inverse(items[m := ItemsFor(items, m) + [e]], values[e := v],
                    links[v.target.name := LinksOf(links, v.target.name) + [MethodLink(m, e)]])
  {
    var t, old' := v.target.name, LinksOf(links, v.target.name);
    var items', values' := items[m := ItemsFor(items, m) + [e]], values[e := v];
    var links' := links[t := old' + [MethodLink(m, e)]];
    hide NoDup, ItemsOk;
    forall n, f | n in items' && f in items'[n]
      ensures f in values' && MethodLink(n, f) in LinksOf(links', values'[f].target.name)
    {
      if f != e { assert f in ItemsFor(items, n) && n in items; }
    }
    forall t', l: MethodLink | t' in links' && l in links'[t']
      ensures l.link in ItemsFor(items', l.httpMethod) && l.link in values' && values'[l.link].target.name == t'
    {
      if l != MethodLink(m, e) { assert l in LinksOf(links, t') && t' in links; }
    }
  }

  // ---- an update of one target, method by method ----------------------------------------

  /** The lists of the methods in `done` are updated for the target; the others are still those of `view`. */
  ghost predicate Halfway(items: Items, values: Values, view: Table, target: Target, routes: map<string, seq<Route>>,
                          done: set<string>)
  {
    && ItemsOk(items, values.Keys)
    && forall n :: ListFor(ViewOf(items, values), n) ==
         if n in done then Updated(ListFor(view, n), target, routes, n) else ListFor(view, n)
  }

  lemma NothingDone(items: Items, values: Values, target: Target, routes: map<string, seq<Route>>)
    requires ItemsOk(items, values.Keys)
    ensures Halfway(items, values, ViewOf(items, values), target, routes, {})
  {
  }

  lemma LinkedElement(items: Items, values: Values, links: Links, t: string, l: MethodLink)
    requires IndexOk(items, values, links) && l in LinksOf(links, t)
    ensures l.httpMethod in items && l.link in items[l.httpMethod] && l.link in values
    ensures values[l.link].target.name == t
  {
  }

  /** The target has no more routes for the method: element and link go. */
  lemma MethodDropped(items: Items, values: Values, links: Links, view: Table, target: Target,
                      routes: map<string, seq<Route>>, done: set<string>, k: nat, i: nat)
    requires IndexOk(items, values, links) && Halfway(items, values, view, target, routes, done)
    requires k < |LinksOf(links, target.name)|
    requires var l := LinksOf(links, target.name)[k];
             l.httpMethod in items && i < |items[l.httpMethod]| && items[l.httpMethod][i] == l.link
             && l.httpMethod !in routes && l.httpMethod !in done
    ensures var l := LinksOf(links, target.name)[k];
            && IndexOk(TakeOut(items, l.httpMethod, i), values,
                       links[target.name := Drop(LinksOf(links, target.name), k)])
            && Halfway(TakeOut(items, l.httpMethod, i), values, view, target, routes, done + {l.httpMethod})
  {
    hide IndexOk, Without, Upsert, TakeOut, Drop, ItemsOk, Inverse, ViewOf, ListFor;
    var t := target.name;
    var l := links[t][k];
    IndexParts(items, values, links);
    RemovedTogether(items, values, links, l.httpMethod, i, t, k);
    IndexParts(TakeOut(items, l.httpMethod, i), values, links[t := Drop(links[t], k)]);
  }

  /** The target has new routes for the method: they replace the old ones in place. */
  lemma MethodReplaced(items: Items, values: Values, links: Links, view: Table, target: Target,
                       routes: map<string, seq<Route>>, done: set<string>, l: MethodLink)
    requires IndexOk(items, values, links) && Halfway(items, values, view, target, routes, done)
    requires l in LinksOf(links, target.name) && l.httpMethod in routes && l.httpMethod !in done
    ensures IndexOk(items, values[l.link := Entry(target, routes[l.httpMethod])], links)
    ensures Halfway(items, values[l.link := Entry(target, routes[l.httpMethod])], view, target, routes, done + {l.httpMethod})
  {
    LinkedElement(items, values, links, target.name, l);
    ReplacedInPlace(items, values, links, l.httpMethod, l.link, Entry(target, routes[l.httpMethod]));
    hide Without, Upsert, ItemsOk, Inverse, ViewOf, ListFor;
  }

  /** The target is new to the method: its routes go to the back. */
  lemma MethodAdded(items: Items, values: Values, links: Links, view: Table, target: Target,
                    routes: map<string, seq<Route>>, done: set<string>, m: string, e: Element)
    requires IndexOk(items, values, links) && Halfway(items, values, view, target, routes, done)
    requires m in routes && m !in done && e !in values
    requires forall l :: l in LinksOf(links, target.name) ==> l.httpMethod != m
    ensures IndexOk(items[m := ItemsFor(items, m) + [e]], values[e := Entry(target, routes[m])],
                    links[target.name := LinksOf(links, target.name) + [MethodLink(m, e)]])
    ensures Halfway(items[m := ItemsFor(items, m) + [e]], values[e := Entry(target, routes[m])],
                    view, target, routes, done + {m})
  {
    AddedAtBack(items, values, links, m, e, Entry(target, routes[m]));
    hide Without, Upsert, ItemsOk, Inverse, ViewOf, ListFor;
  }

  /** When all methods are done the table is the updated one. */
  lemma AllDone(items: Items, values: Values, links: Links, view: Table, target: Target,
                routes: map<string, seq<Route>>, done: set<string>)
    requires IndexOk(items, values, links) && Halfway(items, values, view, target, routes, done)
    requires routes.Keys <= done
    requires forall l :: l in LinksOf(links, target.name) ==> l.httpMethod in done
    ensures ViewOf(items, values) == RoutingTable.AddTarget(view, target, routes)
  {
    var r := ViewOf(items, values);
    OnePerTargetAll(items, values, links);
    forall n ensures ListFor(r, n) == Updated(ListFor(view, n), target, routes, n) {
      if n !in done {
        NoneOfTarget(items, values, links, n, target.name);
        ViewByItems(items, values, n);
      }
    }
    hide ViewOf, IndexOk, Updated, Halfway;
    TableByLists(r, view, target, routes);
  }

  lemma OnePerTargetAll(items: Items, values: Values, links: Links)
    requires IndexOk(items, values, links)
    ensures TableOk(ViewOf(items, values))
  {
    if m :| m in items {
      OnePerTarget(items, values, links, m);
    }
  }

  lemma TableByLists(r: Table, view: Table, target: Target, routes: map<string, seq<Route>>)
    requires TableOk(r)
    requires forall n :: ListFor(r, n) == Updated(ListFor(view, n), target, routes, n)
    ensures r == RoutingTable.AddTarget(view, target, routes)
  {
    hide Upsert, DistinctNames;
    var a := RoutingTable.AddTarget(view, target, routes);
    assert Without([], target.name) == [];
    hide Without;
    forall n ensures n in r <==> n in a {
      assert n in r <==> ListFor(r, n) != [];
    }
    assert r.Keys == a.Keys;
  }

  lemma StartIndex(items: Items, values: Values, links: Links, t: string)
    requires IndexOk(items, values, links)
    ensures IndexOk(items, values, links[t := LinksOf(links, t)]) && DistinctMethods(LinksOf(links, t))
  {
  }

  lemma ForgetTarget(items: Items, values: Values, links: Links, t: string)
    requires IndexOk(items, values, links) && LinksOf(links, t) == []
    ensures IndexOk(items, values, links - {t})
  {
    hide DistinctMethods, NoDup;
    assert forall n :: LinksOf(links - {t}, n) == LinksOf(links, n);
  }

  lemma DropsAreRemoval(view: Table, target: Target)
    ensures RoutingTable.AddTarget(view, target, map[]) == RoutingTable.RemoveTarget(view, target.name)
  {
    assert Without([], target.name) == [];
    hide Without;
  }

  lemma DropMiddle<T>(a: seq<T>, b: seq<T>)
    requires b != []
    ensures Drop(a + b, |a|) == a + b[1..] && (a + b)[|a|] == b[0]
  {
  }
}
