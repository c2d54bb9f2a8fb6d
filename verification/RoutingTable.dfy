/** The routing table of routing/pattern_router.go as a value: for every HTTP method an ordered
    list of targets with their routes. */
module RoutingTable {
  import opened Text

  /** A description of a target. Two descriptions with one name are two versions of the same target. */
  datatype Target = Target(name: string, version: int)

  /** A compiled pattern as handed to the matching library. */
  datatype Pattern = Pattern(opCodes: seq<int>, pool: seq<string>, verb: string)

  datatype Route = Route(service: string, rpc: string, binding: int, pattern: Pattern)

  datatype Entry = Entry(target: Target, routes: seq<Route>)

  type Table = map<string, seq<Entry>>

  function ListFor(t: Table, m: string): seq<Entry> {
    if m in t then t[m] else []
  }

  predicate Holds(s: seq<Entry>, name: string) {
    exists i :: 0 <= i < |s| && s[i].target.name == name
  }

  predicate DistinctNames(s: seq<Entry>) {
    forall i, j :: 0 <= i < j < |s| ==> s[i].target.name != s[j].target.name
  }

  /** Replaces the entry of the same target where it stands, or appends. */
  function Upsert(s: seq<Entry>, e: Entry): (r: seq<Entry>)
    ensures !Holds(s, e.target.name) ==> r == s + [e]
    ensures |r| == |s| || |r| == |s| + 1
  {
    if s == [] then [e]
    else if s[0].target.name == e.target.name then [e] + s[1..]
    else
      assert !Holds(s, e.target.name) ==> !Holds(s[1..], e.target.name) by {
        assert forall i :: 0 <= i < |s| - 1 ==> s[1..][i] == s[i + 1];
      }
      [s[0]] + Upsert(s[1..], e)
  }

  function Without(s: seq<Entry>, name: string): (r: seq<Entry>)
    ensures !Holds(s, name) ==> r == s
  {
    if s == [] then []
    else
      assert !Holds(s, name) ==> !Holds(s[1..], name) by {
        assert forall i :: 0 <= i < |s| - 1 ==> s[1..][i] == s[i + 1];
      }
      if s[0].target.name == name then
        assert Holds(s, name);
        Without(s[1..], name)
      else [s[0]] + Without(s[1..], name)
  }

  /** The list of method `m` after the target's routes became `routes`. */
  function Updated(s: seq<Entry>, target: Target, routes: map<string, seq<Route>>, m: string): seq<Entry> {
    if m in routes then Upsert(s, Entry(target, routes[m])) else Without(s, target.name)
  }

  function AddTarget(t: Table, target: Target, routes: map<string, seq<Route>>): Table {
    map m | m in t.Keys + routes.Keys && Updated(ListFor(t, m), target, routes, m) != []
      :: Updated(ListFor(t, m), target, routes, m)
  }

  function RemoveTarget(t: Table, name: string): Table {
    map m | m in t && Without(t[m], name) != [] :: Without(t[m], name)
  }

  predicate TableOk(t: Table) {
    forall m :: m in t ==> t[m] != [] && DistinctNames(t[m])
  }

  // ---- laws of one update --------------------------------------------------------------

  /** Where the target stands in a list, its entry is replaced in place. */
  lemma {:induction false} UpsertAt(s: seq<Entry>, e: Entry, i: nat)
    requires i < |s| && s[i].target.name == e.target.name && DistinctNames(s)
    ensures Upsert(s, e) == s[i := e]
  {
    if i > 0 {
      assert s[0].target.name != e.target.name;
      assert forall j :: 0 <= j < |s| - 1 ==> s[1..][j] == s[j + 1];
      UpsertAt(s[1..], e, i - 1);
      assert [s[0]] + s[1..][i - 1 := e] == s[i := e];
    }
  }

  lemma {:induction false} WithoutAt(s: seq<Entry>, name: string, i: nat)
    requires i < |s| && s[i].target.name == name && DistinctNames(s)
    ensures Without(s, name) == s[..i] + s[i + 1..]
  {
    hide *;
    WithoutHead(s, name);
    DistinctTail(s);
    if i > 0 {
      WithoutAt(s[1..], name, i - 1);
      assert [s[0]] + (s[1..][..i - 1] + s[1..][i..]) == s[..i] + s[i + 1..];
    } else {
      WithoutNone(s[1..], name);
      assert s[..0] + s[1..] == s[1..];
    }
  }

  lemma DistinctTail(s: seq<Entry>)
    requires s != [] && DistinctNames(s)
    ensures DistinctNames(s[1..]) && !Holds(s[1..], s[0].target.name)
    ensures forall i :: 0 < i < |s| ==> s[i].target.name != s[0].target.name
  {
    assert forall j :: 0 <= j < |s| - 1 ==> s[1..][j] == s[j + 1];
  }

  lemma WithoutNone(s: seq<Entry>, name: string)
    requires !Holds(s, name)
    ensures Without(s, name) == s
  {
  }

  /** Removal drops the target and nothing else, keeping the order. */
  lemma {:induction false} WithoutMembers(s: seq<Entry>, name: string)
    ensures !Holds(Without(s, name), name)
    ensures DistinctNames(s) ==> DistinctNames(Without(s, name))
    ensures forall e :: e in Without(s, name) <==> e in s && e.target.name != name
    decreases |s|
  {
    hide Holds, DistinctNames;
    WithoutHead(s, name);
    if s == [] {
      NothingHeld(name);
    } else {
      WithoutMembers(s[1..], name);
      HeadAndTail(s, Without(s[1..], name), name);
    }
  }

  lemma WithoutHead(s: seq<Entry>, name: string)
    ensures Without(s, name) ==
              if s == [] then [] else if s[0].target.name == name then Without(s[1..], name) else [s[0]] + Without(s[1..], name)
  {
  }

  lemma NothingHeld(name: string)
    ensures !Holds([], name) && DistinctNames([])
  {
  }

  lemma HeadAndTail(s: seq<Entry>, tail: seq<Entry>, name: string)
    requires s != [] && !Holds(tail, name) && (DistinctNames(s[1..]) ==> DistinctNames(tail))
    requires forall e :: e in tail <==> e in s[1..] && e.target.name != name
    ensures s[0].target.name != name ==> !Holds([s[0]] + tail, name)
    ensures DistinctNames(s) ==> DistinctNames(tail) && DistinctNames([s[0]] + tail)
    ensures forall e :: e in [s[0]] + tail <==> e == s[0] || e in tail
  {
    assert forall j :: 0 <= j < |s| - 1 ==> s[1..][j] == s[j + 1];
    if DistinctNames(s) {
      forall j | 0 <= j < |tail| ensures tail[j].target.name != s[0].target.name {
        assert tail[j] in tail && tail[j] in s[1..];
      }
    }
  }

  /** An update leaves every other target's entries and their order alone. */
  lemma {:induction false} OthersUntouched(s: seq<Entry>, target: Target, routes: map<string, seq<Route>>, m: string)
    ensures Without(Updated(s, target, routes, m), target.name) == Without(s, target.name)
  {
    if m in routes {
      UpsertOthers(s, Entry(target, routes[m]));
    } else {
      WithoutMembers(s, target.name);
    }
  }

  lemma {:induction false} UpsertOthers(s: seq<Entry>, e: Entry)
    ensures Without(Upsert(s, e), e.target.name) == Without(s, e.target.name)
  {
    if s != [] {
      if s[0].target.name == e.target.name {
        assert ([e] + s[1..])[1..] == s[1..];
      } else {
        UpsertOthers(s[1..], e);
        assert ([s[0]] + Upsert(s[1..], e))[1..] == Upsert(s[1..], e);
      }
    }
  }

  lemma UpsertOk(s: seq<Entry>, e: Entry)
    requires DistinctNames(s)
    ensures DistinctNames(Upsert(s, e)) && Upsert(s, e) != []
  {
    if Holds(s, e.target.name) {
      var i :| 0 <= i < |s| && s[i].target.name == e.target.name;
      UpsertAt(s, e, i);
    }
  }

  lemma UpdatesKeepTable(t: Table, target: Target, routes: map<string, seq<Route>>)
    requires TableOk(t)
    ensures TableOk(AddTarget(t, target, routes)) && TableOk(RemoveTarget(t, target.name))
  {
    forall m | m in t.Keys + routes.Keys ensures DistinctNames(Updated(ListFor(t, m), target, routes, m)) {
      if m in routes {
        UpsertOk(ListFor(t, m), Entry(target, routes[m]));
      } else {
        WithoutMembers(ListFor(t, m), target.name);
      }
    }
    forall m | m in t ensures DistinctNames(Without(t[m], target.name)) {
      WithoutMembers(t[m], target.name);
    }
  }

  /** Removing a target undoes adding it, whatever it held before. */
  lemma RemoveUndoesAdd(t: Table, target: Target, routes: map<string, seq<Route>>)
    requires TableOk(t)
    ensures RemoveTarget(AddTarget(t, target, routes), target.name) == RemoveTarget(t, target.name)
  {
    var t', name := AddTarget(t, target, routes), target.name;
    hide TableOk, Upsert, Without;
    forall m ensures Without(ListFor(t', m), name) == Without(ListFor(t, m), name) {
      OthersUntouched(ListFor(t, m), target, routes, m);
    }
    RemoveByLists(t, t', name);
  }

  lemma RemoveByLists(t: Table, t': Table, name: string)
    requires forall m :: Without(ListFor(t', m), name) == Without(ListFor(t, m), name)
    ensures RemoveTarget(t', name) == RemoveTarget(t, name)
  {
    var r, r' := RemoveTarget(t, name), RemoveTarget(t', name);
    hide *;
    forall m ensures (m in r' <==> m in r) && (m in r ==> r'[m] == r[m]) {
      RemoveLookup(t, name, m);
      RemoveLookup(t', name, m);
    }
    assert r'.Keys == r.Keys;
  }

  lemma RemoveLookup(t: Table, name: string, m: string)
    ensures m in RemoveTarget(t, name) <==> Without(ListFor(t, m), name) != []
    ensures m in RemoveTarget(t, name) ==> RemoveTarget(t, name)[m] == Without(ListFor(t, m), name)
  {
  }

  // ---- whole histories -----------------------------------------------------------------

  datatype Change = Add(target: Target, routes: map<string, seq<Route>>) | Remove(name: string)

  function NameOf(c: Change): string {
    match c case Add(target, _) => target.name case Remove(name) => name
  }

  function Apply(t: Table, c: Change): Table {
    match c
    case Add(target, routes) => AddTarget(t, target, routes)
    case Remove(name) => RemoveTarget(t, name)
  }

  /** The table after a history of changes, oldest first. */
  function TableOf(h: seq<Change>): Table {
    if h == [] then map[] else Apply(TableOf(h[..|h| - 1]), h[|h| - 1])
  }

  /** What the latest change of the target says about method `m`. */
  function Current(h: seq<Change>, name: string, m: string): Option<Entry> {
    if h == [] then None
    else
      var c := h[|h| - 1];
      if NameOf(c) != name then Current(h[..|h| - 1], name, m)
      else if c.Add? && m in c.routes then Some(Entry(c.target, c.routes[m]))
      else None
  }

  /** When the target last began to have routes for `m` without a gap. */
  function Since(h: seq<Change>, name: string, m: string): (n: nat)
    ensures n <= |h|
  {
    if h == [] then 0
    else if Current(h[..|h| - 1], name, m).None? then |h|
    else Since(h[..|h| - 1], name, m)
  }

  /** An ordered list that holds exactly the current entries, the longest-serving target first. */
  ghost predicate Describes(s: seq<Entry>, h: seq<Change>, m: string) {
    && (forall name :: Current(h, name, m).Some? ==> Current(h, name, m).value in s)
    && (forall i :: 0 <= i < |s| ==> Current(h, s[i].target.name, m) == Some(s[i]))
    && (forall i, j :: 0 <= i < j < |s| ==> Since(h, s[i].target.name, m) < Since(h, s[j].target.name, m))
  }

  lemma CurrentName(h: seq<Change>, name: string, m: string)
    ensures Current(h, name, m).Some? ==> Current(h, name, m).value.target.name == name
  {
  }

  /** The effect of one more change on what is current and since when. */
  lemma CurrentStep(h: seq<Change>, c: Change, name: string, m: string)
    ensures NameOf(c) != name ==> Current(h + [c], name, m) == Current(h, name, m)
    ensures NameOf(c) == name ==>
              Current(h + [c], name, m)
              == (if c.Add? && m in c.routes then Some(Entry(c.target, c.routes[m])) else None)
    ensures Since(h + [c], name, m) == if Current(h, name, m).None? then |h| + 1 else Since(h, name, m)
    ensures Current(h, name, m).Some? ==> Since(h, name, m) <= |h|
  {
    assert (h + [c])[..|h|] == h;
  }

  lemma DescribesReplaced(h: seq<Change>, c: Change, s: seq<Entry>, m: string, i: nat)
    requires Describes(s, h, m) && c.Add? && m in c.routes
    requires i < |s| && s[i].target.name == c.target.name
    ensures Describes(s[i := Entry(c.target, c.routes[m])], h + [c], m)
  {
    var e, r, h' := Entry(c.target, c.routes[m]), s[i := Entry(c.target, c.routes[m])], h + [c];
    hide Current, Since;
    assert DistinctNames(s);
    forall name | Current(h', name, m).Some? ensures Current(h', name, m).value in r {
      CurrentStep(h, c, name, m);
      if name == c.target.name {
        assert r[i] == e;
      } else {
        var k :| 0 <= k < |s| && s[k] == Current(h, name, m).value;
        CurrentName(h, name, m);
        assert r[k] == s[k];
      }
    }
    forall k | 0 <= k < |r|
      ensures Current(h', r[k].target.name, m) == Some(r[k])
      ensures Since(h', r[k].target.name, m) == Since(h, s[k].target.name, m)
    {
      CurrentStep(h, c, r[k].target.name, m);
      assert k != i ==> r[k].target.name != c.target.name;
    }
  }

  lemma NotHeldNotCurrent(h: seq<Change>, name: string, s: seq<Entry>, m: string)
    requires Describes(s, h, m) && !Holds(s, name)
    ensures Current(h, name, m).None?
  {
    CurrentName(h, name, m);
  }

  lemma DescribesAppended(h: seq<Change>, c: Change, s: seq<Entry>, m: string)
    requires Describes(s, h, m) && c.Add? && m in c.routes
    requires !Holds(s, c.target.name)
    ensures Describes(s + [Entry(c.target, c.routes[m])], h + [c], m)
  {
    var e, r, h' := Entry(c.target, c.routes[m]), s + [Entry(c.target, c.routes[m])], h + [c];
    hide Current, Since;
    NotHeldNotCurrent(h, c.target.name, s, m);
    forall name | Current(h', name, m).Some? ensures Current(h', name, m).value in r {
      CurrentStep(h, c, name, m);
      if name == c.target.name {
        assert r[|s|] == e;
      } else {
        var k :| 0 <= k < |s| && s[k] == Current(h, name, m).value;
        assert r[k] == s[k];
      }
    }
    forall k | 0 <= k < |r|
      ensures Current(h', r[k].target.name, m) == Some(r[k])
      ensures k < |s| ==> Since(h', r[k].target.name, m) == Since(h, s[k].target.name, m) <= |h|
      ensures k == |s| ==> Since(h', r[k].target.name, m) == |h| + 1
    {
      CurrentStep(h, c, r[k].target.name, m);
      assert k < |s| ==> r[k] == s[k] && s[k].target.name != c.target.name;
    }
  }

  lemma DescribesDropped(h: seq<Change>, c: Change, s: seq<Entry>, m: string, r: seq<Entry>)
    requires Describes(s, h, m) && (c.Add? ==> m !in c.routes)
    requires r == s || exists i :: 0 <= i < |s| && r == s[..i] + s[i + 1..]
    requires !Holds(r, NameOf(c))
    requires forall e :: e in s && e.target.name != NameOf(c) ==> e in r
    ensures Describes(r, h + [c], m)
  {
    var h' := h + [c];
    hide Current, Since;
    forall name | Current(h', name, m).Some? ensures Current(h', name, m).value in r {
      CurrentStep(h, c, name, m);
      CurrentName(h, name, m);
    }
    var i := if r == s then |s| else var i :| 0 <= i < |s| && r == s[..i] + s[i + 1..]; i;
    forall k | 0 <= k < |r|
      ensures Current(h', r[k].target.name, m) == Some(r[k])
      ensures Since(h', r[k].target.name, m) == Since(h, s[if k < i then k else k + 1].target.name, m)
    {
      assert r[k] == s[if k < i then k else k + 1];
      CurrentStep(h, c, r[k].target.name, m);
    }
  }

  /** The table is determined by each target's latest change and by how long it has served without a gap. */
  lemma {:induction false} HistoryDetermines(h: seq<Change>, m: string)
    ensures Describes(ListFor(TableOf(h), m), h, m)
    ensures TableOk(TableOf(h))
    decreases |h|
  {
    if h != [] {
      var h', c := h[..|h| - 1], h[|h| - 1];
      assert h == h' + [c];
      HistoryDetermines(h', m);
      ListStep(h', c, m);
      hide TableOf, Describes;
      DescribesStep(h', c, ListFor(TableOf(h'), m), m);
    }
  }

  lemma DescribesStep(h: seq<Change>, c: Change, s: seq<Entry>, m: string)
    requires Describes(s, h, m) && DistinctNames(s)
    ensures Describes(ChangedList(s, c, m), h + [c], m)
  {
    hide Describes;
    var name := NameOf(c);
    if c.Add? && m in c.routes {
      var e := Entry(c.target, c.routes[m]);
      if Holds(s, name) {
        var i :| 0 <= i < |s| && s[i].target.name == name;
        UpsertAt(s, e, i);
        DescribesReplaced(h, c, s, m, i);
      } else {
        DescribesAppended(h, c, s, m);
      }
    } else {
      WithoutMembers(s, name);
      if Holds(s, name) {
        var i :| 0 <= i < |s| && s[i].target.name == name;
        WithoutAt(s, name, i);
      }
      DescribesDropped(h, c, s, m, Without(s, name));
    }
  }

  /** What one change does to the list of one method. */
  function ChangedList(s: seq<Entry>, c: Change, m: string): seq<Entry> {
    match c
    case Add(target, routes) => Updated(s, target, routes, m)
    case Remove(name) => Without(s, name)
  }

  lemma ListStep(h: seq<Change>, c: Change, m: string)
    requires TableOk(TableOf(h))
    ensures ListFor(TableOf(h + [c]), m) == ChangedList(ListFor(TableOf(h), m), c, m)
    ensures TableOk(TableOf(h + [c]))
  {
    assert (h + [c])[..|h|] == h;
    var t := TableOf(h);
    assert TableOf(h + [c]) == Apply(t, c);
    hide TableOf;
    match c {
      case Add(target, routes) =>
        UpdatesKeepTable(t, target, routes);
        hide TableOk, DistinctNames;
        if m in routes { UpsertKeeps(ListFor(t, m), Entry(target, routes[m])); }
      case Remove(name) => UpdatesKeepTable(t, Target(name, 0), map[]);
    }
  }

  lemma UpsertKeeps(s: seq<Entry>, e: Entry)
    ensures Upsert(s, e) != []
  {
  }
}
