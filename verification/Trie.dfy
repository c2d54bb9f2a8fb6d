/** The routing trie of internal/httprule: its nodes are changed in place and always show the value of TrieModel. */
module Trie {
  import opened Text
  import opened HttpRule
  import opened TrieModel
  import opened TrieFind
  import opened TrieFound
  import opened TrieIndex

  ghost function KidsIn(nodes: set<Node>): Kids
    reads nodes`literals, nodes`wildcard, nodes`multiWildcard
  {
    map n | n in nodes :: n.Kids()
  }

  ghost function VerbsIn(nodes: set<Node>): Verbs
    reads nodes`verbs
  {
    map n | n in nodes :: n.verbs
  }

  ghost function TmplsIn(nodes: set<Node>): Tmpls
    reads nodes`tmpl
  {
    map n | n in nodes :: n.tmpl
  }

  lemma AncestorsGrow(m: string, a: seq<Key>, b: seq<Key>)
    ensures Ancestors(m, a) <= Ancestors(m, a + b)
  {
    forall p | p in Ancestors(m, a) ensures p in Ancestors(m, a + b) {
      AncestorsArePrefixes(m, a, p);
      assert (a + b)[..|p.keys|] == a[..|p.keys|];
      AncestorsArePrefixes(m, a + b, p);
    }
  }

  lemma {:induction false} FlattenAppend(ss: seq<Segment>, s: Segment)
    ensures Flatten(ss + [s]) == Flatten(ss) + KeyOf(s)
  {
    hide KeyOf;
    if ss == [] {
      assert [s][1..] == [];
    } else {
      assert (ss + [s])[1..] == ss[1..] + [s];
      FlattenAppend(ss[1..], s);
    }
  }

  class Trie {
    var methods: map<string, Node>
    ghost var index: Index
    ghost var nodes: set<Node>
    // Every verb leaf that hangs or ever hung on a node.
    ghost var leaves: set<Node>
    ghost var view: TrieView

    ghost predicate Held()
      reads this`index, this`nodes, this`leaves, this`view, nodes`verbs, nodes`tmpl, leaves`tmpl
    {
      && LeavesOk(nodes, VerbsIn(nodes), TmplsIn(nodes + leaves), leaves)
      && EntriesOk(index, VerbsIn(nodes), TmplsIn(nodes + leaves), view.entries)
      && view.nodes == index.Keys && nodes == index.Values
    }

    /** The nodes form a tree that shows the view. */
    ghost predicate Valid()
      reads this, nodes, leaves
    {
      TreeOk(methods, index, KidsIn(nodes)) && Held()
    }

    constructor ()
      ensures Valid() && view == EMPTY && fresh(nodes) && fresh(leaves)
    {
      methods, index, nodes, leaves, view := map[], map[], {}, {}, EMPTY;
    }

    /** The node behind an edge of `n` is known under its path. */
    ghost method Note(n: Node, p: Path, k: Key, r: Node, kids: Kids)
      requires TreeOk(methods, index, kids) && Held()
      requires p in index && index[p] == n && n in kids
      requires KidsIn(nodes) == kids[n := kids[n][k := r]]
      requires if k in kids[n] then r == kids[n][k]
               else r !in nodes && r !in leaves && r.tmpl == None && r.verbs == map[] && r.Kids() == map[]
      modifies this`index, this`nodes, this`view
      ensures Valid() && index == old(index)[Down(p, k) := r]
      ensures if k in kids[n] then index == old(index) else Down(p, k) !in old(index)
      ensures nodes <= old(nodes) + {r}
      ensures view == TrieView(old(view.nodes) + {Down(p, k)}, old(view.entries))
    {
      if k in kids[n] {
        KnownEdge(n, p, k, kids);
        SameEdge(kids, n, k, r);
        hide *;
        assert Valid() by { ValidParts(); }
      } else {
        NoteNew(n, p, k, r, kids);
      }
    }

    lemma KnownEdge(n: Node, p: Path, k: Key, kids: Kids)
      requires TreeOk(methods, index, kids) && Held()
      requires p in index && index[p] == n && n in kids && k in kids[n]
      ensures index[Down(p, k) := kids[n][k]] == index
      ensures TrieView(view.nodes + {Down(p, k)}, view.entries) == view
    {
      assert EdgeOk(index, kids, p, k);
      hide LeavesOk, EntriesOk, RootsOk, IsTree, EdgesOk, KidsOf, KidsIn;
      assert view.nodes + {Down(p, k)} == view.nodes;
    }

    lemma ValidParts()
      ensures Valid() <==> TreeOk(methods, index, KidsIn(nodes)) && Held()
    {
    }

    ghost method NoteNew(n: Node, p: Path, k: Key, r: Node, kids: Kids)
      requires TreeOk(methods, index, kids) && Held()
      requires p in index && index[p] == n && n in kids && k !in kids[n]
      requires KidsIn(nodes) == kids[n := kids[n][k := r]]
      requires r !in nodes && r !in leaves && r.tmpl == None && r.verbs == map[] && r.Kids() == map[]
      modifies this`index, this`nodes, this`view
      ensures Valid() && index == old(index)[Down(p, k) := r] && Down(p, k) !in old(index) && nodes == old(nodes) + {r}
      ensures view == TrieView(old(view.nodes) + {Down(p, k)}, old(view.entries))
    {
      var q := Down(p, k);
      hide *;
      HeldParts();
      Grown(methods, index, kids, p, k, r);
      EntriesGrown(index, VerbsIn(nodes), TmplsIn(nodes + leaves), leaves, view.entries, q, r);
      ValuesGrown(index, q, r);
      OneMore(nodes, r, leaves);
      index, nodes := index[q := r], nodes + {r};
      view := TrieView(view.nodes + {q}, view.entries);
      HeldParts();
      ValidParts();
    }

    /** Going along one edge, old or new, reaches its end. */
    ghost method Went(n: Node, p: Path, k: Key, r: Node, kids: Kids, known: set<Node>) returns (q: Path)
      requires TreeOk(methods, index, kids) && Held()
      requires p in index && index[p] == n && n in nodes && known == nodes && kids.Keys == known
      requires forall n' :: n' in known && n' != n ==> n'.Kids() == kids[n']
      requires n.Kids() == kids[n][k := r]
      requires if k in kids[n] then r == kids[n][k]
               else r !in nodes && r !in leaves && r.tmpl == None && r.verbs == map[] && r.Kids() == map[]
      modifies this`index, this`nodes, this`view
      ensures Valid() && Reached(old(index), old(view), p, [k], index, view, q, r)
      ensures nodes <= known + {r} && (k in kids[n] ==> index == old(index))
    {
      hide *;
      q := Down(p, k);
      WayKnown(p, kids);
      KidsChanged(known, kids, n, k, r);
      ghost var index0, view0 := index, view;
      Note(n, p, k, r, kids);
      StepReached(index0, view0, p, k, index, view, r);
    }

    lemma WayKnown(p: Path, kids: Kids)
      requires TreeOk(methods, index, kids) && Held() && p in index
      ensures Ancestors(p.httpMethod, p.keys) <= view.nodes
    {
      TreeParts(methods, index, kids);
      AncestorsKnown(index, p);
    }

    lemma Standing(p: Path, n: Node)
      requires Valid() && p in index && index[p] == n
      ensures Reached(index, view, p, [], index, view, p, n)
    {
      WayKnown(p, KidsIn(nodes));
      hide *;
      StandingStill(index, view, p, n);
    }

    lemma Snapshot(p: Path)
      requires Valid() && p in index
      ensures index[p] in nodes && forall k :: k in index[p].Kids() ==> index[p].Kids()[k] in nodes
      ensures TreeOk(methods, index, KidsIn(nodes)) && Held() && KidsIn(nodes).Keys == nodes
      ensures forall n :: n in nodes ==> n.Kids() == KidsIn(nodes)[n]
    {
      hide KidsOf, LeavesOk, EntriesOk;
      forall k | k in index[p].Kids() ensures index[p].Kids()[k] in nodes {
        assert EdgeOk(index, KidsIn(nodes), p, k);
      }
    }

    /** node.add: the node a segment leads to. */
    method AddSegment(n: Node, ghost p: Path, s: Segment) returns (r: Node, ghost q: Path)
      requires Valid() && p in index && index[p] == n
      modifies this`index, this`nodes, this`view, nodes
      ensures Valid() && Reached(old(index), old(view), p, KeyOf(s), index, view, q, r) && fresh(nodes - old(nodes))
      decreases s
    {
      hide *;
      ghost var kids, known := KidsIn(nodes), nodes;
      Snapshot(p);
      KeyOfParts(s);
      match s
      case Wildcard =>
        r := n.AddWildcard();
        q := Went(n, p, KWildcard, r, kids, known);
      case MultiWildcard =>
        r := n.AddMultiWildcard();
        q := Went(n, p, KMulti, r, kids, known);
      case Variable(_, body) =>
        r, q := AddVariable(n, p, body);
      case Literal(lit) =>
        r := n.AddLiteral(lit);
        q := Went(n, p, KLiteral(lit), r, kids, known);
    }

    /** A variable leads where its body leads. */
    method AddVariable(n: Node, ghost p: Path, body: seq<Segment>) returns (r: Node, ghost q: Path)
      requires Valid() && p in index && index[p] == n
      modifies this`index, this`nodes, this`view, nodes
      ensures Valid() && Reached(old(index), old(view), p, Flatten(body), index, view, q, r) && fresh(nodes - old(nodes))
      decreases body
    {
      hide *;
      r, q := n, p;
      Standing(p, n);
      assert body[..0] == [];
      FlattenNothing();
      for i := 0 to |body|
        invariant q in index && index[q] == r
        invariant Valid() && Reached(old(index), old(view), p, Flatten(body[..i]), index, view, q, r)
        invariant fresh(nodes - old(nodes))
      {
        ghost var index1, view1, q1, r1 := index, view, q, r;
        r, q := AddSegment(r, q, body[i]);
        ReachedFurther(old(index), old(view), p, Flatten(body[..i]), index1, view1, q1, r1, KeyOf(body[i]), index, view, q, r);
        FlattenAppend(body[..i], body[i]);
        assert body[..i + 1] == body[..i] + [body[i]];
        ReachedEnd(index1, view1, q1, KeyOf(body[i]), index, view, q, r);
      }
      assert body[..|body|] == body;
    }


    /** The root of a method, made when there is none. */
    method Root(m: string) returns (n: Node)
      requires Valid()
      modifies this`methods, this`index, this`nodes, this`view
      ensures Valid() && Path(m, []) in index && index[Path(m, [])] == n && fresh(nodes - old(nodes))
      ensures view == TrieView(old(view.nodes) + {Path(m, [])}, old(view.entries))
    {
      hide *;
      if m !in methods {
        ghost var methods0 := methods;
        ValidParts();
        n := new Node();
        methods := methods[m := n];
        NoteRoot(methods0, m, n);
      }
      n := methods[m];
      RootKnown(m);
    }

    ghost method NoteRoot(methods0: map<string, Node>, m: string, r: Node)
      requires TreeOk(methods0, index, KidsIn(nodes)) && Held()
      requires m !in methods0 && methods == methods0[m := r]
      requires r !in nodes && r !in leaves && r.tmpl == None && r.verbs == map[] && r.Kids() == map[]
      modifies this`index, this`nodes, this`view
      ensures Valid() && index == old(index)[Path(m, []) := r] && nodes == old(nodes) + {r}
      ensures view == TrieView(old(view.nodes) + {Path(m, [])}, old(view.entries))
    {
      var q := Path(m, []);
      hide *;
      HeldParts();
      Rooted(methods0, index, KidsIn(nodes), m, r);
      EntriesGrown(index, VerbsIn(nodes), TmplsIn(nodes + leaves), leaves, view.entries, q, r);
      ValuesGrown(index, q, r);
      OneMore(nodes, r, leaves);
      index, nodes := index[q := r], nodes + {r};
      view := TrieView(view.nodes + {q}, view.entries);
      HeldParts();
      ValidParts();
    }

    lemma RootKnown(m: string)
      requires Valid() && m in methods
      ensures Path(m, []) in index && index[Path(m, [])] == methods[m]
      ensures TrieView(view.nodes + {Path(m, [])}, view.entries) == view
    {
      hide EdgesOk, IsTree, LeavesOk, EntriesOk, KidsIn;
      assert view.nodes + {Path(m, [])} == view.nodes;
    }

    /** A template is put on the node at `p` under its verb. */
    method PutTemplate(n: Node, ghost p: Path, t: Template)
      requires Valid() && p in index && index[p] == n
      modifies this`leaves, this`view, n`tmpl, n`verbs
      ensures Valid() && view == TrieView(old(view.nodes), old(view.entries)[Place(p, t.verb) := t])
      ensures fresh(leaves - old(leaves))
    {
      hide *;
      Snapshot(p);
      HeldParts();
      ghost var verbs, tmpls, all := VerbsIn(nodes), TmplsIn(nodes + leaves), nodes + leaves;
      SnapshotHeld(nodes, all);
      ghost var leaf := n.AddVerb(t);
      if t.verb == "" {
        NodePut(n, p, t, verbs, tmpls);
      } else {
        LeafPut(n, p, t, leaf, verbs, tmpls);
      }
      ValidParts();
    }

    ghost method NodePut(n: Node, p: Path, t: Template, verbs: Verbs, tmpls: Tmpls)
      requires TreeOk(methods, index, KidsIn(nodes)) && view.nodes == index.Keys && nodes == index.Values
      requires LeavesOk(nodes, verbs, tmpls, leaves) && EntriesOk(index, verbs, tmpls, view.entries)
      requires p in index && index[p] == n && n in nodes && n.tmpl == Some(t)
      requires VerbsIn(nodes) == verbs && tmpls.Keys == nodes + leaves
      requires forall n' :: n' in nodes + leaves && n' != n ==> n'.tmpl == tmpls[n']
      modifies this`view
      ensures Held() && view == TrieView(old(view.nodes), old(view.entries)[Place(p, "") := t])
    {
      hide *;
      TreeParts(methods, index, KidsIn(nodes));
      EntriesOnNode(index, verbs, tmpls, leaves, view.entries, p, t);
      TmplsChanged(nodes + leaves, tmpls, n);
      view := TrieView(view.nodes, view.entries[Place(p, "") := t]);
      HeldParts();
    }

    ghost method LeafPut(n: Node, p: Path, t: Template, leaf: Node, verbs: Verbs, tmpls: Tmpls)
      requires TreeOk(methods, index, KidsIn(nodes)) && view.nodes == index.Keys && nodes == index.Values
      requires LeavesOk(nodes, verbs, tmpls, leaves) && EntriesOk(index, verbs, tmpls, view.entries)
      requires p in index && index[p] == n && n in nodes && t.verb != ""
      requires leaf !in nodes && leaf !in leaves && leaf.tmpl == Some(t)
      requires verbs.Keys == nodes && tmpls.Keys == nodes + leaves
      requires forall n' :: n' in nodes + leaves ==> n'.tmpl == tmpls[n']
      requires forall n' :: n' in nodes && n' != n ==> n'.verbs == verbs[n']
      requires n.verbs == verbs[n][t.verb := leaf]
      modifies this`leaves, this`view
      ensures Held() && view == TrieView(old(view.nodes), old(view.entries)[Place(p, t.verb) := t]) && leaves == old(leaves) + {leaf}
    {
      hide *;
      TreeParts(methods, index, KidsIn(nodes));
      EntriesOnLeaf(index, verbs, tmpls, leaves, view.entries, p, t.verb, leaf, t);
      TmplsMore(nodes, leaves, tmpls, leaf);
      VerbsChanged(nodes, verbs, n, t.verb, leaf);
      leaves := leaves + {leaf};
      view := TrieView(view.nodes, view.entries[Place(p, t.verb) := t]);
      HeldParts();
    }

    lemma HeldParts()
      ensures Held() <==>
                && LeavesOk(nodes, VerbsIn(nodes), TmplsIn(nodes + leaves), leaves)
                && EntriesOk(index, VerbsIn(nodes), TmplsIn(nodes + leaves), view.entries)
                && view.nodes == index.Keys && nodes == index.Values
    {
      hide LeavesOk, EntriesOk, VerbsIn, TmplsIn;
    }

    /** Adds a template under an HTTP method. */
    method Add(m: string, t: Template)
      requires Valid()
      modifies this, nodes
      ensures Valid() && view == TrieModel.Add(old(view), m, t)
      ensures fresh(nodes - old(nodes)) && fresh(leaves - old(leaves))
    {
      hide *;
      var n := Root(m);
      ghost var p, q, index0, view0 := Path(m, []), Path(m, []), index, view;
      Standing(p, n);
      assert t.segments[..0] == [];
      FlattenNothing();
      for i := 0 to |t.segments|
        invariant q in index && index[q] == n
        invariant Valid() && Reached(index0, view0, p, Flatten(t.segments[..i]), index, view, q, n)
        invariant fresh(nodes - old(nodes)) && leaves == old(leaves)
      {
        ghost var index1, view1, q1, n1 := index, view, q, n;
        n, q := AddSegment(n, q, t.segments[i]);
        ReachedFurther(index0, view0, p, Flatten(t.segments[..i]), index1, view1, q1, n1, KeyOf(t.segments[i]), index, view, q, n);
        FlattenAppend(t.segments[..i], t.segments[i]);
        assert t.segments[..i + 1] == t.segments[..i] + [t.segments[i]];
        ReachedEnd(index1, view1, q1, KeyOf(t.segments[i]), index, view, q, n);
      }
      assert t.segments[..|t.segments|] == t.segments;
      Snapshot(q);
      ghost var view1 := view;
      PutTemplate(n, q, t);
      AddedView(old(view), view0, m, t, index0, index, view1, q, n);
    }

    lemma Edge(p: Path, k: Key)
      requires Valid() && p in index
      ensures var n := index[p]; var c := Follow(n.literals, n.wildcard, n.multiWildcard, k);
              (c != null <==> Down(p, k) in view.nodes) && (c != null ==> Down(p, k) in index && index[Down(p, k)] == c)
    {
      var n := index[p];
      hide LeavesOk, EntriesOk, KidsOf;
      assert EdgeOk(index, KidsIn(nodes), p, k);
      KidAt(n.literals, n.wildcard, n.multiWildcard, k);
    }

    lemma TemplateHere(p: Path)
      requires Valid() && p in index
      ensures index[p].tmpl.Some? <==> Place(p, "") in view.entries
      ensures index[p].tmpl.Some? ==> index[p].tmpl == Some(view.entries[Place(p, "")])
    {
      hide TreeOk, LeavesOk;
      assert index[p] in nodes;
      SnapshotHeld(nodes, nodes + leaves);
      assert Place(p, "").path in index;
    }

    lemma TemplateUnder(p: Path, v: string)
      requires Valid() && p in index
      ensures v in index[p].verbs <==> v != "" && Place(p, v) in view.entries
      ensures v in index[p].verbs ==> index[p].verbs[v].tmpl == Some(view.entries[Place(p, v)])
    {
      hide TreeOk, OneOwner;
      assert index[p] in nodes;
      SnapshotHeld(nodes, nodes + leaves);
      assert Place(p, v).path in index;
    }

    /** dfsLeaf. */
    method DfsLeaf(n: Node, ghost p: Path, orig: string) returns (r: Option<Template>)
      requires Valid() && p in index && index[p] == n
      ensures r.Some? ==> LeafFinds(view, p, orig, r.value)
      ensures r.None? ==> forall t :: !LeafFinds(view, p, orig, t)
    {
      hide Valid;
      TemplateHere(p);
      if n.tmpl != None {
        return n.tmpl;
      }
      var todo := n.verbs.Keys;
      while todo != {}
        invariant todo <= n.verbs.Keys
        invariant forall v :: v in n.verbs.Keys - todo ==> !HasSuffix(orig, ":" + v)
        decreases todo
      {
        var verb :| verb in todo;
        TemplateUnder(p, verb);
        if HasSuffix(orig, ":" + verb) {
          return n.verbs[verb].tmpl;
        }
        todo := todo - {verb};
      }
      forall v ensures v in n.verbs <==> v != "" && Place(p, v) in view.entries {
        TemplateUnder(p, v);
      }
      return None;
    }

    /** The verb loop of dfs. */
    method DfsVerb(n: Node, ghost p: Path, last: string) returns (r: Option<Template>)
      requires Valid() && p in index && index[p] == n
      ensures r == VerbHit(view, p, last)
    {
      hide Valid;
      var component := last;
      var verbIdx := LastIndex(component, ':');
      while verbIdx != -1
        invariant verbIdx == LastIndex(component, ':')
        invariant VerbHit(view, p, last) == VerbHit(view, p, component)
        decreases |component|
      {
        var verb;
        verb, component := component[verbIdx + 1..], component[..verbIdx];
        Edge(p, KLiteral(component));
        if component in n.literals {
          var next := n.literals[component];
          TemplateUnder(Down(p, KLiteral(component)), verb);
          if verb in next.verbs {
            return next.verbs[verb].tmpl;
          }
        }
        verbIdx := LastIndex(component, ':');
      }
      return None;
    }

    /** dfs: at every component the literal, then a verb, then the wildcard, then "**", and never back. */
    method Dfs(n: Node, ghost p: Path, orig: string, path: string, last: bool) returns (r: Option<Template>)
      requires Valid() && p in index && index[p] == n
      ensures r.Some? ==> DfsFinds(view, p, orig, path, last, r.value)
      ensures r.None? ==> forall t :: !DfsFinds(view, p, orig, path, last, t)
      decreases if last then 0 else 1 + |path|
    {
      hide Valid, LeafFinds, VerbHit, IndexAny;
      if last {
        r := DfsLeaf(n, p, orig);
        return;
      }
      var component, rest := path, path;
      var slash := IndexAny(path, "/");
      if slash != -1 {
        component, rest := path[..slash], path[slash + 1..];
      }
      assert component == Component(path) && rest == Remainder(path) && slash == SlashAt(path);
      Edge(p, KLiteral(component));
      if component in n.literals {
        r := Dfs(n.literals[component], Down(p, KLiteral(component)), orig, rest, slash == -1);
        return;
      }
      if slash == -1 {
        r := DfsVerb(n, p, component);
        if r.Some? {
          return;
        }
      }
      Edge(p, KWildcard);
      if n.wildcard != null {
        r := Dfs(n.wildcard, Down(p, KWildcard), orig, rest, slash == -1);
        return;
      }
      Edge(p, KMulti);
      if n.multiWildcard != null {
        r := Dfs(n.multiWildcard, Down(p, KMulti), orig, "", true);
        assert forall t :: DfsFinds(view, Down(p, KMulti), orig, "", true, t) <==> LeafFinds(view, Down(p, KMulti), orig, t);
        return;
      }
      return None;
    }

    /** The template for a request path. Where nothing leads the search astray, it is a template of the method that
        matches the path and is not blocked, and there is none only when each that matches is blocked. */
    method Find(m: string, path: string) returns (r: Option<Template>)
      requires Valid()
      ensures r.Some? ==> Finds(view, m, path, r.value)
      ensures r.None? ==> forall t :: !Finds(view, m, path, t)
      ensures Placed(view) && Grounded(view) && Clear(view, LastComponent(path)) ==> Decided(view, m, path, r)
    {
      hide *;
      MethodKnown(m);
      FindsAt(view, m, path);
      var trimmed := TrimSlash(path);
      if m in methods {
        r := Dfs(methods[m], Path(m, []), trimmed, trimmed, false);
      } else {
        r := None;
      }
      if Placed(view) && Grounded(view) && Clear(view, LastComponent(path)) {
        FindDecides(view, m, path, r);
      }
    }

    lemma MethodKnown(m: string)
      requires Valid()
      ensures m in methods <==> Path(m, []) in view.nodes
      ensures m in methods ==> Path(m, []) in index && index[Path(m, [])] == methods[m]
    {
      hide EdgesOk, IsTree, LeavesOk, EntriesOk, KidsIn;
    }
  }

  lemma FindsAt(a: TrieView, m: string, path: string)
    ensures forall t :: Finds(a, m, path, t) <==>
              Path(m, []) in a.nodes && DfsFinds(a, Path(m, []), TrimSlash(path), TrimSlash(path), false, t)
  {
    hide DfsFinds, TrimSlash;
  }

  /** A trie filled with templates one after the other. */
  method Build(h: seq<Added>) returns (trie: Trie)
    ensures trie.Valid() && trie.view == TrieOf(h)
  {
    trie := new Trie();
    hide *;
    TrieOfNothing();
    assert h[..0] == [];
    for i := 0 to |h|
      invariant fresh(trie) && fresh(trie.nodes) && trie.Valid() && trie.view == TrieOf(h[..i])
    {
      TrieOfStep(h, i);
      trie.Add(h[i].httpMethod, h[i].tmpl);
    }
    assert h[..|h|] == h;
  }

  lemma TrieOfNothing()
    ensures TrieOf([]) == EMPTY
  {
  }

  lemma TrieOfStep(h: seq<Added>, i: nat)
    requires i < |h|
    ensures TrieOf(h[..i + 1]) == TrieModel.Add(TrieOf(h[..i]), h[i].httpMethod, h[i].tmpl)
  {
    assert h[..i + 1][..i] == h[..i];
  }

  /** From `p` the keys lead to the node `r` at `q`; nodes were added on the way only, and no template moved. */
  ghost predicate Reached(index0: Index, view0: TrieView, p: Path, keys: seq<Key>, index: Index, view: TrieView, q: Path, r: Node) {
    && q == Path(p.httpMethod, p.keys + keys)
    && q in index && index[q] == r
    && (forall p' :: p' in index0 ==> p' in index && index[p'] == index0[p'])
    && view == TrieView(view0.nodes + Ancestors(q.httpMethod, q.keys), view0.entries)
  }

  lemma ReachedEnd(index0: Index, view0: TrieView, p: Path, keys: seq<Key>, index: Index, view: TrieView, q: Path, r: Node)
    requires Reached(index0, view0, p, keys, index, view, q, r)
    ensures q in index && index[q] == r
  {
  }

  lemma KidsChanged(known: set<Node>, kids: Kids, n: Node, k: Key, r: Node)
    requires n in known && kids.Keys == known
    requires forall n' :: n' in known && n' != n ==> n'.Kids() == kids[n']
    requires n.Kids() == kids[n][k := r]
    ensures KidsIn(known) == kids[n := kids[n][k := r]]
  {
    hide KidsOf;
  }

  lemma FlattenNothing()
    ensures Flatten([]) == []
  {
  }

  lemma KeyOfParts(s: Segment)
    ensures s.Wildcard? ==> KeyOf(s) == [KWildcard]
    ensures s.MultiWildcard? ==> KeyOf(s) == [KMulti]
    ensures s.Literal? ==> KeyOf(s) == [KLiteral(s.lit)]
    ensures s.Variable? ==> KeyOf(s) == Flatten(s.segments)
  {
    hide Flatten;
  }

  lemma TreeParts(roots: map<string, Node>, index: Index, kids: Kids)
    ensures TreeOk(roots, index, kids) <==> RootsOk(roots, index) && EdgesOk(index, kids) && IsTree(index)
  {
  }

  lemma StandingStill(index: Index, view: TrieView, p: Path, n: Node)
    requires p in index && index[p] == n && Ancestors(p.httpMethod, p.keys) <= view.nodes
    ensures Reached(index, view, p, [], index, view, p, n)
  {
    assert p.keys + [] == p.keys;
    assert view.nodes + Ancestors(p.httpMethod, p.keys) == view.nodes;
  }

  lemma StepReached(index0: Index, view0: TrieView, p: Path, k: Key, index: Index, view: TrieView, r: Node)
    requires Ancestors(p.httpMethod, p.keys) <= view0.nodes
    requires index == index0[Down(p, k) := r] && (Down(p, k) in index0 ==> index == index0)
    requires view == TrieView(view0.nodes + {Down(p, k)}, view0.entries)
    ensures Reached(index0, view0, p, [k], index, view, Down(p, k), r)
  {
    var q := Down(p, k);
    assert q.keys[..|q.keys| - 1] == p.keys;
    assert Ancestors(q.httpMethod, q.keys) == Ancestors(p.httpMethod, p.keys) + {q};
    assert view0.nodes + Ancestors(q.httpMethod, q.keys) == view0.nodes + {q};
  }

  lemma ReachedFurther(index0: Index, view0: TrieView, p: Path, keys: seq<Key>, index1: Index, view1: TrieView, q1: Path, r1: Node,
                       more: seq<Key>, index: Index, view: TrieView, q: Path, r: Node)
    requires Reached(index0, view0, p, keys, index1, view1, q1, r1) && Reached(index1, view1, q1, more, index, view, q, r)
    ensures Reached(index0, view0, p, keys + more, index, view, q, r)
  {
    assert p.keys + keys + more == p.keys + (keys + more);
    AncestorsGrow(p.httpMethod, q1.keys, more);
    var a, b := Ancestors(q1.httpMethod, q1.keys), Ancestors(q.httpMethod, q.keys);
    assert view0.nodes + a + b == view0.nodes + b;
  }

  lemma {:induction false} AncestorsKnown(index: Index, p: Path)
    requires IsTree(index) && p in index
    ensures Ancestors(p.httpMethod, p.keys) <= index.Keys
    decreases |p.keys|
  {
    if p.keys != [] {
      var n := |p.keys| - 1;
      var front := Path(p.httpMethod, p.keys[..n]);
      assert p.keys == p.keys[..n] + [p.keys[n]];
      assert p == Down(front, p.keys[n]);
      AncestorsKnown(index, front);
    }
  }

  lemma SnapshotHeld(nodes: set<Node>, all: set<Node>)
    ensures VerbsIn(nodes).Keys == nodes && forall n :: n in nodes ==> n.verbs == VerbsIn(nodes)[n]
    ensures TmplsIn(all).Keys == all && forall n :: n in all ==> n.tmpl == TmplsIn(all)[n]
  {
  }

  lemma TmplsChanged(all: set<Node>, tmpls: Tmpls, n: Node)
    requires n in all && tmpls.Keys == all && forall n' :: n' in all && n' != n ==> n'.tmpl == tmpls[n']
    ensures TmplsIn(all) == tmpls[n := n.tmpl]
  {
  }

  lemma TmplsMore(nodes: set<Node>, leaves: set<Node>, tmpls: Tmpls, leaf: Node)
    requires tmpls.Keys == nodes + leaves && forall n :: n in nodes + leaves ==> n.tmpl == tmpls[n]
    ensures TmplsIn(nodes + (leaves + {leaf})) == tmpls[leaf := leaf.tmpl]
  {
  }

  lemma VerbsChanged(nodes: set<Node>, verbs: Verbs, n: Node, v: string, leaf: Node)
    requires n in nodes && verbs.Keys == nodes && n.verbs == verbs[n][v := leaf]
    requires forall n' :: n' in nodes && n' != n ==> n'.verbs == verbs[n']
    ensures VerbsIn(nodes) == verbs[n := verbs[n][v := leaf]]
  {
  }

  lemma AddedView(view: TrieView, view0: TrieView, m: string, t: Template, index0: Index, index: Index, view1: TrieView, q: Path, n: Node)
    requires view0 == TrieView(view.nodes + {Path(m, [])}, view.entries)
    requires Reached(index0, view0, Path(m, []), Flatten(t.segments), index, view1, q, n)
    ensures TrieView(view1.nodes, view1.entries[Place(q, t.verb) := t]) == TrieModel.Add(view, m, t)
  {
    hide Flatten;
    var keys := Flatten(t.segments);
    assert [] + keys == keys;
    AncestorsArePrefixes(m, keys, Path(m, []));
    assert keys[..0] == [];
    assert view.nodes + {Path(m, [])} + Ancestors(m, keys) == view.nodes + Ancestors(m, keys);
  }

  lemma SameEdge(kids: Kids, n: Node, k: Key, r: Node)
    requires n in kids && k in kids[n] && kids[n][k] == r
    ensures kids[n := kids[n][k := r]] == kids
  {
    assert kids[n][k := r] == kids[n];
  }

  lemma OneMore(nodes: set<Node>, r: Node, leaves: set<Node>)
    requires r !in nodes && r !in leaves
    ensures KidsIn(nodes + {r}) == KidsIn(nodes)[r := r.Kids()]
    ensures VerbsIn(nodes + {r}) == VerbsIn(nodes)[r := r.verbs]
    ensures TmplsIn(nodes + {r} + leaves) == TmplsIn(nodes + leaves)[r := r.tmpl]
  {
    hide KidsOf;
  }
}
