/** The nodes of the routing trie, and the linked structure they form as a value. */
module TrieIndex {
  import opened Text
  import opened HttpRule
  import opened TrieModel

  class Node {
    var tmpl: Option<Template>
    var literals: map<string, Node>
    var verbs: map<string, Node>
    var wildcard: Node?
    var multiWildcard: Node?

    constructor ()
      ensures tmpl == None && verbs == map[] && Kids() == map[]
    {
      tmpl, literals, verbs, wildcard, multiWildcard := None, map[], map[], null, null;
    }

    constructor Leaf(t: Template)
      ensures tmpl == Some(t)
    {
      tmpl, literals, verbs, wildcard, multiWildcard := Some(t), map[], map[], null, null;
    }

    /** The edges out of this node. */
    ghost function Kids(): map<Key, Node>
      reads this`literals, this`wildcard, this`multiWildcard
    {
      KidsOf(literals, wildcard, multiWildcard)
    }

    /** The node behind an edge, made when there is none. */
    method AddLiteral(lit: string) returns (r: Node)
      modifies this`literals
      ensures Kids() == old(Kids())[KLiteral(lit) := r]
      ensures if KLiteral(lit) in old(Kids()) then r == old(Kids())[KLiteral(lit)]
              else fresh(r) && r.tmpl == None && r.verbs == map[] && r.Kids() == map[]
    {
      hide KidsOf;
      KidAt(literals, wildcard, multiWildcard, KLiteral(lit));
      if lit !in literals {
        var n := new Node();
        LiteralKid(literals, wildcard, multiWildcard, lit, n);
        literals := literals[lit := n];
      }
      return literals[lit];
    }

    method AddWildcard() returns (r: Node)
      modifies this`wildcard
      ensures Kids() == old(Kids())[KWildcard := r]
      ensures if KWildcard in old(Kids()) then r == old(Kids())[KWildcard]
              else fresh(r) && r.tmpl == None && r.verbs == map[] && r.Kids() == map[]
    {
      hide KidsOf;
      KidAt(literals, wildcard, multiWildcard, KWildcard);
      if wildcard == null {
        var n := new Node();
        WildcardKid(literals, multiWildcard, n);
        wildcard := n;
      }
      return wildcard;
    }

    method AddMultiWildcard() returns (r: Node)
      modifies this`multiWildcard
      ensures Kids() == old(Kids())[KMulti := r]
      ensures if KMulti in old(Kids()) then r == old(Kids())[KMulti]
              else fresh(r) && r.tmpl == None && r.verbs == map[] && r.Kids() == map[]
    {
      hide KidsOf;
      KidAt(literals, wildcard, multiWildcard, KMulti);
      if multiWildcard == null {
        var n := new Node();
        MultiKid(literals, wildcard, n);
        multiWildcard := n;
      }
      return multiWildcard;
    }

    /** Puts the template on this node, or on a new leaf under its verb. */
    method AddVerb(t: Template) returns (ghost leaf: Node)
      modifies this`tmpl, this`verbs
      ensures t.verb == "" ==> leaf == this && tmpl == Some(t) && verbs == old(verbs)
      ensures t.verb != "" ==> fresh(leaf) && leaf.tmpl == Some(t) && tmpl == old(tmpl) && verbs == old(verbs)[t.verb := leaf]
    {
      if t.verb == "" {
        tmpl := Some(t);
        return this;
      }
      var n := new Node.Leaf(t);
      verbs := verbs[t.verb := n];
      return n;
    }
  }

  ghost function KidsOf(literals: map<string, Node>, wild: Node?, multi: Node?): map<Key, Node> {
    (map l | l in literals :: KLiteral(l) := literals[l])
    + (if wild == null then map[] else map[KWildcard := wild])
    + (if multi == null then map[] else map[KMulti := multi])
  }

  function Follow(literals: map<string, Node>, wild: Node?, multi: Node?, k: Key): Node? {
    match k
    case KLiteral(l) => if l in literals then literals[l] else null
    case KWildcard => wild
    case KMulti => multi
  }

  lemma KidAt(literals: map<string, Node>, wild: Node?, multi: Node?, k: Key)
    ensures var kids := KidsOf(literals, wild, multi);
            (k in kids <==> Follow(literals, wild, multi, k) != null)
            && (k in kids ==> kids[k] == Follow(literals, wild, multi, k))
  {
  }

  lemma SameKids(literals: map<string, Node>, wild: Node?, multi: Node?, kids: map<Key, Node>)
    requires forall k :: k in kids <==> Follow(literals, wild, multi, k) != null
    requires forall k :: k in kids ==> kids[k] == Follow(literals, wild, multi, k)
    ensures KidsOf(literals, wild, multi) == kids
  {
    hide KidsOf, Follow;
    forall k ensures k in KidsOf(literals, wild, multi) <==> k in kids
             ensures k in kids ==> KidsOf(literals, wild, multi)[k] == kids[k]
    {
      KidAt(literals, wild, multi, k);
    }
  }

  lemma LiteralKid(literals: map<string, Node>, wild: Node?, multi: Node?, l: string, n: Node)
    ensures KidsOf(literals[l := n], wild, multi) == KidsOf(literals, wild, multi)[KLiteral(l) := n]
  {
    hide KidsOf;
    forall k { KidAt(literals, wild, multi, k); }
    SameKids(literals[l := n], wild, multi, KidsOf(literals, wild, multi)[KLiteral(l) := n]);
  }

  lemma WildcardKid(literals: map<string, Node>, multi: Node?, n: Node)
    ensures KidsOf(literals, n, multi) == KidsOf(literals, null, multi)[KWildcard := n]
  {
    hide KidsOf;
    forall k { KidAt(literals, null, multi, k); }
    SameKids(literals, n, multi, KidsOf(literals, null, multi)[KWildcard := n]);
  }

  lemma MultiKid(literals: map<string, Node>, wild: Node?, n: Node)
    ensures KidsOf(literals, wild, n) == KidsOf(literals, wild, null)[KMulti := n]
  {
    hide KidsOf;
    forall k { KidAt(literals, wild, null, k); }
    SameKids(literals, wild, n, KidsOf(literals, wild, null)[KMulti := n]);
  }

  type Index = map<Path, Node>
  type Kids = map<Node, map<Key, Node>>
  type Verbs = map<Node, map<string, Node>>
  type Tmpls = map<Node, Option<Template>>

  lemma DownIsOne(p: Path, k: Key)
    ensures Down(p, k).keys != []
    ensures forall q, l :: Down(q, l) == Down(p, k) ==> q == p && l == k
  {
    forall q, l | Down(q, l) == Down(p, k) ensures q == p && l == k {
      assert Down(p, k).keys[|p.keys|] == k && Down(q, l).keys[|q.keys|] == l;
      assert Down(p, k).keys[..|p.keys|] == p.keys && Down(q, l).keys[..|q.keys|] == q.keys;
    }
  }

  /** Every root is its method's empty path. */
  ghost predicate RootsOk(roots: map<string, Node>, index: Index) {
    && (forall m :: m in roots <==> Path(m, []) in index)
    && (forall m :: m in roots ==> index[Path(m, [])] == roots[m])
  }

  /** An edge leads to the node one key further. */
  ghost predicate EdgeOk(index: Index, kids: Kids, p: Path, k: Key) {
    p in index ==>
      && index[p] in kids
      && (k in kids[index[p]] <==> Down(p, k) in index)
      && (k in kids[index[p]] ==> index[Down(p, k)] == kids[index[p]][k])
  }

  ghost predicate EdgesOk(index: Index, kids: Kids) {
    forall p, k :: EdgeOk(index, kids, p, k)
  }

  /** The nodes form a tree: all ancestors are there, and no node is reached along two paths. */
  ghost predicate IsTree(index: Index) {
    && (forall p, k :: Down(p, k) in index ==> p in index)
    && (forall p, q :: p in index && q in index && index[p] == index[q] ==> p == q)
  }

  ghost predicate TreeOk(roots: map<string, Node>, index: Index, kids: Kids) {
    RootsOk(roots, index) && EdgesOk(index, kids) && IsTree(index)
  }

  lemma Grown(roots: map<string, Node>, index: Index, kids: Kids, p: Path, k: Key, r: Node)
    requires TreeOk(roots, index, kids) && p in index && r !in index.Values
    requires index[p] in kids && k !in kids[index[p]]
    ensures Down(p, k) !in index
    ensures TreeOk(roots, index[Down(p, k) := r], kids[index[p] := kids[index[p]][k := r]][r := map[]])
  {
    var q := Down(p, k);
    var index', kids' := index[q := r], kids[index[p] := kids[index[p]][k := r]][r := map[]];
    DownIsOne(p, k);
    assert EdgeOk(index, kids, p, k);
    forall p', k' ensures EdgeOk(index', kids', p', k') {
      assert EdgeOk(index, kids, p', k');
      GrownEdge(index, kids, p, k, r, p', k');
    }
    hide EdgeOk;
    NewNode(index, r);
  }

  lemma NewNode(index: Index, r: Node)
    requires r !in index.Values
    ensures forall p :: p in index ==> index[p] != r
  {
    assert forall p :: p in index ==> index[p] in index.Values;
  }

  lemma GrownEdge(index: Index, kids: Kids, p: Path, k: Key, r: Node, p': Path, k': Key)
    requires EdgeOk(index, kids, p', k') && EdgeOk(index, kids, p, k)
    requires IsTree(index) && p in index && k !in kids[index[p]] && r !in index.Values
    ensures EdgeOk(index[Down(p, k) := r], kids[index[p] := kids[index[p]][k := r]][r := map[]], p', k')
  {
    NewNode(index, r);
    DownIsOne(p', k');
    DownIsOne(p, k);
  }

  lemma Rooted(roots: map<string, Node>, index: Index, kids: Kids, m: string, r: Node)
    requires TreeOk(roots, index, kids) && m !in roots && r !in index.Values
    ensures Path(m, []) !in index
    ensures TreeOk(roots[m := r], index[Path(m, []) := r], kids[r := map[]])
  {
    RootedTree(roots, index, m, r);
    hide IsTree, RootsOk;
    var index', kids' := index[Path(m, []) := r], kids[r := map[]];
    forall p', k' ensures EdgeOk(index', kids', p', k') {
      assert EdgeOk(index, kids, p', k');
      RootedEdge(index, kids, m, r, p', k');
    }
    hide EdgeOk;
  }

  lemma RootedTree(roots: map<string, Node>, index: Index, m: string, r: Node)
    requires RootsOk(roots, index) && IsTree(index) && m !in roots && r !in index.Values
    ensures Path(m, []) !in index
    ensures RootsOk(roots[m := r], index[Path(m, []) := r]) && IsTree(index[Path(m, []) := r])
  {
    NewNode(index, r);
    forall p, k ensures Down(p, k) != Path(m, []) {
      DownIsOne(p, k);
    }
  }

  lemma RootedEdge(index: Index, kids: Kids, m: string, r: Node, p': Path, k': Key)
    requires EdgeOk(index, kids, p', k')
    requires IsTree(index) && Path(m, []) !in index && r !in index.Values
    ensures EdgeOk(index[Path(m, []) := r], kids[r := map[]], p', k')
  {
    NewNode(index, r);
    DownIsOne(p', k');
  }

  /** Verb leaves hang on one node each and are no nodes of the tree. */
  ghost predicate LeavesOk(nodes: set<Node>, verbs: Verbs, tmpls: Tmpls, leaves: set<Node>) {
    && nodes !! leaves && verbs.Keys == nodes && tmpls.Keys == nodes + leaves
    && (forall n, v :: n in verbs && v in verbs[n] ==> v != "" && verbs[n][v] in leaves && tmpls[verbs[n][v]].Some?)
    && OneOwner(verbs)
  }

  ghost predicate OneOwner(verbs: Verbs) {
    forall n, v, n', v' :: n in verbs && v in verbs[n] && n' in verbs && v' in verbs[n'] && verbs[n][v] == verbs[n'][v']
                           ==> n == n' && v == v'
  }

  /** The template a node holds for a verb. */
  ghost function TemplateAt(n: Node, v: string, verbs: Verbs, tmpls: Tmpls): Option<Template> {
    if v == "" then (if n in tmpls then tmpls[n] else None)
    else if n in verbs && v in verbs[n] && verbs[n][v] in tmpls then tmpls[verbs[n][v]]
    else None
  }

  ghost predicate EntriesOk(index: Index, verbs: Verbs, tmpls: Tmpls, entries: map<Place, Template>) {
    && (forall at :: at in entries <==> at.path in index && TemplateAt(index[at.path], at.verb, verbs, tmpls).Some?)
    && (forall at :: at in entries && at.path in index ==> TemplateAt(index[at.path], at.verb, verbs, tmpls) == Some(entries[at]))
  }

  /** A new node without templates. */
  lemma EntriesGrown(index: Index, verbs: Verbs, tmpls: Tmpls, leaves: set<Node>, entries: map<Place, Template>, q: Path, r: Node)
    requires LeavesOk(index.Values, verbs, tmpls, leaves) && EntriesOk(index, verbs, tmpls, entries)
    requires q !in index && r !in index.Values && r !in leaves
    ensures LeavesOk(index[q := r].Values, verbs[r := map[]], tmpls[r := None], leaves)
    ensures EntriesOk(index[q := r], verbs[r := map[]], tmpls[r := None], entries)
  {
    hide *;
    ValuesGrown(index, q, r);
    LeavesWith(index.Values, verbs, tmpls, leaves, r);
    EntriesWith(index, verbs, tmpls, leaves, entries, q, r);
  }

  lemma ValuesGrown(index: Index, q: Path, r: Node)
    requires q !in index
    ensures index[q := r].Values == index.Values + {r}
  {
    var index' := index[q := r];
    assert r == index'[q];
    forall n | n in index.Values ensures n in index'.Values {
      var p :| p in index && index[p] == n;
      assert index'[p] == n;
    }
  }

  lemma LeavesWith(nodes: set<Node>, verbs: Verbs, tmpls: Tmpls, leaves: set<Node>, r: Node)
    requires LeavesOk(nodes, verbs, tmpls, leaves) && r !in nodes && r !in leaves
    ensures LeavesOk(nodes + {r}, verbs[r := map[]], tmpls[r := None], leaves)
  {
  }

  lemma EntriesWith(index: Index, verbs: Verbs, tmpls: Tmpls, leaves: set<Node>, entries: map<Place, Template>, q: Path, r: Node)
    requires LeavesOk(index.Values, verbs, tmpls, leaves) && EntriesOk(index, verbs, tmpls, entries)
    requires q !in index && r !in index.Values && r !in leaves
    ensures EntriesOk(index[q := r], verbs[r := map[]], tmpls[r := None], entries)
  {
    hide OneOwner;
    NewNode(index, r);
    var index' := index[q := r];
    forall at: Place | at.path in index
      ensures TemplateAt(index'[at.path], at.verb, verbs[r := map[]], tmpls[r := None]) ==
                TemplateAt(index[at.path], at.verb, verbs, tmpls)
    {
      SameAt(index.Values, index[at.path], at.verb, verbs, tmpls, leaves, r);
    }
  }

  lemma SameAt(nodes: set<Node>, n: Node, v: string, verbs: Verbs, tmpls: Tmpls, leaves: set<Node>, r: Node)
    requires LeavesOk(nodes, verbs, tmpls, leaves) && n in nodes && r !in nodes && r !in leaves
    ensures TemplateAt(n, v, verbs[r := map[]], tmpls[r := None]) == TemplateAt(n, v, verbs, tmpls)
  {
    hide OneOwner;
  }

  /** A template put on a node. */
  lemma EntriesOnNode(index: Index, verbs: Verbs, tmpls: Tmpls, leaves: set<Node>, entries: map<Place, Template>, p: Path, t: Template)
    requires IsTree(index) && p in index
    requires LeavesOk(index.Values, verbs, tmpls, leaves) && EntriesOk(index, verbs, tmpls, entries)
    ensures LeavesOk(index.Values, verbs, tmpls[index[p] := Some(t)], leaves)
    ensures EntriesOk(index, verbs, tmpls[index[p] := Some(t)], entries[Place(p, "") := t])
  {
    var tmpls' := tmpls[index[p] := Some(t)];
    assert forall q :: q in index ==> index[q] in index.Values;
    forall at: Place | at.path in index
      ensures TemplateAt(index[at.path], at.verb, verbs, tmpls') ==
                if at == Place(p, "") then Some(t) else TemplateAt(index[at.path], at.verb, verbs, tmpls)
    {
    }
  }

  /** A template put on a new leaf under a verb of a node. */
  lemma EntriesOnLeaf(index: Index, verbs: Verbs, tmpls: Tmpls, leaves: set<Node>, entries: map<Place, Template>,
                      p: Path, v: string, leaf: Node, t: Template)
    requires IsTree(index) && p in index && v != "" && leaf !in leaves && leaf !in index.Values
    requires LeavesOk(index.Values, verbs, tmpls, leaves) && EntriesOk(index, verbs, tmpls, entries)
    ensures index[p] in verbs
    ensures var verbs', tmpls' := verbs[index[p] := verbs[index[p]][v := leaf]], tmpls[leaf := Some(t)];
            && LeavesOk(index.Values, verbs', tmpls', leaves + {leaf})
            && EntriesOk(index, verbs', tmpls', entries[Place(p, v) := t])
  {
    assert index[p] in index.Values;
    LeavesGrown(index.Values, verbs, tmpls, leaves, index[p], v, leaf, t);
    EntriesUnder(index, verbs, tmpls, leaves, entries, p, v, leaf, t);
  }

  lemma EntriesUnder(index: Index, verbs: Verbs, tmpls: Tmpls, leaves: set<Node>, entries: map<Place, Template>,
                     p: Path, v: string, leaf: Node, t: Template)
    requires IsTree(index) && p in index && v != "" && leaf !in leaves && leaf !in index.Values && index[p] in verbs
    requires LeavesOk(index.Values, verbs, tmpls, leaves) && EntriesOk(index, verbs, tmpls, entries)
    ensures EntriesOk(index, verbs[index[p] := verbs[index[p]][v := leaf]], tmpls[leaf := Some(t)], entries[Place(p, v) := t])
  {
    hide OneOwner;
    assert forall q :: q in index ==> index[q] in index.Values;
    var verbs', tmpls' := verbs[index[p] := verbs[index[p]][v := leaf]], tmpls[leaf := Some(t)];
    forall at: Place | at.path in index
      ensures TemplateAt(index[at.path], at.verb, verbs', tmpls') ==
                if at == Place(p, v) then Some(t) else TemplateAt(index[at.path], at.verb, verbs, tmpls)
    {
      AtUnder(index.Values, verbs, tmpls, leaves, index[p], v, leaf, t, index[at.path], at.verb);
    }
  }

  lemma AtUnder(nodes: set<Node>, verbs: Verbs, tmpls: Tmpls, leaves: set<Node>, n: Node, v: string, leaf: Node, t: Template,
                m: Node, w: string)
    requires LeavesOk(nodes, verbs, tmpls, leaves) && n in nodes && m in nodes && v != "" && leaf !in nodes && leaf !in leaves
    ensures TemplateAt(m, w, verbs[n := verbs[n][v := leaf]], tmpls[leaf := Some(t)]) ==
              if m == n && w == v then Some(t) else TemplateAt(m, w, verbs, tmpls)
  {
    hide OneOwner;
  }

  lemma LeavesGrown(nodes: set<Node>, verbs: Verbs, tmpls: Tmpls, leaves: set<Node>, n: Node, v: string, leaf: Node, t: Template)
    requires LeavesOk(nodes, verbs, tmpls, leaves) && n in nodes && v != "" && leaf !in nodes && leaf !in leaves
    ensures LeavesOk(nodes, verbs[n := verbs[n][v := leaf]], tmpls[leaf := Some(t)], leaves + {leaf})
  {
  }
}
