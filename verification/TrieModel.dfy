/** The routing trie of internal/httprule as a value: which paths have nodes, which template sits where,
    and which templates Find may return. */
module TrieModel {
  import opened Text
  import opened HttpRule

  /** The edges of the trie. */
  datatype Key = KLiteral(lit: string) | KWildcard | KMulti

  function KeyOf(s: Segment): seq<Key> {
    match s
    case Wildcard => [KWildcard]
    case MultiWildcard => [KMulti]
    case Literal(l) => [KLiteral(l)]
    case Variable(_, body) => Flatten(body)
  }

  /** The edges a template follows: variables count as their bodies. */
  function Flatten(ss: seq<Segment>): seq<Key> {
    if ss == [] then [] else KeyOf(ss[0]) + Flatten(ss[1..])
  }

  /** A node: the HTTP method and the edges from its root. */
  datatype Path = Path(httpMethod: string, keys: seq<Key>)

  /** A template's place: a node and a verb, the empty verb being the node itself. */
  datatype Place = Place(path: Path, verb: string)

  datatype TrieView = TrieView(nodes: set<Path>, entries: map<Place, Template>)

  const EMPTY := TrieView({}, map[])

  function Down(p: Path, k: Key): Path {
    Path(p.httpMethod, p.keys + [k])
  }

  /** The nodes on the way from the root of the method along `keys`. */
  function Ancestors(m: string, keys: seq<Key>): set<Path>
    decreases |keys|
  {
    if keys == [] then {Path(m, [])} else Ancestors(m, keys[..|keys| - 1]) + {Path(m, keys)}
  }

  function PlaceOf(m: string, t: Template): Place {
    Place(Path(m, Flatten(t.segments)), t.verb)
  }

  function Add(a: TrieView, m: string, t: Template): TrieView {
    TrieView(a.nodes + Ancestors(m, Flatten(t.segments)), a.entries[PlaceOf(m, t) := t])
  }

  // ---- histories -----------------------------------------------------------------------

  datatype Added = Added(httpMethod: string, tmpl: Template)

  function TrieOf(h: seq<Added>): TrieView
    decreases |h|
  {
    if h == [] then EMPTY else Add(TrieOf(h[..|h| - 1]), h[|h| - 1].httpMethod, h[|h| - 1].tmpl)
  }

  /** The template added last at a place. */
  function LastAt(h: seq<Added>, at: Place): Option<Template>
    decreases |h|
  {
    if h == [] then None
    else if PlaceOf(h[|h| - 1].httpMethod, h[|h| - 1].tmpl) == at then Some(h[|h| - 1].tmpl)
    else LastAt(h[..|h| - 1], at)
  }

  predicate IsPrefix(a: seq<Key>, b: seq<Key>) {
    |a| <= |b| && b[..|a|] == a
  }

  lemma {:induction false} AncestorsArePrefixes(m: string, keys: seq<Key>, p: Path)
    ensures p in Ancestors(m, keys) <==> p.httpMethod == m && IsPrefix(p.keys, keys)
    decreases |keys|
  {
    if keys != [] {
      var front := keys[..|keys| - 1];
      AncestorsArePrefixes(m, front, p);
      if |p.keys| < |keys| {
        assert front[..|p.keys|] == keys[..|p.keys|];
      }
      assert keys[..|keys|] == keys;
    } else {
      assert keys[..0] == [];
    }
  }

  /** A trie holds at each place the template added there last, and a node for every prefix of an added path. */
  lemma {:induction false} HistoryDetermines(h: seq<Added>, at: Place, p: Path)
    ensures at in TrieOf(h).entries <==> LastAt(h, at).Some?
    ensures at in TrieOf(h).entries ==> LastAt(h, at) == Some(TrieOf(h).entries[at])
    ensures p in TrieOf(h).nodes <==>
              exists i :: 0 <= i < |h| && h[i].httpMethod == p.httpMethod && IsPrefix(p.keys, Flatten(h[i].tmpl.segments))
    decreases |h|
  {
    if h != [] {
      var n := |h| - 1;
      var h' := h[..n];
      hide Flatten, IsPrefix;
      HistoryDetermines(h', at, p);
      AncestorsArePrefixes(h[n].httpMethod, Flatten(h[n].tmpl.segments), p);
      assert forall i :: 0 <= i < n ==> h'[i] == h[i];
    }
  }

  // ---- finding -------------------------------------------------------------------------

  /** What dfsLeaf may return at node `p`: the node's own template, else one under any verb the path ends with. */
  ghost predicate LeafFinds(a: TrieView, p: Path, orig: string, t: Template) {
    if Place(p, "") in a.entries then t == a.entries[Place(p, "")]
    else exists v :: v != "" && Place(p, v) in a.entries && HasSuffix(orig, ":" + v) && t == a.entries[Place(p, v)]
  }

  /** The verb loop of dfs over the last component. */
  function VerbHit(a: TrieView, p: Path, component: string): Option<Template>
    decreases |component|
  {
    var idx := LastIndex(component, ':');
    if idx == -1 then None
    else
      var verb, left := component[idx + 1..], component[..idx];
      var at := Place(Down(p, KLiteral(left)), verb);
      if Down(p, KLiteral(left)) in a.nodes && verb != "" && at in a.entries then Some(a.entries[at])
      else VerbHit(a, p, left)
  }

  function SlashAt(path: string): int {
    IndexAny(path, "/")
  }

  /** The next component of a path that is not used up. */
  function Component(path: string): string {
    if SlashAt(path) < 0 then path else path[..SlashAt(path)]
  }

  /** What is left behind the next component; a last component stays. */
  function Remainder(path: string): string {
    if SlashAt(path) < 0 then path else path[SlashAt(path) + 1..]
  }

  /** What dfs may return from node `p` with `path` left. */
  ghost predicate DfsFinds(a: TrieView, p: Path, orig: string, path: string, last: bool, t: Template)
    decreases if last then 0 else 1 + |path|
  {
    if last then LeafFinds(a, p, orig, t)
    else
      var component := Component(path);
      if Down(p, KLiteral(component)) in a.nodes then
        DfsFinds(a, Down(p, KLiteral(component)), orig, Remainder(path), SlashAt(path) == -1, t)
      else if SlashAt(path) == -1 && VerbHit(a, p, component).Some? then
        t == VerbHit(a, p, component).value
      else if Down(p, KWildcard) in a.nodes then
        DfsFinds(a, Down(p, KWildcard), orig, Remainder(path), SlashAt(path) == -1, t)
      else
        Down(p, KMulti) in a.nodes && LeafFinds(a, Down(p, KMulti), orig, t)
  }

  function TrimSlash(path: string): string {
    if path != "" && path[0] == '/' then path[1..] else path
  }

  /** What Find may return. */
  ghost predicate Finds(a: TrieView, m: string, path: string, t: Template) {
    Path(m, []) in a.nodes && DfsFinds(a, Path(m, []), TrimSlash(path), TrimSlash(path), false, t)
  }
}
