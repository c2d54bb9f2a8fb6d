/** When parsed templates can make Find return one that does not match: exactly for the paths that are not safe. */
module TrieMisled {
  import opened Text
  import opened PathChars
  import opened HttpRule
  import opened HttpRuleSound
  import opened HttpRuleShape
  import opened HttpRuleMade
  import opened TrieModel
  import opened TrieFind
  import opened TrieFound
  import opened TrieParsed

  // ---- the trie of one decoy ------------------------------------------------------------

  function Wilds(n: nat): seq<Key> {
    seq(n, _ => KWildcard)
  }

  lemma {:induction false} FlattenDecoy(n: nat, s: Segment, lit: string)
    requires KeyOf(s) == [KLiteral(lit)]
    ensures Flatten(Wildcards(n) + [s]) == Wilds(n) + [KLiteral(lit)]
    decreases n
  {
    var ss := Wildcards(n) + [s];
    if n == 0 {
      assert ss == [s] && ss[1..] == [];
    } else {
      assert ss[0] == Wildcard && ss[1..] == Wildcards(n - 1) + [s];
      FlattenDecoy(n - 1, s, lit);
      assert [KWildcard] + (Wilds(n - 1) + [KLiteral(lit)]) == Wilds(n) + [KLiteral(lit)];
    }
  }

  /** The trie that holds the decoy alone. */
  ghost predicate HoldsOnly(a: TrieView, m: string, n: nat, lit: string, t: Template) {
    && (forall p :: p in a.nodes <==> p.httpMethod == m && IsPrefix(p.keys, Wilds(n) + [KLiteral(lit)]))
    && a.entries == map[Place(Path(m, Wilds(n) + [KLiteral(lit)]), t.verb) := t]
  }

  lemma DecoyTrie(m: string, n: nat, s: Segment, lit: string, t: Template)
    requires t.segments == Wildcards(n) + [s] && KeyOf(s) == [KLiteral(lit)]
    ensures HoldsOnly(TrieOf([Added(m, t)]), m, n, lit, t)
  {
    var h := [Added(m, t)];
    var keys := Wilds(n) + [KLiteral(lit)];
    FlattenDecoy(n, s, lit);
    hide Flatten, Wilds, Wildcards, KeyOf;
    assert h[..0] == [];
    assert TrieOf(h) == Add(EMPTY, m, t);
    forall p ensures p in Ancestors(m, keys) <==> p.httpMethod == m && IsPrefix(p.keys, keys) {
      AncestorsArePrefixes(m, keys, p);
    }
  }

  lemma DecoyNodes(a: TrieView, m: string, n: nat, lit: string, t: Template, k: nat, c: string)
    requires HoldsOnly(a, m, n, lit, t) && k <= n
    ensures Down(Path(m, Wilds(k)), KLiteral(c)) in a.nodes <==> k == n && c == lit
    ensures k < n ==> Down(Path(m, Wilds(k)), KWildcard) in a.nodes && Down(Path(m, Wilds(k)), KWildcard) == Path(m, Wilds(k + 1))
    ensures Path(m, Wilds(k)) in a.nodes
  {
    var keys := Wilds(n) + [KLiteral(lit)];
    var q := Wilds(k) + [KLiteral(c)];
    assert q[k] == KLiteral(c);
    assert IsPrefix(q, keys) ==> keys[..k + 1][k] == q[k] && keys[k] == q[k];
    assert k == n && c == lit ==> keys[..n + 1] == q;
    assert keys[..k] == Wilds(k);
    if k < n {
      assert Wilds(k) + [KWildcard] == Wilds(k + 1) == keys[..k + 1];
    }
  }

  lemma DecoyEntry(a: TrieView, m: string, n: nat, lit: string, t: Template)
    requires HoldsOnly(a, m, n, lit, t)
    ensures var p := Down(Path(m, Wilds(n)), KLiteral(lit));
            && Place(p, t.verb) in a.entries && a.entries[Place(p, t.verb)] == t
            && (t.verb != "" ==> Place(p, "") !in a.entries)
  {
  }

  /** The verb loop goes past the other pieces and takes the decoy. */
  lemma {:induction false} DecoyHit(a: TrieView, m: string, n: nat, lit: string, t: Template, more: string)
    requires HoldsOnly(a, m, n, lit, t)
    requires ':' !in t.verb && t.verb != "" && (more == "" || more[0] == ':')
    ensures VerbHit(a, Path(m, Wilds(n)), lit + ":" + t.verb + more) == Some(t)
    decreases |more|
  {
    hide *;
    var head := lit + ":" + t.verb;
    if more == "" {
      DecoyHitHere(a, m, n, lit, t);
      assert head + more == head;
    } else {
      var k := PastPiece(a, m, n, lit, t, head, more);
      DecoyHit(a, m, n, lit, t, more[..k]);
    }
  }

  /** The last piece of a longer component is no literal of the decoy. */
  lemma PastPiece(a: TrieView, m: string, n: nat, lit: string, t: Template, head: string, more: string) returns (k: nat)
    requires HoldsOnly(a, m, n, lit, t) && |head| > |lit| && more != "" && more[0] == ':'
    ensures k < |more| && (more[..k] == "" || more[..k][0] == ':')
    ensures VerbHit(a, Path(m, Wilds(n)), head + more) == VerbHit(a, Path(m, Wilds(n)), head + more[..k])
  {
    hide *;
    k := LastColon(more);
    var c, idx := head + more, |head| + k;
    LastIndexLater(head, more, k);
    CutMore(head, more, k);
    DecoyNodes(a, m, n, lit, t, n, c[..idx]);
    VerbHitHere(a, Path(m, Wilds(n)), c, idx);
    Longer(c, idx, lit);
  }

  lemma LastColon(more: string) returns (k: nat)
    requires more != "" && more[0] == ':'
    ensures k == LastIndex(more, ':') < |more|
  {
    assert ':' in more;
    k := LastIndex(more, ':');
  }

  lemma Longer(c: string, idx: nat, lit: string)
    requires |lit| < idx <= |c|
    ensures c[..idx] != lit
  {
  }

  lemma DecoyHitHere(a: TrieView, m: string, n: nat, lit: string, t: Template)
    requires HoldsOnly(a, m, n, lit, t) && ':' !in t.verb && t.verb != ""
    ensures VerbHit(a, Path(m, Wilds(n)), lit + ":" + t.verb) == Some(t)
  {
    hide *;
    var c := lit + [':'] + t.verb;
    LastIndexAppend(lit, ':', t.verb);
    VerbHitHere(a, Path(m, Wilds(n)), c, |lit|);
    assert c[..|lit|] == lit && c[|lit| + 1..] == t.verb;
    DecoyNodes(a, m, n, lit, t, n, lit);
    DecoyEntry(a, m, n, lit, t);
  }

  lemma LastIndexLater(a: string, more: string, k: nat)
    requires k == LastIndex(more, ':') < |more|
    ensures LastIndex(a + more, ':') == |a| + k
  {
    assert (a + more)[|a| + k + 1..] == more[k + 1..];
    LastIndexAt(a + more, ':', |a| + k);
  }

  lemma CutMore(a: string, more: string, k: nat)
    requires k < |more| && more[0] == ':'
    ensures (a + more)[..|a| + k] == a + more[..k] && (k == 0 || more[..k][0] == ':')
  {
  }

  /** What Find finds at the last component decides, the wildcards having taken the others. */
  lemma {:induction false} DecoyFound(a: TrieView, m: string, n: nat, lit: string, t: Template, orig: string, path: string, k: nat)
    requires HoldsOnly(a, m, n, lit, t) && k <= n
    requires var parts := Split(path, '/'); |parts| == n + 1 - k && EndFound(a, m, n, lit, t, orig, Last(parts))
    ensures DfsFinds(a, Path(m, Wilds(k)), orig, path, false, t)
    decreases n - k
  {
    hide HoldsOnly, EndFound, VerbHit, LeafFinds, Split, Last, Wilds, IndexAny;
    SplitStep(path);
    var parts := Split(path, '/');
    var component := Component(path);
    DecoyNodes(a, m, n, lit, t, k, component);
    if SlashAt(path) == -1 {
      OnlyPart(component);
      EndFoundNow(a, m, n, lit, t, orig, path);
    } else {
      NextParts(component, Split(Remainder(path), '/'));
      DecoyFound(a, m, n, lit, t, orig, Remainder(path), k + 1);
    }
  }

  lemma OnlyPart(c: string)
    ensures Last([c]) == c && |[c]| == 1
  {
  }

  lemma NextParts(c: string, rest: seq<string>)
    requires rest != []
    ensures |[c] + rest| == 1 + |rest| > 1 && Last([c] + rest) == Last(rest)
  {
  }

  /** The last component hits the decoy: in the verb loop, or as its literal with the verb at the end of the path. */
  ghost predicate EndFound(a: TrieView, m: string, n: nat, lit: string, t: Template, orig: string, c: string) {
    || (c != lit && VerbHit(a, Path(m, Wilds(n)), c) == Some(t))
    || (c == lit && t.verb != "" && HasSuffix(orig, ":" + t.verb))
  }

  lemma EndFoundNow(a: TrieView, m: string, n: nat, lit: string, t: Template, orig: string, path: string)
    requires HoldsOnly(a, m, n, lit, t) && SlashAt(path) == -1 && EndFound(a, m, n, lit, t, orig, path)
    ensures DfsFinds(a, Path(m, Wilds(n)), orig, path, false, t)
  {
    hide HoldsOnly, VerbHit, Wilds, IndexAny, HasSuffix, LeafFinds;
    var p := Down(Path(m, Wilds(n)), KLiteral(lit));
    DecoyNodes(a, m, n, lit, t, n, path);
    if path == lit {
      DecoyLeaf(a, m, n, lit, t, orig);
      assert DfsFinds(a, p, orig, path, true, t);
    }
  }

  lemma DecoyLeaf(a: TrieView, m: string, n: nat, lit: string, t: Template, orig: string)
    requires HoldsOnly(a, m, n, lit, t) && t.verb != "" && HasSuffix(orig, ":" + t.verb)
    ensures LeafFinds(a, Down(Path(m, Wilds(n)), KLiteral(lit)), orig, t)
  {
    hide HoldsOnly, Wilds;
    DecoyEntry(a, m, n, lit, t);
  }

  /** The decoy does not match a path whose last component is not its literal with its verb. */
  lemma DecoyWrong(a: TrieView, m: string, n: nat, lit: string, t: Template, orig: string)
    requires HoldsOnly(a, m, n, lit, t) && t.verb != "" && '/' !in t.verb
    requires var parts := Split(orig, '/'); |parts| == n + 1 && Last(parts) != lit + ":" + t.verb
    ensures !RightlyFound(a, m, orig, t)
  {
    hide Split, HasSuffix, Matches;
    WrongKeys(Wilds(n) + [KLiteral(lit)], n, lit, t.verb, orig);
  }

  lemma WrongKeys(keys: seq<Key>, n: nat, lit: string, verb: string, orig: string)
    requires |keys| == n + 1 && keys[n] == KLiteral(lit) && verb != "" && '/' !in verb
    requires var parts := Split(orig, '/'); |parts| == n + 1 && Last(parts) != lit + ":" + verb
    ensures !Matches(keys, verb, orig)
  {
    hide Split, HasSuffix;
    if HasSuffix(orig, ":" + verb) {
      SuffixFits(orig, ":" + verb);
      VerbOffLast(orig, verb);
      var rest := Split(orig[..|orig| - |verb| - 1], '/');
      assert Last(Split(orig, '/')) == rest[n] + (":" + verb);
      assert lit + (":" + verb) == lit + ":" + verb;
      assert rest[n] != lit;
    }
  }

  // ---- misled ---------------------------------------------------------------------------

  /** Find may return a template that does not match the path. */
  ghost predicate Misleads(h: seq<Added>, m: string, path: string, t: Template) {
    Finds(TrieOf(h), m, path, t) && !RightlyFound(TrieOf(h), m, TrimSlash(path), t)
  }

  lemma DecoyMisleads(m: string, path: string, n: nat, s: Segment, lit: string, t: Template)
    requires n == PartsBefore(path) && t.segments == Wildcards(n) + [s] && KeyOf(s) == [KLiteral(lit)]
    requires t.verb != "" && '/' !in t.verb && LastComponent(path) != lit + ":" + t.verb
    requires EndFound(TrieOf([Added(m, t)]), m, n, lit, t, TrimSlash(path), LastComponent(path))
    ensures Misleads([Added(m, t)], m, path, t)
  {
    hide HoldsOnly, EndFound, DfsFinds, Split, Wilds, Wildcards, KeyOf, TrieOf, RightlyFound;
    var a, orig := TrieOf([Added(m, t)]), TrimSlash(path);
    DecoyTrie(m, n, s, lit, t);
    DecoyNodes(a, m, n, lit, t, 0, "");
    NoWilds();
    DecoyFound(a, m, n, lit, t, orig, orig, 0);
    DecoyWrong(a, m, n, lit, t, orig);
  }

  lemma NoWilds()
    ensures Wilds(0) == []
  {
  }

  lemma OneParsed(m: string, t: Template)
    requires ParseOf(t.tmpl) == Some(t)
    ensures AllParsed([Added(m, t)])
  {
    hide ParseOf;
  }

  lemma LiteralColons(m: string, n: nat, lit: string, t: Template)
    requires t.segments == Wildcards(n) + [Literal(lit)] && ':' !in lit
    ensures NoColons([Added(m, t)])
  {
    FlattenDecoy(n, Literal(lit), lit);
  }

  function PartsBefore(path: string): nat {
    |Split(TrimSlash(path), '/')| - 1
  }

  lemma LiteralDecoyParts(n: nat, lit: string, verb: string)
    ensures var t := LiteralDecoy(n, lit, verb);
            && t.segments == Wildcards(n) + [Literal(lit)] && t.verb == verb && t.tmpl == LiteralText(n, lit, verb)
            && KeyOf(Literal(lit)) == [KLiteral(lit)]
  {
  }

  lemma VariableDecoyParts(n: nat, lit: string, verb: string)
    ensures var s := Variable(["a"], [Literal(lit)]);
            var t := VariableDecoy(n, lit, verb);
            && t.segments == Wildcards(n) + [s] && t.verb == verb && t.tmpl == VariableText(n, lit, verb)
            && KeyOf(s) == [KLiteral(lit)]
  {
    hide Wildcards, VariableText;
    var s := Literal(lit);
    assert [s][1..] == [] && Flatten([s]) == KeyOf(s) + Flatten([]);
    assert KeyOf(Variable(["a"], [s])) == Flatten([s]);
  }

  /** An inner piece misleads Find: the template has it as its verb and what precedes it as its literal. */
  lemma InnerMisleads(m: string, path: string, i: nat, j: nat) returns (t: Template)
    requires Inner(LastComponent(path), i, j)
    ensures AllParsed([Added(m, t)]) && Misleads([Added(m, t)], m, path, t)
    ensures ':' !in LastComponent(path)[..i] ==> NoColons([Added(m, t)])
  {
    InnerParts(LastComponent(path), i, j);
    hide *;
    var c, n := LastComponent(path), PartsBefore(path);
    var lit, verb, more := c[..i], c[i + 1..j], c[j..];
    t := LiteralDecoy(n, lit, verb);
    LiteralDecoyParses(n, lit, verb);
    LiteralDecoyParts(n, lit, verb);
    OneParsed(m, t);
    if ':' !in lit { LiteralColons(m, n, lit, t); }
    NoSlashInPChars(verb);
    LoopFound(m, n, Literal(lit), lit, t, TrimSlash(path), c, more);
    DecoyMisleads(m, path, n, Literal(lit), lit, t);
  }

  lemma InnerParts(c: string, i: nat, j: nat)
    requires Inner(c, i, j)
    ensures i + 1 < j < |c|
    ensures var lit, verb, more := c[..i], c[i + 1..j], c[j..];
            && IsPChars(lit) && IsPChars(verb) && ':' !in verb && verb != ""
            && more != "" && more[0] == ':' && c == lit + ":" + verb + more && c != lit + ":" + verb
  {
    hide IsPChars;
    assert c == c[..i] + ":" + c[i + 1..j] + c[j..];
  }

  lemma LoopFound(m: string, n: nat, s: Segment, lit: string, t: Template, orig: string, c: string, more: string)
    requires t.segments == Wildcards(n) + [s] && KeyOf(s) == [KLiteral(lit)]
    requires ':' !in t.verb && t.verb != "" && more != "" && more[0] == ':' && c == lit + ":" + t.verb + more
    ensures EndFound(TrieOf([Added(m, t)]), m, n, lit, t, orig, c)
  {
    hide HoldsOnly, Wilds, Wildcards, KeyOf, TrieOf, VerbHit, Flatten;
    DecoyTrie(m, n, s, lit, t);
    DecoyHit(TrieOf([Added(m, t)]), m, n, lit, t, more);
    assert |c| > |lit|;
  }

  /** A component that is a literal itself misleads Find by the verb behind any of its colons. */
  lemma LeafMisleads(m: string, path: string, i: nat) returns (t: Template)
    requires var c := LastComponent(path); IsPChars(c) && i + 1 < |c| && c[i] == ':'
    ensures AllParsed([Added(m, t)]) && Misleads([Added(m, t)], m, path, t)
  {
    LeafParts(LastComponent(path), i);
    hide *;
    var c, n := LastComponent(path), PartsBefore(path);
    var verb, s := c[i + 1..], Variable(["a"], [Literal(c)]);
    t := VariableDecoy(n, c, verb);
    VariableDecoyParses(n, c, verb);
    VariableDecoyParts(n, c, verb);
    OneParsed(m, t);
    NoSlashInPChars(verb);
    EndsInVerb(path, verb);
    LeafFound(m, n, c, t, TrimSlash(path));
    DecoyMisleads(m, path, n, s, c, t);
  }

  lemma LeafParts(c: string, i: nat)
    requires IsPChars(c) && i + 1 < |c| && c[i] == ':'
    ensures var verb := c[i + 1..]; ':' in c && IsPChars(verb) && verb != "" && HasSuffix(c, ":" + verb) && c != c + ":" + verb
  {
    hide IsPChars;
    var verb := c[i + 1..];
    assert c == c[..i] + [':'] + verb;
    PCharsCut(c[..i], verb);
    assert c[i..] == ":" + verb;
    assert |c + ":" + verb| > |c|;
  }

  lemma EndsInVerb(path: string, verb: string)
    requires HasSuffix(LastComponent(path), ":" + verb)
    ensures HasSuffix(TrimSlash(path), ":" + verb)
  {
    hide HasSuffix, Split, Last, TrimSlash;
    LastIsSuffix(TrimSlash(path));
    SuffixOfSuffix(TrimSlash(path), LastComponent(path), ":" + verb);
  }

  lemma LeafFound(m: string, n: nat, lit: string, t: Template, orig: string)
    requires t.verb != "" && HasSuffix(orig, ":" + t.verb)
    ensures EndFound(TrieOf([Added(m, t)]), m, n, lit, t, orig, lit)
  {
    hide TrieOf, HasSuffix, VerbHit;
  }

  /** A component that is not safe misleads Find in a trie of one parsed template whose literal has no colon. */
  lemma UnsafeMisled(m: string, path: string) returns (t: Template)
    requires !SafeComponent(LastComponent(path))
    ensures AllParsed([Added(m, t)]) && NoColons([Added(m, t)]) && Misleads([Added(m, t)], m, path, t)
  {
    hide AllParsed, NoColons, Misleads, Inner, LastComponent;
    var c := LastComponent(path);
    var i, j :| 0 <= i < j < |c| && Inner(c, i, j) && ':' !in c[..i];
    t := InnerMisleads(m, path, i, j);
  }

  lemma ClearNotMisled(h: seq<Added>, m: string, path: string, t: Template)
    requires AllParsed(h) && Misleads(h, m, path, t)
    ensures !(NoColons(h) && SafeComponent(LastComponent(path))) && !AlwaysSafe(LastComponent(path))
  {
    var c := LastComponent(path);
    hide *;
    if (NoColons(h) && SafeComponent(c)) || AlwaysSafe(c) {
      ParsedIsClear(h, c);
      MisledParts(h, m, path, t);
      FindSound(TrieOf(h), m, path, t);
    }
  }

  lemma MisledParts(h: seq<Added>, m: string, path: string, t: Template)
    requires Misleads(h, m, path, t)
    ensures Finds(TrieOf(h), m, path, t) && !RightlyFound(TrieOf(h), m, TrimSlash(path), t)
  {
    hide Finds, TrieOf, RightlyFound;
  }

  /** Parsed templates without colons in their literals can mislead Find on a path if and only if its last component
      is not safe. */
  lemma MisledIff(m: string, path: string)
    ensures (exists h: seq<Added>, t :: AllParsed(h) && NoColons(h) && Misleads(h, m, path, t))
            <==> !SafeComponent(LastComponent(path))
  {
    hide *;
    var c := LastComponent(path);
    if !SafeComponent(c) {
      var t := UnsafeMisled(m, path);
      assert AllParsed([Added(m, t)]) && NoColons([Added(m, t)]) && Misleads([Added(m, t)], m, path, t);
    }
    forall h: seq<Added>, t | AllParsed(h) && NoColons(h) && Misleads(h, m, path, t) ensures !SafeComponent(c) {
      ClearNotMisled(h, m, path, t);
    }
  }

  lemma OftenMisled(m: string, path: string) returns (t: Template)
    requires !AlwaysSafe(LastComponent(path))
    ensures AllParsed([Added(m, t)]) && Misleads([Added(m, t)], m, path, t)
  {
    hide AllParsed, Misleads, Inner, LastComponent, IsPChars;
    var c := LastComponent(path);
    if i, j :| 0 <= i < j < |c| && Inner(c, i, j) {
      t := InnerMisleads(m, path, i, j);
    } else {
      var i :| 0 <= i < |c| - 1 && c[i] == ':';
      t := LeafMisleads(m, path, i);
    }
  }

  /** Any parsed templates can mislead Find on a path if and only if its last component is not always safe. */
  lemma MisledByAnyIff(m: string, path: string)
    ensures (exists h: seq<Added>, t :: AllParsed(h) && Misleads(h, m, path, t)) <==> !AlwaysSafe(LastComponent(path))
  {
    hide *;
    var c := LastComponent(path);
    if !AlwaysSafe(c) {
      var t := OftenMisled(m, path);
      assert AllParsed([Added(m, t)]) && Misleads([Added(m, t)], m, path, t);
    }
    forall h: seq<Added>, t | AllParsed(h) && Misleads(h, m, path, t) ensures !AlwaysSafe(c) {
      ClearNotMisled(h, m, path, t);
    }
  }

  /** With a colon in a literal a safe component is not enough: the template whose last literal is "x:v" and whose
      verb is "v" misleads Find on every path that ends in "x:v". */
  lemma ColonLiteralMisleads(m: string, path: string, x: string, v: string)
    requires LastComponent(path) == x + ":" + v && v != ""
    requires IsPChars(x) && IsPChars(v) && ':' !in x && ':' !in v
    ensures var t := LiteralDecoy(PartsBefore(path), x + ":" + v, v);
            && t.tmpl == "/" + (Stars(PartsBefore(path)) + (x + ":" + v + ":" + v))
            && AllParsed([Added(m, t)]) && Misleads([Added(m, t)], m, path, t)
    ensures SafeComponent(LastComponent(path))
  {
    OneColon(x, v);
    hide *;
    var c, n := x + ":" + v, PartsBefore(path);
    var t := LiteralDecoy(n, c, v);
    LiteralDecoyParses(n, c, v);
    LiteralDecoyParts(n, c, v);
    LiteralTextIs(n, c, v);
    OneParsed(m, t);
    NoSlashInPChars(v);
    EndsInVerb(path, v);
    LeafFound(m, n, c, t, TrimSlash(path));
    DecoyMisleads(m, path, n, Literal(c), c, t);
  }

  lemma LiteralTextIs(n: nat, lit: string, verb: string)
    ensures LiteralText(n, lit, verb) == "/" + (Stars(n) + (lit + ":" + verb))
  {
  }

  lemma OneColon(x: string, v: string)
    requires IsPChars(x) && IsPChars(v) && ':' !in x && ':' !in v
    ensures var c := x + ":" + v; IsPChars(c) && SafeComponent(c) && HasSuffix(c, ":" + v) && c != c + ":" + v
  {
    hide IsPChars;
    var c := x + [':'] + v;
    PCharsCut(x, v);
    assert c == x + ":" + v;
    assert c[|x|..] == ":" + v;
    assert |c + ":" + v| > |c|;
    forall i, j | 0 <= i < j < |c| ensures !Inner(c, i, j) {
      assert c[i] == ':' ==> i == |x|;
      assert c[j] == ':' ==> j == |x|;
    }
  }

  // ---- found or not ----------------------------------------------------------------------

  /** A template of wildcards and a literal matches the paths that end in its literal and its verb. */
  lemma DecoyMatches(n: nat, lit: string, verb: string, path: string)
    requires n == PartsBefore(path) && LastComponent(path) == lit + (":" + verb) && verb != "" && '/' !in verb
    ensures Matches(Wilds(n) + [KLiteral(lit)], verb, TrimSlash(path))
  {
    hide Split, TrimSlash, HasSuffix;
    EndOfTwo(lit, ":" + verb);
    EndsInVerb(path, verb);
    var orig := TrimSlash(path);
    SuffixFits(orig, ":" + verb);
    VerbOffLast(orig, verb);
    var rest := Split(orig[..|orig| - |verb| - 1], '/');
    SameFront(Last(rest), lit, ":" + verb);
  }

  lemma EndOfTwo(a: string, b: string)
    ensures HasSuffix(a + b, b)
  {
  }

  lemma SameFront(a: string, b: string, tail: string)
    requires a + tail == b + tail
    ensures a == b
  {
    assert a == (a + tail)[..|a|] && b == (b + tail)[..|b|];
  }

  /** A template of wildcards and a literal, alone in the trie, is found on a safe path that ends in its literal and its
      verb if and only if the verb has no colon. */
  lemma LoneFoundIff(m: string, path: string, lit: string, verb: string)
    requires IsWordLit(lit) && IsPChars(verb) && verb != "" && ':' !in lit
    requires LastComponent(path) == lit + (":" + verb) && SafeComponent(LastComponent(path))
    ensures var t := VariableDecoy(PartsBefore(path), lit, verb);
            && AllParsed([Added(m, t)]) && NoColons([Added(m, t)])
            && Matches(Flatten(t.segments), t.verb, TrimSlash(path))
            && ((exists s :: Finds(TrieOf([Added(m, t)]), m, path, s)) <==> ':' !in verb)
  {
    hide *;
    var n, s, orig := PartsBefore(path), Variable(["a"], [Literal(lit)]), TrimSlash(path);
    var t := VariableDecoy(n, lit, verb);
    var a := TrieOf([Added(m, t)]);
    VariableDecoyParses(n, lit, verb);
    VariableDecoyParts(n, lit, verb);
    OneParsed(m, t);
    FlattenDecoy(n, s, lit);
    FlatColonFree(m, n, t, lit);
    NoSlashInPChars(verb);
    DecoyMatches(n, lit, verb, path);
    DecoyTrie(m, n, s, lit, t);
    var at := Place(Path(m, Wilds(n) + [KLiteral(lit)]), verb);
    LoneBlocked(a, m, n, lit, t, at, Split(orig, '/'), path);
    LoneLeads(a, m, n, lit, t, at, orig);
    forall x ensures Finds(a, m, path, x) <==> ':' !in verb && x == t {
      FoundExactly([Added(m, t)], m, path, x);
      OnlyLead(a, m, n, lit, t, at, orig, x);
    }
    assert Finds(a, m, path, t) <==> ':' !in verb;
  }

  lemma FlatColonFree(m: string, n: nat, t: Template, lit: string)
    requires Flatten(t.segments) == Wilds(n) + [KLiteral(lit)] && ':' !in lit
    ensures NoColons([Added(m, t)])
  {
    hide Flatten;
  }

  /** Nothing but its own verb can stand in the way of a template that is alone. */
  lemma LoneBlocked(a: TrieView, m: string, n: nat, lit: string, t: Template, at: Place, parts: seq<string>, path: string)
    requires HoldsOnly(a, m, n, lit, t) && at == Place(Path(m, Wilds(n) + [KLiteral(lit)]), t.verb) && t.verb != ""
    requires parts == Split(TrimSlash(path), '/') && n == PartsBefore(path) && LastComponent(path) == lit + (":" + t.verb)
    ensures Blocked(a, at, parts) <==> ':' in t.verb
  {
    hide HoldsOnly, Split, TrimSlash, VerbTaken;
    forall d | 0 <= d < |at.path.keys| && d < |parts| ensures !Overtaken(a, Front(at.path, d), at.path.keys[d], parts[d]) {
      assert Front(at.path, d).keys == Wilds(d);
      DecoyNodes(a, m, n, lit, t, d, parts[d]);
      assert d == n ==> |parts[d]| > |lit|;
    }
  }

  lemma LoneLeads(a: TrieView, m: string, n: nat, lit: string, t: Template, at: Place, orig: string)
    requires HoldsOnly(a, m, n, lit, t) && at == Place(Path(m, Wilds(n) + [KLiteral(lit)]), t.verb)
    requires Matches(at.path.keys, t.verb, orig)
    ensures at in a.entries && a.entries[at] == t && (Leads(a, at, m, orig) <==> !Blocked(a, at, Split(orig, '/')))
  {
    hide Matches, Blocked, Wilds;
  }

  lemma OnlyLead(a: TrieView, m: string, n: nat, lit: string, t: Template, at: Place, orig: string, x: Template)
    requires HoldsOnly(a, m, n, lit, t) && at == Place(Path(m, Wilds(n) + [KLiteral(lit)]), t.verb)
    ensures (exists at' :: Leads(a, at', m, orig) && a.entries[at'] == x) <==> Leads(a, at, m, orig) && x == t
  {
    hide Matches, Blocked, Wilds;
    assert at in a.entries && a.entries[at] == t;
  }

  /** With nothing else in the trie a template is missed on its own path: "{a=b}::y" on "b::y", and the like. */
  lemma LoneMissed(m: string, path: string, lit: string, y: string)
    requires IsWordLit(lit) && IsPChars(y) && ':' !in lit && LastComponent(path) == lit + (":" + (":" + y))
    ensures var t := VariableDecoy(PartsBefore(path), lit, ":" + y);
            && t.tmpl == "/" + (Stars(PartsBefore(path)) + ("{a=" + lit + "}" + (":" + (":" + y))))
            && AllParsed([Added(m, t)]) && NoColons([Added(m, t)]) && SafeComponent(LastComponent(path))
            && Matches(Flatten(t.segments), t.verb, TrimSlash(path))
            && forall s :: !Finds(TrieOf([Added(m, t)]), m, path, s)
  {
    hide *;
    ColonWord(y);
    TwoColonsSafe(lit, y);
    LoneFoundIff(m, path, lit, ":" + y);
    VariableTextIs(PartsBefore(path), lit, ":" + y);
    assert (":" + y)[0] == ':';
  }

  lemma VariableTextIs(n: nat, lit: string, verb: string)
    ensures VariableDecoy(n, lit, verb).tmpl == "/" + (Stars(n) + ("{a=" + lit + "}" + (":" + verb)))
  {
  }

  lemma TwoColonsSafe(lit: string, y: string)
    requires ':' !in lit
    ensures SafeComponent(lit + (":" + (":" + y)))
  {
    hide IsPChars;
    var c := lit + (":" + (":" + y));
    assert c[|lit|] == ':' && c[|lit| + 1] == ':' && forall k :: 0 <= k < |lit| ==> c[k] == lit[k];
    forall i, j | 0 <= i < j < |c| ensures !(Inner(c, i, j) && ':' !in c[..i]) {
      assert i > |lit| ==> c[..i][|lit|] == ':';
      assert i == |lit| && i + 1 < j ==> c[i + 1..j][0] == ':';
    }
  }

  // ---- one template that hides another everywhere -----------------------------------------

  /** On no path at all is "**" found beside the template with one wildcard more than the path has components. */
  lemma AlwaysMissed(m: string, path: string, x: string, s: Template)
    requires IsPChars(x)
    ensures var t := LiteralDecoy(PartsBefore(path) + 1, x, "");
            && t.tmpl == "/" + (Stars(PartsBefore(path) + 1) + (x + ":"))
            && AllParsed([Added(m, t), Added(m, ANY_PATH)])
            && Matches(Flatten(ANY_PATH.segments), ANY_PATH.verb, TrimSlash(path))
            && !Finds(TrieOf([Added(m, t), Added(m, ANY_PATH)]), m, path, s)
  {
    hide *;
    var n, orig := PartsBefore(path) + 1, TrimSlash(path);
    var t := LiteralDecoy(n, x, "");
    var h := [Added(m, t), Added(m, ANY_PATH)];
    var a := TrieOf(h);
    NoText();
    LiteralDecoyParses(n, x, "");
    LiteralDecoyParts(n, x, "");
    LiteralTextIs(n, x, "");
    assert x + ":" + "" == x + ":";
    AnyPathParses();
    TwoParsed(m, t, ANY_PATH);
    FlattenDecoy(n, Literal(x), x);
    AnyPathMatches(orig);
    HistoryGrounded(h);
    TwoEntries(m, t, ANY_PATH, n, x);
    VerblessClear(h, LastComponent(path));
    FoundIff(a, m, path, s);
    forall at ensures !Leads(a, at, m, orig) {
      WildcardFirst(a, at, m, n, x, orig, path);
    }
  }

  lemma NoText()
    ensures IsPChars("") && ':' !in "" && ANY_PATH.tmpl == "/**" && ANY_PATH.verb == ""
  {
  }

  lemma AnyPathMatches(orig: string)
    ensures Flatten(ANY_PATH.segments) == [KMulti] && Matches([KMulti], "", orig)
  {
    assert [MultiWildcard][1..] == [];
    hide Split;
    assert [KMulti][..0] == [];
  }

  /** The two templates have no verb, and a wildcard stands at the root. */
  lemma TwoEntries(m: string, one: Template, two: Template, n: nat, x: string)
    requires n > 0 && Flatten(one.segments) == Wilds(n) + [KLiteral(x)] && Flatten(two.segments) == [KMulti]
    requires one.verb == "" == two.verb
    ensures var a := TrieOf([Added(m, one), Added(m, two)]);
            && Down(Path(m, []), KWildcard) in a.nodes
            && forall at :: at in a.entries ==> at.verb == "" && (at.path.keys == Wilds(n) + [KLiteral(x)] || at.path.keys == [KMulti])
  {
    hide Flatten, TrieOf;
    var h := [Added(m, one), Added(m, two)];
    var a, p := TrieOf(h), Down(Path(m, []), KWildcard);
    HistoryDetermines(h, Place(p, ""), p);
    assert h[0] == Added(m, one) && (Wilds(n) + [KLiteral(x)])[..1] == [KWildcard] == p.keys;
    forall at | at in a.entries ensures at.verb == "" && (at.path.keys == Wilds(n) + [KLiteral(x)] || at.path.keys == [KMulti]) {
      var i := EntryPlaced(h, at);
    }
  }

  lemma VerblessClear(h: seq<Added>, c: string)
    requires forall at :: at in TrieOf(h).entries ==> at.verb == ""
    ensures Placed(TrieOf(h)) && Clear(TrieOf(h), c)
  {
    hide TrieOf, EndsIn;
    forall at | at in TrieOf(h).entries ensures at.path in TrieOf(h).nodes {
      var i := EntryPlaced(h, at);
    }
  }

  lemma WildcardFirst(a: TrieView, at: Place, m: string, n: nat, x: string, orig: string, path: string)
    requires orig == TrimSlash(path) && n == PartsBefore(path) + 1 && Down(Path(m, []), KWildcard) in a.nodes
    requires at in a.entries ==> at.verb == "" && (at.path.keys == Wilds(n) + [KLiteral(x)] || at.path.keys == [KMulti])
    ensures !Leads(a, at, m, orig)
  {
    hide Split, TrimSlash, EndTaken;
    if at in a.entries && at.path.httpMethod == m && Matches(at.path.keys, at.verb, orig) {
      MatchFits(at.path.keys, at.verb, orig);
      assert at.path.keys == [KMulti];
      assert Front(at.path, 0) == Path(m, []);
      assert Overtaken(a, Front(at.path, 0), at.path.keys[0], Split(orig, '/')[0]);
    }
  }

  // ---- never back ------------------------------------------------------------------------

  /** The search never goes back: once a literal has taken the first component, nothing is found behind it, although
      a template whose wildcard takes that component matches the path. */
  lemma NeverBacktracks(m: string, a: string, w: string, c: string, v: string, t: Template)
    requires IsPChars(a) && IsPChars(w) && IsPChars(c) && IsPChars(v) && ':' !in w && ':' !in v && v != ""
    ensures var one, two := LiteralDecoy(0, a, w), LiteralDecoy(1, c, v);
            var h, path := [Added(m, one), Added(m, two)], "/" + (a + ("/" + (c + (":" + v))));
            && one.tmpl == "/" + (a + ":" + w) && two.tmpl == "/*/" + (c + ":" + v)
            && AllParsed(h) && Matches(Flatten(two.segments), two.verb, TrimSlash(path)) && !Finds(TrieOf(h), m, path, t)
  {
    hide *;
    var one, two := LiteralDecoy(0, a, w), LiteralDecoy(1, c, v);
    var h, orig := [Added(m, one), Added(m, two)], a + ("/" + (c + (":" + v)));
    LiteralDecoyParses(0, a, w);
    LiteralDecoyParses(1, c, v);
    LiteralDecoyParts(0, a, w);
    LiteralDecoyParts(1, c, v);
    TwoTexts(a, w, c, v);
    TwoParsed(m, one, two);
    FlattenDecoy(0, Literal(a), a);
    FlattenDecoy(1, Literal(c), c);
    NoWilds();
    NoSlashInPChars(a);
    NoSlashInPChars(c);
    NoSlashInPChars(v);
    TwoMatch(a, c, v);
    TwoNodes(m, one, two, a, c);
    Trimmed(orig);
    NoneFound(TrieOf(h), m, a, c + (":" + v), "/" + orig, t);
  }

  lemma TwoTexts(a: string, w: string, c: string, v: string)
    ensures LiteralText(0, a, w) == "/" + (a + ":" + w) && LiteralText(1, c, v) == "/*/" + (c + ":" + v)
  {
    assert Stars(1) == "*/" + Stars(0) == "*/";
  }

  lemma TwoParsed(m: string, one: Template, two: Template)
    requires ParseOf(one.tmpl) == Some(one) && ParseOf(two.tmpl) == Some(two)
    ensures AllParsed([Added(m, one), Added(m, two)])
  {
    hide ParseOf;
  }

  lemma Trimmed(orig: string)
    ensures TrimSlash("/" + orig) == orig
  {
  }

  lemma TwoMatch(a: string, c: string, v: string)
    requires '/' !in a && '/' !in c && '/' !in v && v != ""
    ensures Matches(Wilds(1) + [KLiteral(c)], v, a + ("/" + (c + (":" + v))))
  {
    var tail := ":" + v;
    var orig := a + ("/" + (c + tail));
    assert orig[|orig| - |tail|..] == tail;
    assert orig[..|orig| - |v| - 1] == a + ("/" + c);
    SplitTwo(a, c);
  }

  lemma SplitTwo(a: string, rest: string)
    requires '/' !in a && '/' !in rest
    ensures Split(a + ("/" + rest), '/') == [a, rest]
    ensures SlashAt(a + ("/" + rest)) == |a| && SlashAt(rest) == -1
    ensures Component(a + ("/" + rest)) == a && Remainder(a + ("/" + rest)) == rest
  {
    hide *;
    var s := a + ("/" + rest);
    SplitStep(s);
    SplitPlain(rest);
    SlashBetween(a, rest);
    ComponentParts(s);
    assert s[..|a|] == a && s[|a| + 1..] == rest;
  }

  lemma SlashBetween(a: string, rest: string)
    requires '/' !in a && '/' !in rest
    ensures SlashAt(a + ("/" + rest)) == |a| && SlashAt(rest) == -1
  {
    hide IndexAny;
    var s := a + ("/" + rest);
    assert s[..|a|] == a && s[|a|] == '/';
    IndexAnyAt(s, "/", |a|);
  }

  /** Behind the first literal there is no node. */
  lemma TwoNodes(m: string, one: Template, two: Template, a: string, c: string)
    requires Flatten(one.segments) == [KLiteral(a)] && Flatten(two.segments) == Wilds(1) + [KLiteral(c)]
    ensures var nodes := TrieOf([Added(m, one), Added(m, two)]).nodes;
            && Down(Path(m, []), KLiteral(a)) in nodes
            && forall k :: Down(Down(Path(m, []), KLiteral(a)), k) !in nodes
  {
    hide Flatten, TrieOf;
    var h := [Added(m, one), Added(m, two)];
    var p := Down(Path(m, []), KLiteral(a));
    HistoryDetermines(h, Place(p, ""), p);
    assert h[0] == Added(m, one) && p.keys == [KLiteral(a)] && [KLiteral(a)][..1] == [KLiteral(a)];
    forall k ensures Down(p, k) !in TrieOf(h).nodes {
      HistoryDetermines(h, Place(p, ""), Down(p, k));
      assert Down(p, k).keys[0] == KLiteral(a) && (Wilds(1) + [KLiteral(c)])[0] == KWildcard;
    }
  }

  lemma NoneFound(a: TrieView, m: string, first: string, rest: string, path: string, t: Template)
    requires TrimSlash(path) == first + ("/" + rest) && '/' !in first && '/' !in rest
    requires Down(Path(m, []), KLiteral(first)) in a.nodes
    requires forall k :: Down(Down(Path(m, []), KLiteral(first)), k) !in a.nodes
    ensures !Finds(a, m, path, t)
  {
    hide Split, SlashAt, Component, Remainder, TrimSlash, LeafFinds, VerbHit;
    var orig, p := TrimSlash(path), Down(Path(m, []), KLiteral(first));
    SplitTwo(first, rest);
    OnlyComponent(rest);
    NoHit(a, p, rest);
    assert DfsFinds(a, Path(m, []), orig, orig, false, t) == DfsFinds(a, p, orig, rest, false, t);
    assert Down(p, KLiteral(rest)) !in a.nodes && Down(p, KWildcard) !in a.nodes && Down(p, KMulti) !in a.nodes;
  }

  lemma OnlyComponent(s: string)
    requires SlashAt(s) == -1
    ensures Component(s) == s
  {
    hide SlashAt;
  }

  lemma {:induction false} NoHit(a: TrieView, p: Path, c: string)
    requires forall k :: Down(p, k) !in a.nodes
    ensures VerbHit(a, p, c) == None
    decreases |c|
  {
    var idx := LastIndex(c, ':');
    if idx != -1 { NoHit(a, p, c[..idx]); }
  }
}
