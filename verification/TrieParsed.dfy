/** What the parser guarantees the trie, and what Find therefore guarantees its callers. */
module TrieParsed {
  import opened Text
  import opened PathChars
  import opened HttpRule
  import opened HttpRuleSound
  import opened HttpRuleShape
  import opened TrieModel
  import opened TrieFind
  import opened TrieFound
  import Trie

  // ---- shape of parsed templates -------------------------------------------------------

  /** "**" is the last edge or none. */
  predicate OnlyLast(keys: seq<Key>) {
    forall i :: 0 <= i < |keys| - 1 ==> keys[i] != KMulti
  }

  predicate PCharKeys(keys: seq<Key>) {
    forall i :: 0 <= i < |keys| && keys[i].KLiteral? ==> IsPChars(keys[i].lit)
  }

  /** Parsed templates have no variable inside a variable, "**" only at their very end, and only pchars in literals and verb. */
  lemma ParsedShape(tmpl: string)
    requires ParseOf(tmpl).Some?
    ensures var t := ParseOf(tmpl).value;
            && AllShape(t.segments) && IsPChars(t.verb)
            && OnlyLast(Flatten(t.segments)) && PCharKeys(Flatten(t.segments)) && Flatten(t.segments) != []
  {
    hide *;
    var multi := ParsedSegments(tmpl);
    AllKeys(ParseOf(tmpl).value.segments, multi);
  }

  lemma {:induction false} FlatKeys(ss: seq<Segment>)
    requires forall k :: 0 <= k < |ss| ==> FlatShape(ss[k])
    ensures |Flatten(ss)| == |ss|
    ensures forall k :: 0 <= k < |ss| ==> (Flatten(ss)[k] == KMulti <==> ss[k].MultiWildcard?)
    ensures PCharKeys(Flatten(ss))
    decreases |ss|
  {
    if ss != [] {
      FlatKeys(ss[1..]);
    }
  }

  lemma SegmentKeys(s: Segment)
    requires Shape(s)
    ensures OnlyLast(KeyOf(s)) && PCharKeys(KeyOf(s)) && KeyOf(s) != []
    ensures !HasMulti(s) ==> KMulti !in KeyOf(s)
  {
    if s.Variable? {
      VariableFlat(s);
      FlatKeys(s.segments);
      hide *;
      FlatOnlyLast(s.segments, Flatten(s.segments), HasMulti(s));
      VariableKeys(s);
    }
  }

  lemma VariableFlat(s: Segment)
    requires Shape(s) && s.Variable?
    ensures MultiLast(s.segments, HasMulti(s)) && forall k :: 0 <= k < |s.segments| ==> FlatShape(s.segments[k])
  {
    hide MultiLast, HasMulti;
  }

  lemma VariableKeys(s: Segment)
    requires s.Variable?
    ensures KeyOf(s) == Flatten(s.segments)
  {
  }

  lemma FlatOnlyLast(ss: seq<Segment>, keys: seq<Key>, multi: bool)
    requires |keys| == |ss| && MultiLast(ss, multi)
    requires forall k :: 0 <= k < |ss| ==> (keys[k] == KMulti <==> ss[k].MultiWildcard?)
    requires forall k :: 0 <= k < |ss| ==> FlatShape(ss[k])
    ensures OnlyLast(keys) && keys != [] && (!multi ==> KMulti !in keys)
  {
    hide IsPChars;
  }

  lemma {:induction false} AllKeys(ss: seq<Segment>, multi: bool)
    requires AllShape(ss) && MultiLast(ss, multi)
    ensures OnlyLast(Flatten(ss)) && PCharKeys(Flatten(ss)) && Flatten(ss) != []
    decreases |ss|
  {
    SegmentKeys(ss[0]);
    if |ss| == 1 {
      assert ss[1..] == [];
      assert KeyOf(ss[0]) + [] == KeyOf(ss[0]);
    } else {
      hide Shape, HasMulti, KeyOf;
      assert forall k :: 0 <= k < |ss| - 1 ==> ss[1..][k] == ss[k + 1];
      AllKeys(ss[1..], multi);
      KeysJoined(KeyOf(ss[0]), Flatten(ss[1..]));
    }
  }

  lemma KeysJoined(a: seq<Key>, b: seq<Key>)
    requires KMulti !in a && OnlyLast(b) && PCharKeys(a) && PCharKeys(b)
    ensures OnlyLast(a + b) && PCharKeys(a + b)
  {
    assert forall i :: 0 <= i < |a + b| ==> (a + b)[i] == if i < |a| then a[i] else b[i - |a|];
  }

  // ---- what Find returns ---------------------------------------------------------------

  /** Every template came from Parse. */
  predicate AllParsed(h: seq<Added>) {
    forall i :: 0 <= i < |h| ==> ParseOf(h[i].tmpl.tmpl) == Some(h[i].tmpl)
  }

  predicate ColonFree(keys: seq<Key>) {
    forall i :: 0 <= i < |keys| && keys[i].KLiteral? ==> ':' !in keys[i].lit
  }

  /** No literal has a colon. */
  predicate NoColons(h: seq<Added>) {
    forall i :: 0 <= i < |h| ==> ColonFree(Flatten(h[i].tmpl.segments))
  }

  /** Two colons with something between them that could be a verb, behind something that could be a literal. */
  predicate Inner(c: string, i: nat, j: nat) {
    i + 1 < j < |c| && c[i] == ':' && c[j] == ':' && ':' !in c[i + 1..j] && IsPChars(c[..i]) && IsPChars(c[i + 1..j])
  }

  /** The piece between the first two colons cannot be the verb of a template whose literal is the piece before them. */
  predicate SafeComponent(c: string) {
    forall i, j :: 0 <= i < j < |c| ==> !(Inner(c, i, j) && ':' !in c[..i])
  }

  /** No literal, with colons or without, and no verb can be taken out of the component. */
  predicate AlwaysSafe(c: string) {
    && (forall i, j :: 0 <= i < j < |c| ==> !Inner(c, i, j))
    && (IsPChars(c) ==> forall i :: 0 <= i < |c| - 1 ==> c[i] != ':')
  }

  lemma {:induction false} LastAtMember(h: seq<Added>, at: Place)
    requires LastAt(h, at).Some?
    ensures exists i :: 0 <= i < |h| && h[i].tmpl == LastAt(h, at).value && PlaceOf(h[i].httpMethod, h[i].tmpl) == at
    decreases |h|
  {
    var n := |h| - 1;
    hide PlaceOf;
    if PlaceOf(h[n].httpMethod, h[n].tmpl) != at {
      LastAtMember(h[..n], at);
      var i :| 0 <= i < n && h[..n][i].tmpl == LastAt(h[..n], at).value && PlaceOf(h[..n][i].httpMethod, h[..n][i].tmpl) == at;
      assert h[i] == h[..n][i];
    }
  }

  /** Entries of a trie lie on its nodes. */
  lemma EntryPlaced(h: seq<Added>, at: Place) returns (i: nat)
    requires at in TrieOf(h).entries
    ensures i < |h| && h[i].tmpl == TrieOf(h).entries[at] && PlaceOf(h[i].httpMethod, h[i].tmpl) == at
    ensures at.path in TrieOf(h).nodes
  {
    hide Flatten;
    HistoryDetermines(h, at, at.path);
    LastAtMember(h, at);
    i :| 0 <= i < |h| && h[i].tmpl == LastAt(h, at).value && PlaceOf(h[i].httpMethod, h[i].tmpl) == at;
    assert IsPrefix(at.path.keys, Flatten(h[i].tmpl.segments));
  }

  /** What an entry of a trie of parsed templates looks like. */
  lemma EntryShape(h: seq<Added>, at: Place)
    requires AllParsed(h) && at in TrieOf(h).entries
    ensures at.path in TrieOf(h).nodes && IsPChars(at.verb) && '/' !in at.verb
    ensures PCharKeys(at.path.keys) && (NoColons(h) ==> ColonFree(at.path.keys))
  {
    var i := EntryPlaced(h, at);
    assert ParseOf(h[i].tmpl.tmpl) == Some(h[i].tmpl);
    hide ParseOf, TrieOf, Flatten, OnlyLast, PCharKeys, ColonFree, AllShape;
    ParsedShape(h[i].tmpl.tmpl);
    NoSlashInPChars(at.verb);
  }

  /** Parsed templates leave Find nothing to go astray on. */
  lemma ParsedIsClear(h: seq<Added>, c: string)
    requires AllParsed(h) && ((NoColons(h) && SafeComponent(c)) || AlwaysSafe(c))
    ensures Placed(TrieOf(h)) && Clear(TrieOf(h), c)
  {
    hide AllParsed, NoColons, TrieOf, SafeComponent, AlwaysSafe, Cuts, HasSuffix, EndsIn;
    var a := TrieOf(h);
    forall at | at in a.entries ensures '/' !in at.verb && at.path in a.nodes {
      EntryShape(h, at);
    }
    forall at | at in a.entries && at.verb != "" && EndsIn(at.path.keys, c) ensures !HasSuffix(c, ":" + at.verb) {
      EntryShape(h, at);
      LeafClearOf(at.path.keys, at.verb, c);
      if NoColons(h) { ColonFreeLeaf(at.path.keys, at.verb, c); }
    }
    forall at, left | at in a.entries && EndsIn(at.path.keys, left) ensures !Cuts(left, at.verb, c) {
      EntryShape(h, at);
      CutClearOf(at.path.keys, at.verb, left, c);
      if NoColons(h) { ColonFreeCut(at.path.keys, at.verb, left, c); }
    }
  }

  lemma LeafClearOf(keys: seq<Key>, verb: string, c: string)
    requires PCharKeys(keys) && EndsIn(keys, c) && verb != ""
    ensures AlwaysSafe(c) ==> !HasSuffix(c, ":" + verb)
  {
    hide IsPChars, Inner;
    ColonBefore(c, verb);
  }

  lemma ColonBefore(c: string, verb: string)
    ensures HasSuffix(c, ":" + verb) ==> |verb| < |c| && c[|c| - |verb| - 1] == ':'
  {
    assert |verb| < |c| ==> c[|c| - |verb| - 1..][0] == c[|c| - |verb| - 1];
  }

  lemma ColonFreeLeaf(keys: seq<Key>, verb: string, c: string)
    requires ColonFree(keys) && EndsIn(keys, c)
    ensures !HasSuffix(c, ":" + verb)
  {
    ColonBefore(c, verb);
  }

  /** Where literal and verb cut a component they make an inner piece. */
  lemma CutIsInner(left: string, verb: string, c: string)
    requires IsPChars(left) && IsPChars(verb) && Cuts(left, verb, c)
    ensures var i, j := |left|, |left| + 1 + |verb|; j < |c| && Inner(c, i, j) && c[..i] == left && c[i + 1..j] == verb
  {
    hide IsPChars;
    var head := left + ":" + verb;
    assert c[..|head|] == head;
    assert c[..|left|] == left && c[|left|] == ':' && c[|left| + 1..|head|] == verb;
  }

  lemma CutClearOf(keys: seq<Key>, verb: string, left: string, c: string)
    requires PCharKeys(keys) && IsPChars(verb) && EndsIn(keys, left)
    ensures AlwaysSafe(c) ==> !Cuts(left, verb, c)
  {
    hide IsPChars, Inner, Cuts;
    if Cuts(left, verb, c) { CutIsInner(left, verb, c); }
  }

  lemma ColonFreeCut(keys: seq<Key>, verb: string, left: string, c: string)
    requires PCharKeys(keys) && ColonFree(keys) && IsPChars(verb) && EndsIn(keys, left)
    ensures SafeComponent(c) ==> !Cuts(left, verb, c)
  {
    hide IsPChars, Inner, Cuts;
    if Cuts(left, verb, c) { CutIsInner(left, verb, c); }
  }

  /** Whatever Find returns for a safe path was added under the method and matches the whole path. */
  lemma FoundWasAdded(h: seq<Added>, m: string, path: string, t: Template)
    requires AllParsed(h) && ((NoColons(h) && SafeComponent(LastComponent(path))) || AlwaysSafe(LastComponent(path)))
    requires Finds(TrieOf(h), m, path, t)
    ensures exists i :: 0 <= i < |h| && h[i] == Added(m, t)
    ensures Matches(Flatten(t.segments), t.verb, TrimSlash(path))
  {
    hide AllParsed, NoColons, Placed, Clear, Finds, SafeComponent, AlwaysSafe, Matches, Flatten, TrieOf, LastComponent;
    var a := TrieOf(h);
    ParsedIsClear(h, LastComponent(path));
    FindSound(a, m, path, t);
    var at :| at in a.entries && a.entries[at] == t && at.path.httpMethod == m && Matches(at.path.keys, at.verb, TrimSlash(path));
    var i := EntryPlaced(h, at);
    assert h[i] == Added(m, t);
  }

  lemma HistoryGrounded(h: seq<Added>)
    ensures Grounded(TrieOf(h))
  {
    hide TrieOf, Flatten;
    var a := TrieOf(h);
    forall at, d | at in a.entries && 0 <= d <= |at.path.keys| ensures Front(at.path, d) in a.nodes {
      var i := EntryPlaced(h, at);
      HistoryDetermines(h, at, Front(at.path, d));
      assert IsPrefix(at.path.keys[..d], Flatten(h[i].tmpl.segments));
    }
  }

  /** For a safe path Find returns exactly the templates of parsed ones that match it and are not blocked. */
  lemma FoundExactly(h: seq<Added>, m: string, path: string, t: Template)
    requires AllParsed(h) && ((NoColons(h) && SafeComponent(LastComponent(path))) || AlwaysSafe(LastComponent(path)))
    ensures Finds(TrieOf(h), m, path, t) <==>
              exists at :: Leads(TrieOf(h), at, m, TrimSlash(path)) && TrieOf(h).entries[at] == t
  {
    hide AllParsed, NoColons, Placed, Grounded, Clear, Finds, SafeComponent, AlwaysSafe, Matches, Blocked, TrieOf, LastComponent;
    ParsedIsClear(h, LastComponent(path));
    HistoryGrounded(h);
    FoundIff(TrieOf(h), m, path, t);
  }

  /** Finding in a trie of parsed templates: a safe path leads to a template that was added under the method, matches
      and is not blocked, or to none when each that matches is blocked. */
  method FindAdded(h: seq<Added>, m: string, path: string) returns (r: Option<Template>)
    requires AllParsed(h) && ((NoColons(h) && SafeComponent(LastComponent(path))) || AlwaysSafe(LastComponent(path)))
    ensures r.Some? ==> (exists i :: 0 <= i < |h| && h[i] == Added(m, r.value))
                        && Matches(Flatten(r.value.segments), r.value.verb, TrimSlash(path))
    ensures Decided(TrieOf(h), m, path, r)
  {
    hide *;
    var trie := Trie.Build(h);
    ParsedIsClear(h, LastComponent(path));
    HistoryGrounded(h);
    r := trie.Find(m, path);
    if r.Some? { FoundWasAdded(h, m, path, r.value); }
  }
}
