/** Exactly which of the templates that match a path Find returns, and when it returns none. */
module TrieFound {
  import opened Text
  import opened HttpRule
  import opened TrieModel
  import opened TrieFind

  // ---- what keeps a matching template from being found -----------------------------------

  function Front(p: Path, d: nat): Path
    requires d <= |p.keys|
  {
    Path(p.httpMethod, p.keys[..d])
  }

  predicate EndsInLiteral(keys: seq<Key>) {
    keys != [] && keys[|keys| - 1].KLiteral?
  }

  /** Beside the edge `k` stands one that is tried before it and takes the component. */
  ghost predicate Overtaken(a: TrieView, p: Path, k: Key, c: string) {
    k != KLiteral(c) && (Down(p, KLiteral(c)) in a.nodes || (k == KMulti && Down(p, KWildcard) in a.nodes))
  }

  ghost predicate AnyOvertaken(a: TrieView, p: Path, parts: seq<string>) {
    exists d :: 0 <= d < |p.keys| && d < |parts| && Overtaken(a, Front(p, d), p.keys[d], parts[d])
  }

  /** Some template here has what precedes the last colon as its literal, and what follows it as its verb. */
  ghost predicate VerbTaken(a: TrieView, p: Path, c: string) {
    var i := LastIndex(c, ':');
    0 <= i < |c| - 1 && Place(Down(p, KLiteral(c[..i])), c[i + 1..]) in a.entries
  }

  /** The last component goes to a literal with a verb although the path has a wildcard for it. */
  ghost predicate EndTaken(a: TrieView, p: Path, parts: seq<string>) {
    |p.keys| == |parts| > 0 && !EndsInLiteral(p.keys) && VerbTaken(a, Front(p, |p.keys| - 1), Last(parts))
  }

  /** Why Find passes a template by that matches: another edge takes a component; a literal with a verb takes the last
      one; its own verb has a colon, of which the search behind a literal sees the last piece only; or the node behind
      its wildcard has a template without a verb. */
  ghost predicate Blocked(a: TrieView, at: Place, parts: seq<string>) {
    || AnyOvertaken(a, at.path, parts)
    || EndTaken(a, at.path, parts)
    || (at.verb != "" && if EndsInLiteral(at.path.keys) then ':' in at.verb else Place(at.path, "") in a.entries)
  }

  /** A template of the method that matches, with nothing in its way. */
  ghost predicate Leads(a: TrieView, at: Place, m: string, orig: string) {
    && at in a.entries && at.path.httpMethod == m
    && Matches(at.path.keys, at.verb, orig) && !Blocked(a, at, Split(orig, '/'))
  }

  /** All nodes on the way to a template are there. */
  ghost predicate Grounded(a: TrieView) {
    forall at, d :: at in a.entries && 0 <= d <= |at.path.keys| ==> Front(at.path, d) in a.nodes
  }

  // ---- what is found leads ---------------------------------------------------------------

  lemma HitIffTaken(a: TrieView, p: Path, c: string)
    requires Placed(a) && Clear(a, c)
    ensures VerbHit(a, p, c).Some? <==> VerbTaken(a, p, c)
    ensures VerbTaken(a, p, c) ==>
              var i := LastIndex(c, ':'); VerbHit(a, p, c) == Some(a.entries[Place(Down(p, KLiteral(c[..i])), c[i + 1..])])
  {
    hide *;
    if VerbTaken(a, p, c) { TakenHits(a, p, c); }
    if VerbHit(a, p, c).Some? {
      var left, verb, more := VerbHitShape(a, p, c);
      ClearHit(a, p, left, verb, more);
      HitTakes(a, p, left, verb);
      assert c == left + [':'] + verb;
    }
  }

  lemma TakenHits(a: TrieView, p: Path, c: string)
    requires Placed(a) && VerbTaken(a, p, c)
    ensures var i := LastIndex(c, ':');
            && 0 <= i < |c| - 1 && Place(Down(p, KLiteral(c[..i])), c[i + 1..]) in a.entries
            && VerbHit(a, p, c) == Some(a.entries[Place(Down(p, KLiteral(c[..i])), c[i + 1..])])
  {
    var i := LastIndex(c, ':');
    hide VerbHit, LastIndex;
    VerbHitHere(a, p, c, i);
    assert Place(Down(p, KLiteral(c[..i])), c[i + 1..]).path in a.nodes;
  }

  lemma HitTakes(a: TrieView, p: Path, left: string, verb: string)
    requires verb != "" && ':' !in verb && Place(Down(p, KLiteral(left)), verb) in a.entries
    ensures VerbTaken(a, p, left + [':'] + verb)
  {
    hide LastIndex;
    var c := left + [':'] + verb;
    LastIndexAppend(left, ':', verb);
    assert c[..|left|] == left && c[|left| + 1..] == verb;
  }

  lemma NoneOvertaken(a: TrieView, p: Path, k: Key, parts: seq<string>)
    requires !AnyOvertaken(a, p, parts)
    requires |p.keys| < |parts| ==> !Overtaken(a, p, k, parts[|p.keys|])
    ensures !AnyOvertaken(a, Down(p, k), parts)
  {
    hide Overtaken;
    var q := Down(p, k);
    forall d | 0 <= d < |q.keys| && d < |parts| ensures !Overtaken(a, Front(q, d), q.keys[d], parts[d]) {
      if d < |p.keys| {
        assert Front(q, d) == Front(p, d) && q.keys[d] == p.keys[d];
      } else {
        assert Front(q, d) == p && q.keys[d] == k;
      }
    }
  }

  /** What is found at a leaf leads there. */
  lemma LeafLeads(a: TrieView, p: Path, orig: string, t: Template)
    requires Placed(a) && Clear(a, Last(Split(orig, '/'))) && MatchKeys(p.keys, Split(orig, '/'))
    requires !AnyOvertaken(a, p, Split(orig, '/')) && !EndTaken(a, p, Split(orig, '/'))
    requires LeafFinds(a, p, orig, t)
    ensures exists at :: Leads(a, at, p.httpMethod, orig) && a.entries[at] == t
  {
    hide MatchKeys, Clear, Placed, AnyOvertaken, EndTaken, EndsInLiteral, Split, Last, HasSuffix;
    if Place(p, "") in a.entries {
      assert Leads(a, Place(p, ""), p.httpMethod, orig);
    } else {
      var v :| v != "" && Place(p, v) in a.entries && HasSuffix(orig, ":" + v) && t == a.entries[Place(p, v)];
      LeafVerb(a, p, orig, v);
      NoLiteralLeaf(a, p, orig, v);
      assert Leads(a, Place(p, v), p.httpMethod, orig);
    }
  }

  lemma NoLiteralLeaf(a: TrieView, p: Path, orig: string, v: string)
    requires Placed(a) && Clear(a, Last(Split(orig, '/'))) && MatchKeys(p.keys, Split(orig, '/'))
    requires v != "" && Place(p, v) in a.entries && HasSuffix(orig, ":" + v)
    ensures !EndsInLiteral(p.keys)
  {
    hide *;
    SuffixFits(orig, ":" + v);
    var parts, rest := Split(orig, '/'), Split(orig[..|orig| - |v| - 1], '/');
    LeafClear(a, Place(p, v), Last(parts));
    VerbOffLast(orig, v);
    EndsLast(parts, rest, v);
    if EndsInLiteral(p.keys) { LiteralEnd(p.keys, parts); }
  }

  lemma LiteralEnd(keys: seq<Key>, parts: seq<string>)
    requires MatchKeys(keys, parts) && EndsInLiteral(keys) && parts != []
    ensures EndsIn(keys, Last(parts))
  {
  }

  lemma VerbLeads(a: TrieView, p: Path, orig: string, left: string, verb: string)
    requires var parts := Split(orig, '/');
             && |p.keys| == |parts| - 1 && AllFit(p.keys, parts) && Last(parts) == left + ":" + verb + ""
             && !AnyOvertaken(a, p, parts) && Down(p, KLiteral(Last(parts))) !in a.nodes
    requires verb != "" && ':' !in verb && Place(Down(p, KLiteral(left)), verb) in a.entries
    ensures Leads(a, Place(Down(p, KLiteral(left)), verb), p.httpMethod, orig)
  {
    hide *;
    var parts, at := Split(orig, '/'), Place(Down(p, KLiteral(left)), verb);
    VerbSound(a, p, orig, left, verb);
    LastIsEnd(parts, |p.keys|);
    LiteralNotOvertaken(a, p, left, Last(parts));
    NoneOvertaken(a, p, KLiteral(left), parts);
    VerbFree(a, at, parts, p, left);
    LeadsParts(a, at, p.httpMethod, orig);
  }

  lemma LiteralNotOvertaken(a: TrieView, p: Path, left: string, c: string)
    requires Down(p, KLiteral(c)) !in a.nodes
    ensures !Overtaken(a, p, KLiteral(left), c)
  {
  }

  lemma VerbFree(a: TrieView, at: Place, parts: seq<string>, p: Path, left: string)
    requires at.path == Down(p, KLiteral(left)) && !AnyOvertaken(a, at.path, parts) && ':' !in at.verb
    ensures !Blocked(a, at, parts) && at.path.httpMethod == p.httpMethod && at.path.keys == Down(p, KLiteral(left)).keys
  {
    hide AnyOvertaken;
  }

  lemma LeadsParts(a: TrieView, at: Place, m: string, orig: string)
    ensures Leads(a, at, m, orig) <==>
              && at in a.entries && at.path.httpMethod == m
              && Matches(at.path.keys, at.verb, orig) && !Blocked(a, at, Split(orig, '/'))
  {
    hide Matches, Blocked, Split;
  }

  /** Whatever dfs returns leads to the path. */
  lemma {:induction false} FoundLeads(a: TrieView, p: Path, orig: string, path: string, last: bool, t: Template, done: nat)
    requires Placed(a) && DfsFinds(a, p, orig, path, last, t)
    requires var parts := Split(orig, '/');
             && Clear(a, Last(parts))
             && |p.keys| == done && AllFit(p.keys, parts) && !AnyOvertaken(a, p, parts)
             && if last then done == |parts| && !EndTaken(a, p, parts)
                else done < |parts| && Split(path, '/') == parts[done..]
    ensures exists at :: Leads(a, at, p.httpMethod, orig) && a.entries[at] == t
    decreases if last then 0 else 1 + |path|
  {
    hide Placed, Clear, LeafFinds, AllFit, MatchKeys, VerbHit, Split, Last, Leads, AnyOvertaken, EndTaken, Overtaken, VerbTaken;
    var parts := Split(orig, '/');
    if last {
      NoMultiFits(p.keys, parts);
      LeafLeads(a, p, orig, t);
    } else {
      SplitStep(path);
      var component := Component(path);
      var end := SlashAt(path) == -1;
      StepParts(parts, done, path);
      if end {
        LastIsEnd(parts, done);
        HitIffTaken(a, p, component);
      }
      var lit, wild, multi := Down(p, KLiteral(component)), Down(p, KWildcard), Down(p, KMulti);
      if lit in a.nodes {
        FitMore(p.keys, parts, KLiteral(component));
        TakesLiteral(a, p, component, parts);
        FoundLeads(a, lit, orig, Remainder(path), end, t, done + 1);
      } else if end && VerbHit(a, p, component).Some? {
        var left, verb, more := VerbHitShape(a, p, component);
        ClearHit(a, p, left, verb, more);
        VerbLeads(a, p, orig, left, verb);
      } else if wild in a.nodes {
        FitMore(p.keys, parts, KWildcard);
        TakesWildcard(a, p, KWildcard, component, parts);
        FoundLeads(a, wild, orig, Remainder(path), end, t, done + 1);
      } else {
        MultiFits(p.keys, parts);
        TakesWildcard(a, p, KMulti, component, parts);
        LeafLeads(a, multi, orig, t);
      }
    }
  }

  lemma TakesLiteral(a: TrieView, p: Path, c: string, parts: seq<string>)
    requires |p.keys| < |parts| && parts[|p.keys|] == c && !AnyOvertaken(a, p, parts)
    ensures !AnyOvertaken(a, Down(p, KLiteral(c)), parts) && !EndTaken(a, Down(p, KLiteral(c)), parts)
  {
    hide AnyOvertaken;
    NoneOvertaken(a, p, KLiteral(c), parts);
  }

  lemma TakesWildcard(a: TrieView, p: Path, k: Key, c: string, parts: seq<string>)
    requires |p.keys| < |parts| && parts[|p.keys|] == c && !AnyOvertaken(a, p, parts) && !k.KLiteral?
    requires Down(p, KLiteral(c)) !in a.nodes && (k == KMulti ==> Down(p, KWildcard) !in a.nodes)
    requires |p.keys| + 1 == |parts| ==> !VerbTaken(a, p, c)
    ensures !AnyOvertaken(a, Down(p, k), parts) && !EndTaken(a, Down(p, k), parts)
  {
    hide AnyOvertaken, VerbTaken;
    NoneOvertaken(a, p, k, parts);
    assert Front(Down(p, k), |p.keys|) == p;
  }

  // ---- what leads is found ---------------------------------------------------------------

  /** What a match says about one edge. */
  predicate Fits(keys: seq<Key>, verb: string, parts: seq<string>, d: nat)
    requires d < |keys| && d < |parts|
  {
    match keys[d]
    case KMulti => d + 1 == |keys|
    case KWildcard => true
    case KLiteral(l) => if verb == "" || d + 1 < |parts| then l == parts[d] else parts[d] == l + (":" + verb)
  }

  lemma MatchFits(keys: seq<Key>, verb: string, orig: string)
    requires Matches(keys, verb, orig) && '/' !in verb
    ensures var parts := Split(orig, '/');
            && 0 < |keys| <= |parts| && (keys[|keys| - 1] != KMulti ==> |keys| == |parts|)
            && forall d :: 0 <= d < |keys| ==> Fits(keys, verb, parts, d)
  {
    hide Split, HasSuffix;
    if verb != "" {
      SuffixFits(orig, ":" + verb);
      VerbOffLast(orig, verb);
    }
  }

  lemma {:induction false} LeadsFound(a: TrieView, at: Place, m: string, orig: string, path: string, done: nat)
    requires Placed(a) && Grounded(a) && Clear(a, Last(Split(orig, '/'))) && Leads(a, at, m, orig)
    requires var parts := Split(orig, '/');
             done < |at.path.keys| && done < |parts| && Split(path, '/') == parts[done..]
    ensures DfsFinds(a, Front(at.path, done), orig, path, false, a.entries[at])
    decreases |path|
  {
    hide *;
    var parts, keys, p := Split(orig, '/'), at.path.keys, Front(at.path, done);
    LeadsParts(a, at, m, orig);
    EntryVerb(a, at);
    MatchFits(keys, at.verb, orig);
    SplitStep(path);
    StepParts(parts, done, path);
    var c, end := parts[done], SlashAt(path) == -1;
    if end {
      LastIsEnd(parts, done);
      HitIffTaken(a, p, c);
    }
    StepGrounded(a, at, done);
    Unblocked(a, at, parts, done);
    assert Fits(keys, at.verb, parts, done);
    FitsAt(keys, at.verb, parts, done);
    if end && at.verb != "" && keys[done].KLiteral? {
      ByVerb(a, at, orig, path, parts, done);
    } else if keys[done] == KMulti {
      LeafIsFound(a, at, orig);
      WholeFront(at.path);
      ByMulti(a, p, orig, path, a.entries[at]);
    } else {
      if end {
        LeafIsFound(a, at, orig);
        AtLeaf(a, at.path, orig, Remainder(path), a.entries[at]);
        WholeFront(at.path);
      } else {
        RemainderShorter(path);
        LeadsFound(a, at, m, orig, Remainder(path), done + 1);
      }
      ByStep(a, p, keys[done], orig, path, a.entries[at]);
    }
  }

  lemma EntryVerb(a: TrieView, at: Place)
    requires Placed(a) && at in a.entries
    ensures '/' !in at.verb && at.path in a.nodes
  {
  }

  lemma WholeFront(p: Path)
    ensures Front(p, |p.keys|) == p
  {
    assert p.keys[..|p.keys|] == p.keys;
  }

  lemma RemainderShorter(path: string)
    requires SlashAt(path) != -1
    ensures |Remainder(path)| < |path|
  {
  }

  lemma StepGrounded(a: TrieView, at: Place, d: nat)
    requires Grounded(a) && at in a.entries && d < |at.path.keys|
    ensures Down(Front(at.path, d), at.path.keys[d]) in a.nodes
    ensures Down(Front(at.path, d), at.path.keys[d]) == Front(at.path, d + 1)
  {
    assert at.path.keys[..d + 1] == at.path.keys[..d] + [at.path.keys[d]];
    assert Front(at.path, d + 1) in a.nodes;
  }

  /** What an unblocked template finds at one edge. */
  lemma Unblocked(a: TrieView, at: Place, parts: seq<string>, d: nat)
    requires !Blocked(a, at, parts) && d < |at.path.keys| && d < |parts|
    ensures var p, k, c := Front(at.path, d), at.path.keys[d], parts[d];
            && (k != KLiteral(c) ==> Down(p, KLiteral(c)) !in a.nodes)
            && (k == KMulti ==> Down(p, KWildcard) !in a.nodes)
            && (d + 1 == |at.path.keys| == |parts| && !k.KLiteral? ==> !VerbTaken(a, p, c))
    ensures at.verb != "" ==> if EndsInLiteral(at.path.keys) then ':' !in at.verb else Place(at.path, "") !in a.entries
  {
    hide VerbTaken;
    assert !Overtaken(a, Front(at.path, d), at.path.keys[d], parts[d]);
  }

  lemma FitsAt(keys: seq<Key>, verb: string, parts: seq<string>, d: nat)
    requires d < |keys| && d < |parts| && Fits(keys, verb, parts, d)
    requires keys[|keys| - 1] != KMulti ==> |keys| == |parts|
    requires |keys| <= |parts|
    ensures keys[d] == KMulti ==> d + 1 == |keys| && !EndsInLiteral(keys)
    ensures keys[d].KLiteral? ==>
              if verb == "" || d + 1 < |parts| then keys[d] == KLiteral(parts[d]) else parts[d] == keys[d].lit + (":" + verb)
    ensures keys[d] != KMulti && d + 1 == |parts| ==> d + 1 == |keys| && (EndsInLiteral(keys) <==> keys[d].KLiteral?)
    ensures keys[d] != KMulti && d + 1 < |parts| ==> d + 1 < |keys|
  {
  }

  /** Behind the last edge the leaf has the template. */
  lemma LeafIsFound(a: TrieView, at: Place, orig: string)
    requires at in a.entries && Matches(at.path.keys, at.verb, orig)
    requires at.verb != "" ==> Place(at.path, "") !in a.entries
    ensures LeafFinds(a, at.path, orig, a.entries[at])
  {
    hide MatchKeys, Split, HasSuffix;
    assert at == Place(at.path, at.verb);
  }

  lemma AtLeaf(a: TrieView, p: Path, orig: string, path: string, t: Template)
    requires LeafFinds(a, p, orig, t)
    ensures DfsFinds(a, p, orig, path, true, t)
  {
    hide LeafFinds;
  }

  lemma ByVerb(a: TrieView, at: Place, orig: string, path: string, parts: seq<string>, d: nat)
    requires at in a.entries && d + 1 == |at.path.keys| && d < |parts| && at.path.keys[d].KLiteral?
    requires SlashAt(path) == -1 && parts[d] == Component(path)
    requires parts[d] == at.path.keys[d].lit + (":" + at.verb) && at.verb != "" && ':' !in at.verb
    requires at.path in a.nodes && Down(Front(at.path, d), KLiteral(parts[d])) !in a.nodes
    ensures DfsFinds(a, Front(at.path, d), orig, path, false, a.entries[at])
  {
    hide VerbHit, LeafFinds, IndexAny;
    var p, left := Front(at.path, d), at.path.keys[d].lit;
    assert at.path.keys == p.keys + [KLiteral(left)];
    assert at == Place(Down(p, KLiteral(left)), at.verb);
    VerbIsHit(a, p, left, at.verb);
    assert parts[d] == left + [':'] + at.verb;
  }

  lemma VerbIsHit(a: TrieView, p: Path, left: string, verb: string)
    requires verb != "" && ':' !in verb && Down(p, KLiteral(left)) in a.nodes && Place(Down(p, KLiteral(left)), verb) in a.entries
    ensures VerbHit(a, p, left + [':'] + verb) == Some(a.entries[Place(Down(p, KLiteral(left)), verb)])
  {
    hide VerbHit, LastIndex;
    var c := left + [':'] + verb;
    LastIndexAppend(left, ':', verb);
    VerbHitHere(a, p, c, |left|);
    assert c[..|left|] == left && c[|left| + 1..] == verb;
  }

  lemma ByMulti(a: TrieView, p: Path, orig: string, path: string, t: Template)
    requires Down(p, KLiteral(Component(path))) !in a.nodes && Down(p, KWildcard) !in a.nodes && Down(p, KMulti) in a.nodes
    requires SlashAt(path) == -1 ==> VerbHit(a, p, Component(path)) == None
    requires LeafFinds(a, Down(p, KMulti), orig, t)
    ensures DfsFinds(a, p, orig, path, false, t)
  {
    hide VerbHit, LeafFinds, SlashAt;
  }

  lemma ByStep(a: TrieView, p: Path, k: Key, orig: string, path: string, t: Template)
    requires k == KLiteral(Component(path)) || k == KWildcard
    requires Down(p, k) in a.nodes && (k == KWildcard ==> Down(p, KLiteral(Component(path))) !in a.nodes)
    requires k == KWildcard && SlashAt(path) == -1 ==> VerbHit(a, p, Component(path)) == None
    requires DfsFinds(a, Down(p, k), orig, Remainder(path), SlashAt(path) == -1, t)
    ensures DfsFinds(a, p, orig, path, false, t)
  {
    hide VerbHit, LeafFinds, SlashAt;
  }

  // ---- Find ------------------------------------------------------------------------------

  /** Where nothing can lead it astray, Find returns exactly the templates of the method that match the path and are not
      blocked. */
  lemma FoundIff(a: TrieView, m: string, path: string, t: Template)
    requires Placed(a) && Grounded(a) && Clear(a, LastComponent(path))
    ensures Finds(a, m, path, t) <==> exists at :: Leads(a, at, m, TrimSlash(path)) && a.entries[at] == t
  {
    hide Placed, Grounded, Clear, DfsFinds, Split, Matches, Blocked, Last;
    var orig := TrimSlash(path);
    assert Split(orig, '/')[0..] == Split(orig, '/');
    if Finds(a, m, path, t) {
      NothingOvertaken(a, m, Split(orig, '/'));
      FoundLeads(a, Path(m, []), orig, orig, false, t, 0);
    }
    if at :| Leads(a, at, m, orig) && a.entries[at] == t {
      RootOnWay(a, at, m, orig);
      LeadsFound(a, at, m, orig, orig, 0);
    }
  }

  lemma NothingOvertaken(a: TrieView, m: string, parts: seq<string>)
    ensures !AnyOvertaken(a, Path(m, []), parts) && AllFit([], parts)
  {
  }

  lemma RootOnWay(a: TrieView, at: Place, m: string, orig: string)
    requires Placed(a) && Grounded(a) && Leads(a, at, m, orig)
    ensures at in a.entries && |at.path.keys| > 0 && Front(at.path, 0) == Path(m, []) && Path(m, []) in a.nodes
  {
    hide Blocked;
    MatchFits(at.path.keys, at.verb, orig);
    assert Front(at.path, 0) in a.nodes;
  }

  /** A result of Find: a template that leads to the path, or none when no template does. */
  ghost predicate Decided(a: TrieView, m: string, path: string, r: Option<Template>) {
    && (r.Some? ==> exists at :: Leads(a, at, m, TrimSlash(path)) && a.entries[at] == r.value)
    && (r.None? ==> forall at :: !Leads(a, at, m, TrimSlash(path)))
  }

  lemma FindDecides(a: TrieView, m: string, path: string, r: Option<Template>)
    requires Placed(a) && Grounded(a) && Clear(a, LastComponent(path))
    requires r.Some? ==> Finds(a, m, path, r.value)
    requires r.None? ==> forall t :: !Finds(a, m, path, t)
    ensures Decided(a, m, path, r)
  {
    hide Placed, Grounded, Clear, Finds, Matches, Blocked, LastComponent, TrimSlash;
    if r.Some? {
      FoundIff(a, m, path, r.value);
    } else {
      forall at ensures !Leads(a, at, m, TrimSlash(path)) {
        if Leads(a, at, m, TrimSlash(path)) {
          FoundIff(a, m, path, a.entries[at]);
        }
      }
    }
  }
}
