/** When what Find returns matches the request path. */
module TrieFind {
  import opened Text
  import opened HttpRule
  import opened TrieModel

  /** An edge fits one path component. */
  predicate KeyFits(k: Key, component: string) {
    k == KWildcard || k == KLiteral(component)
  }

  predicate AllFit(keys: seq<Key>, components: seq<string>) {
    |keys| <= |components| && forall i :: 0 <= i < |keys| ==> KeyFits(keys[i], components[i])
  }

  /** Edges match a whole path: one component each, the final "**" one or more. */
  predicate MatchKeys(keys: seq<Key>, components: seq<string>) {
    if keys != [] && keys[|keys| - 1] == KMulti then
      |components| >= |keys| && AllFit(keys[..|keys| - 1], components)
    else |components| == |keys| && AllFit(keys, components)
  }

  /** The path, with the verb taken off its end, matches the edges. */
  predicate Matches(keys: seq<Key>, verb: string, path: string) {
    if verb == "" then MatchKeys(keys, Split(path, '/'))
    else HasSuffix(path, ":" + verb) && MatchKeys(keys, Split(path[..|path| - |verb| - 1], '/'))
  }

  /** Some template of the trie under this method matches the whole path, and it is `t`. */
  ghost predicate RightlyFound(a: TrieView, m: string, path: string, t: Template) {
    exists at :: at in a.entries && a.entries[at] == t && at.path.httpMethod == m && Matches(at.path.keys, at.verb, path)
  }

  /** Verbs have no slash, and entries lie on nodes. */
  ghost predicate Placed(a: TrieView) {
    forall at :: at in a.entries ==> '/' !in at.verb && at.path in a.nodes
  }

  predicate EndsIn(keys: seq<Key>, lit: string) {
    keys != [] && keys[|keys| - 1] == KLiteral(lit)
  }

  /** The component starts with the literal, a colon, the verb and another colon. */
  predicate Cuts(left: string, verb: string, c: string) {
    var head := left + ":" + verb;
    verb != "" && ':' !in verb && |head| < |c| && c[..|head|] == head && c[|head|] == ':'
  }

  /** No template sits where the last component `c` of a path could lead Find astray: behind `c` itself with a verb
      that ends it, or behind what precedes one of its inner pieces with that piece as the verb. */
  ghost predicate Clear(a: TrieView, c: string) {
    && (forall at :: at in a.entries && at.verb != "" && EndsIn(at.path.keys, c) ==> !HasSuffix(c, ":" + at.verb))
    && (forall at, left :: at in a.entries && EndsIn(at.path.keys, left) ==> !Cuts(left, at.verb, c))
  }

  // ---- splitting -----------------------------------------------------------------------

  lemma {:induction false} SplitPlain(s: string)
    requires '/' !in s
    ensures Split(s, '/') == [s]
    decreases |s|
  {
    if s != "" {
      assert s == [s[0]] + s[1..];
      SplitPlain(s[1..]);
    }
  }

  lemma {:induction false} SplitStep(s: string)
    ensures Split(s, '/') == if SlashAt(s) < 0 then [s] else [Component(s)] + Split(Remainder(s), '/')
    decreases |s|
  {
    hide *;
    if SlashAt(s) < 0 {
      NoSlash(s);
      SplitPlain(s);
    } else {
      SlashFound(s);
      SplitUnfold(s);
      ComponentParts(s);
      if s[0] == '/' {
        SlashFirst(s);
      } else {
        SplitStep(s[1..]);
        SlashBehind(s);
        ComponentParts(s[1..]);
        LaterParts(s, SlashAt(s));
        Consed(s[0], Component(s[1..]), Split(Remainder(s[1..]), '/'));
      }
    }
  }

  lemma SplitUnfold(s: string)
    requires s != ""
    ensures Split(s, '/') == var rest := Split(s[1..], '/'); if s[0] == '/' then [""] + rest else [[s[0]] + rest[0]] + rest[1..]
  {
  }

  lemma SlashFound(s: string)
    requires SlashAt(s) >= 0
    ensures SlashAt(s) < |s|
  {
  }

  lemma ComponentParts(s: string)
    requires SlashAt(s) >= 0
    ensures Component(s) == s[..SlashAt(s)] && Remainder(s) == s[SlashAt(s) + 1..]
  {
    hide IndexAny;
  }

  lemma SlashFirst(s: string)
    requires s != "" && s[0] == '/'
    ensures SlashAt(s) == 0 && s[..0] == ""
  {
    IndexAnyAt(s, "/", 0);
  }

  lemma LaterParts(s: string, i: nat)
    requires 0 < i < |s|
    ensures [s[0]] + s[1..][..i - 1] == s[..i] && s[1..][i..] == s[i + 1..]
  {
  }

  lemma Consed(c: char, first: string, rest: seq<string>)
    ensures var all := [first] + rest; [[c] + all[0]] + all[1..] == [[c] + first] + rest
  {
  }

  lemma NoSlash(s: string)
    requires SlashAt(s) < 0
    ensures '/' !in s
  {
    assert forall k :: 0 <= k < |s| && s[k] == '/' ==> s[k] in "/";
  }

  lemma SlashBehind(s: string)
    requires s != "" && s[0] != '/' && SlashAt(s) >= 0
    ensures SlashAt(s[1..]) == SlashAt(s) - 1 >= 0
  {
  }

  /** `parts` is `rest` with a tail on its last part. */
  predicate TailAdded(parts: seq<string>, rest: seq<string>, tail: string) {
    && |parts| == |rest| > 0
    && parts[|parts| - 1] == rest[|rest| - 1] + tail
    && forall i :: 0 <= i < |parts| - 1 ==> parts[i] == rest[i]
  }

  /** A tail without slashes joins the last component. */
  lemma {:induction false} SplitAppend(x: string, tail: string)
    requires '/' !in tail
    ensures TailAdded(Split(x + tail, '/'), Split(x, '/'), tail)
    decreases |x|
  {
    if x == "" {
      assert x + tail == tail;
      SplitPlain(tail);
    } else {
      SplitAppend(x[1..], tail);
      assert (x + tail)[0] == x[0] && (x + tail)[1..] == x[1..] + tail;
      TailAddedStep(x[0], Split(x[1..] + tail, '/'), Split(x[1..], '/'), tail);
    }
  }

  lemma TailAddedStep(c: char, parts: seq<string>, rest: seq<string>, tail: string)
    requires TailAdded(parts, rest, tail)
    ensures TailAdded([""] + parts, [""] + rest, tail)
    ensures TailAdded([[c] + parts[0]] + parts[1..], [[c] + rest[0]] + rest[1..], tail)
  {
    if |parts| == 1 {
      assert [c] + (rest[0] + tail) == [c] + rest[0] + tail;
    }
  }

  lemma {:induction false} LastIsSuffix(s: string)
    ensures HasSuffix(s, Last(Split(s, '/')))
    decreases |s|
  {
    if s != "" {
      LastIsSuffix(s[1..]);
      var rest := Split(s[1..], '/');
      if s[0] != '/' && |rest| == 1 {
        WholeIsOnly(s[1..]);
        assert [s[0]] + s[1..] == s;
      } else {
        LastBehind(s[0], rest);
        SuffixOfTail(s, Last(rest));
      }
    }
  }

  function Last(parts: seq<string>): string
    requires |parts| > 0
  {
    parts[|parts| - 1]
  }

  lemma LastBehind(c: char, rest: seq<string>)
    requires |rest| > 0
    ensures Last([""] + rest) == Last(rest)
    ensures |rest| > 1 ==> Last([[c] + rest[0]] + rest[1..]) == Last(rest)
  {
  }

  lemma SuffixOfTail(s: string, t: string)
    requires s != "" && HasSuffix(s[1..], t)
    ensures HasSuffix(s, t)
  {
    assert s[|s| - |t|..] == s[1..][|s| - 1 - |t|..];
  }

  lemma {:induction false} WholeIsOnly(s: string)
    requires |Split(s, '/')| == 1
    ensures Split(s, '/')[0] == s
    decreases |s|
  {
    if s != "" {
      assert s == [s[0]] + s[1..];
      if s[0] != '/' { WholeIsOnly(s[1..]); }
    }
  }

  /** Taking a verb off the path takes it off the last component. */
  lemma VerbOffLast(path: string, verb: string)
    requires '/' !in verb && HasSuffix(path, ":" + verb)
    ensures TailAdded(Split(path, '/'), Split(path[..|path| - |verb| - 1], '/'), ":" + verb)
  {
    var x := path[..|path| - |verb| - 1];
    assert path == x + (":" + verb);
    hide *;
    SplitAppend(x, ":" + verb);
  }

  // ---- soundness -----------------------------------------------------------------------

  /** A hit of the verb loop takes some piece between two colons, or behind the last one, as the verb. */
  lemma {:induction false} VerbHitShape(a: TrieView, p: Path, c: string) returns (left: string, verb: string, more: string)
    requires VerbHit(a, p, c).Some?
    ensures c == left + ":" + verb + more && ':' !in verb && verb != ""
    ensures more == "" || more[0] == ':'
    ensures var at := Place(Down(p, KLiteral(left)), verb);
            at in a.entries && a.entries[at] == VerbHit(a, p, c).value
    decreases |c|
  {
    hide *;
    var idx := VerbHitAt(a, p, c);
    left, verb, more := c[..idx], c[idx + 1..], "";
    var at := Place(Down(p, KLiteral(left)), verb);
    CutAtColon(c, idx);
    if Down(p, KLiteral(left)) in a.nodes && verb != "" && at in a.entries {
      assert left + ":" + verb + "" == left + ":" + verb;
    } else {
      var tail := ":" + verb;
      left, verb, more := VerbHitShape(a, p, c[..idx]);
      MoreTail(left + ":" + verb, more, tail);
      more := more + tail;
    }
  }

  lemma VerbHitAt(a: TrieView, p: Path, c: string) returns (idx: nat)
    requires VerbHit(a, p, c).Some?
    ensures idx == LastIndex(c, ':') < |c| && c[idx] == ':' && ':' !in c[idx + 1..]
    ensures var left, verb := c[..idx], c[idx + 1..];
            var at := Place(Down(p, KLiteral(left)), verb);
            VerbHit(a, p, c) == if Down(p, KLiteral(left)) in a.nodes && verb != "" && at in a.entries
                                then Some(a.entries[at]) else VerbHit(a, p, left)
  {
    idx := LastIndex(c, ':');
  }

  lemma VerbHitHere(a: TrieView, p: Path, c: string, idx: nat)
    requires idx == LastIndex(c, ':') < |c|
    ensures var left, verb := c[..idx], c[idx + 1..];
            var at := Place(Down(p, KLiteral(left)), verb);
            VerbHit(a, p, c) == if Down(p, KLiteral(left)) in a.nodes && verb != "" && at in a.entries
                                then Some(a.entries[at]) else VerbHit(a, p, left)
  {
  }

  lemma CutAtColon(c: string, idx: nat)
    requires idx < |c| && c[idx] == ':'
    ensures c == c[..idx] + ":" + c[idx + 1..] == c[..idx] + (":" + c[idx + 1..])
  {
  }

  lemma MoreTail(a: string, more: string, tail: string)
    requires (more == "" || more[0] == ':') && tail != "" && tail[0] == ':'
    ensures a + more + tail == a + (more + tail) && (more + tail)[0] == ':'
  {
  }

  /** In a clear component the verb of a hit reaches to the end. */
  lemma ClearHit(a: TrieView, p: Path, left: string, verb: string, more: string)
    requires Clear(a, left + ":" + verb + more) && Place(Down(p, KLiteral(left)), verb) in a.entries
    requires ':' !in verb && verb != "" && (more == "" || more[0] == ':')
    ensures more == ""
  {
    var c, head := left + ":" + verb + more, left + ":" + verb;
    assert EndsIn(Down(p, KLiteral(left)).keys, left);
    assert c[..|head|] == head;
    assert more != "" ==> Cuts(left, verb, c);
  }

  /** Where a leaf is reached along edges that fit the whole path, the returned template matches it. */
  lemma LeafSound(a: TrieView, p: Path, orig: string, t: Template)
    requires Placed(a) && Clear(a, Last(Split(orig, '/'))) && MatchKeys(p.keys, Split(orig, '/'))
    requires LeafFinds(a, p, orig, t)
    ensures RightlyFound(a, p.httpMethod, orig, t)
  {
    hide MatchKeys, Clear;
    if Place(p, "") in a.entries {
      assert Matches(p.keys, "", orig);
    } else {
      var v :| v != "" && Place(p, v) in a.entries && HasSuffix(orig, ":" + v) && t == a.entries[Place(p, v)];
      LeafVerb(a, p, orig, v);
      assert Matches(p.keys, v, orig);
    }
  }

  lemma LeafVerb(a: TrieView, p: Path, orig: string, v: string)
    requires Placed(a) && Clear(a, Last(Split(orig, '/'))) && MatchKeys(p.keys, Split(orig, '/'))
    requires v != "" && Place(p, v) in a.entries && HasSuffix(orig, ":" + v)
    ensures MatchKeys(p.keys, Split(orig[..|orig| - |v| - 1], '/'))
  {
    hide *;
    SuffixFits(orig, ":" + v);
    var parts, rest := Split(orig, '/'), Split(orig[..|orig| - |v| - 1], '/');
    LeafClear(a, Place(p, v), Last(parts));
    VerbOffLast(orig, v);
    EndsLast(parts, rest, v);
    WithoutVerb(p.keys, parts, rest, v);
  }

  lemma SuffixFits(s: string, suffix: string)
    requires HasSuffix(s, suffix)
    ensures |suffix| <= |s|
  {
  }

  lemma LeafClear(a: TrieView, at: Place, c: string)
    requires Placed(a) && Clear(a, c) && at in a.entries && at.verb != ""
    ensures '/' !in at.verb && (EndsIn(at.path.keys, c) ==> !HasSuffix(c, ":" + at.verb))
  {
  }

  lemma EndsLast(parts: seq<string>, rest: seq<string>, v: string)
    requires TailAdded(parts, rest, ":" + v)
    ensures parts != [] && HasSuffix(Last(parts), ":" + v)
  {
    assert Last(parts)[|Last(rest)|..] == ":" + v;
  }

  /** Another last component does not matter to a wildcard; a literal that is not the old one never took it. */
  lemma WithoutVerb(keys: seq<Key>, parts: seq<string>, rest: seq<string>, v: string)
    requires MatchKeys(keys, parts) && TailAdded(parts, rest, ":" + v) && !EndsIn(keys, Last(parts))
    ensures MatchKeys(keys, rest)
  {
  }

  /** Whatever dfs returns matches the path. */
  lemma {:induction false} DfsSound(a: TrieView, p: Path, orig: string, path: string, last: bool, t: Template, done: nat)
    requires Placed(a) && DfsFinds(a, p, orig, path, last, t)
    requires var parts := Split(orig, '/');
             && Clear(a, Last(parts))
             && |p.keys| == done && AllFit(p.keys, parts)
             && if last then done == |parts| else done < |parts| && Split(path, '/') == parts[done..]
    ensures RightlyFound(a, p.httpMethod, orig, t)
    decreases if last then 0 else 1 + |path|
  {
    hide Placed, Clear, LeafFinds, AllFit, MatchKeys, VerbHit, Split, Last, RightlyFound;
    var parts := Split(orig, '/');
    if last {
      NoMultiFits(p.keys, parts);
      LeafSound(a, p, orig, t);
    } else {
      SplitStep(path);
      var component := Component(path);
      var end := SlashAt(path) == -1;
      StepParts(parts, done, path);
      var lit, wild, multi := Down(p, KLiteral(component)), Down(p, KWildcard), Down(p, KMulti);
      if lit in a.nodes {
        FitMore(p.keys, parts, KLiteral(component));
        DfsSound(a, lit, orig, Remainder(path), end, t, done + 1);
      } else if end && VerbHit(a, p, component).Some? {
        LastIsEnd(parts, done);
        var left, verb, more := VerbHitShape(a, p, component);
        ClearHit(a, p, left, verb, more);
        VerbSound(a, p, orig, left, verb);
      } else if wild in a.nodes {
        FitMore(p.keys, parts, KWildcard);
        DfsSound(a, wild, orig, Remainder(path), end, t, done + 1);
      } else {
        MultiFits(p.keys, parts);
        LeafSound(a, multi, orig, t);
      }
    }
  }

  lemma LastIsEnd(parts: seq<string>, done: nat)
    requires done + 1 == |parts|
    ensures Last(parts) == parts[done]
  {
  }

  lemma NoMultiFits(keys: seq<Key>, parts: seq<string>)
    requires |keys| == |parts| && AllFit(keys, parts)
    ensures MatchKeys(keys, parts)
  {
  }

  lemma StepParts(parts: seq<string>, done: nat, path: string)
    requires done < |parts| && Split(path, '/') == parts[done..]
    requires Split(path, '/') == if SlashAt(path) < 0 then [path] else [Component(path)] + Split(Remainder(path), '/')
    ensures parts[done] == Component(path)
    ensures SlashAt(path) == -1 ==> done + 1 == |parts|
    ensures SlashAt(path) != -1 ==> done + 1 < |parts| && Split(Remainder(path), '/') == parts[done + 1..]
  {
    assert parts[done..][0] == parts[done];
    if SlashAt(path) != -1 {
      assert parts[done..][1..] == parts[done + 1..];
    }
  }

  lemma FitMore(keys: seq<Key>, parts: seq<string>, k: Key)
    requires AllFit(keys, parts) && |keys| < |parts| && KeyFits(k, parts[|keys|])
    ensures AllFit(keys + [k], parts)
  {
  }

  lemma MultiFits(keys: seq<Key>, parts: seq<string>)
    requires AllFit(keys, parts) && |keys| < |parts|
    ensures MatchKeys(keys + [KMulti], parts)
  {
    assert (keys + [KMulti])[..|keys|] == keys;
  }

  /** A hit of the verb loop on the last component matches the path. */
  lemma VerbSound(a: TrieView, p: Path, orig: string, left: string, verb: string)
    requires var parts := Split(orig, '/');
             && |p.keys| == |parts| - 1 && AllFit(p.keys, parts)
             && Last(parts) == left + ":" + verb + ""
    requires verb != ""
    requires Place(Down(p, KLiteral(left)), verb) in a.entries
    ensures Matches(Down(p, KLiteral(left)).keys, verb, orig)
    ensures RightlyFound(a, p.httpMethod, orig, a.entries[Place(Down(p, KLiteral(left)), verb)])
  {
    var parts := Split(orig, '/');
    LastIsSuffix(orig);
    VerbPieces(Last(parts), left, verb);
    SuffixOfSuffix(orig, Last(parts), ":" + verb);
    VerbOffLast(orig, verb);
    var rest := Split(orig[..|orig| - |verb| - 1], '/');
    FitLast(p.keys, parts, rest, left, verb);
    assert Matches(Down(p, KLiteral(left)).keys, verb, orig);
  }

  lemma VerbPieces(c: string, left: string, verb: string)
    requires c == left + ":" + verb + "" && '/' !in c
    ensures HasSuffix(c, ":" + verb) && '/' !in verb
  {
    assert c[|left| + 1..] == verb && c[|left|..] == ":" + verb;
  }

  lemma FitLast(keys: seq<Key>, parts: seq<string>, rest: seq<string>, left: string, verb: string)
    requires TailAdded(parts, rest, ":" + verb) && Last(parts) == left + ":" + verb + ""
    requires |keys| == |parts| - 1 && AllFit(keys, parts)
    ensures MatchKeys(keys + [KLiteral(left)], rest)
  {
    SameTail(Last(rest), left, verb);
  }

  lemma SameTail(a: string, b: string, verb: string)
    requires a + (":" + verb) == b + ":" + verb + ""
    ensures a == b
  {
    assert |a| == |b|;
    assert forall i :: 0 <= i < |a| ==> a[i] == (a + (":" + verb))[i] && b[i] == (b + ":" + verb + "")[i];
  }

  lemma SuffixOfSuffix(s: string, t: string, u: string)
    requires HasSuffix(s, t) && HasSuffix(t, u)
    ensures HasSuffix(s, u)
  {
    assert s[|s| - |u|..] == s[|s| - |t|..][|t| - |u|..];
  }

  // ---- finding -------------------------------------------------------------------------

  /** The last component of the path as Find sees it. */
  function LastComponent(path: string): string {
    Last(Split(TrimSlash(path), '/'))
  }

  /** Where nothing can lead it astray, whatever Find returns matches the path. */
  lemma FindSound(a: TrieView, m: string, path: string, t: Template)
    requires Placed(a) && Clear(a, LastComponent(path)) && Finds(a, m, path, t)
    ensures RightlyFound(a, m, TrimSlash(path), t)
  {
    hide Placed, Clear, DfsFinds, Split, RightlyFound;
    var orig := TrimSlash(path);
    assert Split(orig, '/')[0..] == Split(orig, '/');
    DfsSound(a, Path(m, []), orig, orig, false, t, 0);
  }
}
