/** Templates written by hand: a variable `{path}` stands for `{path=*}` wherever it is written, and the canonical name
    of an RPC is a template of two literals. */
module GwShorthand {
  import opened Text
  import opened PathChars
  import opened Lexing
  import opened FieldPaths
  import opened GwTemplate
  import opened GwShape
  import opened GwRoundTrip
  import opened GwInverse

  // ---- variables written without a body ------------------------------------------------

  /** A variable whose body is the default one. */
  predicate Plain(s: Segment) {
    s.Variable? && s.segments == [Wildcard]
  }

  /** A segment as it may be written: a plain variable also without its body. */
  function Written(s: Segment, short: bool): string {
    if short && Plain(s) then "{" + s.path + "}" else Show(s)
  }

  /** The segments joined with "/"; `shorts` says which plain variables are written without their body. */
  function WrittenAll(ss: seq<Segment>, shorts: seq<bool>): string
    requires |shorts| == |ss|
  {
    if ss == [] then ""
    else if |ss| == 1 then Written(ss[0], shorts[0])
    else Written(ss[0], shorts[0]) + "/" + WrittenAll(ss[1..], shorts[1..])
  }

  ghost function WrittenTokens(s: Segment, short: bool): seq<string>
    requires SegmentOk(s)
  {
    if short && Plain(s) then
      var comps :| IsPathOf(comps, s.path);
      ["{"] + PathTokens(comps) + ["}"]
    else TokensOf(s)
  }

  ghost function WrittenFront(ss: seq<Segment>, shorts: seq<bool>): seq<string>
    requires SegmentsOk(ss) && |shorts| == |ss|
  {
    if |ss| == 1 then [] else WrittenTokens(ss[0], shorts[0]) + ["/"] + WrittenFront(ss[1..], shorts[1..])
  }

  lemma LexWrittenVariable(s: Segment, short: bool, rest: string)
    requires SegmentOk(s) && s.Variable?
    ensures Tokens(InSegments, Written(s, short) + rest) == WrittenTokens(s, short) + Tokens(InSegments, rest)
  {
    hide *;
    if short && Plain(s) {
      var comps := ShortParts(s);
      LexPlain(comps, s.path, rest);
    } else {
      LongParts(s, short);
      LexVariable(s, rest);
    }
  }

  lemma ShortParts(s: Segment) returns (comps: seq<string>)
    requires SegmentOk(s) && Plain(s)
    ensures s == Variable(s.path, [Wildcard]) && IsPathOf(comps, s.path)
    ensures Written(s, true) == "{" + s.path + "}" && WrittenTokens(s, true) == ["{"] + PathTokens(comps) + ["}"]
  {
    hide IsPathOf;
    comps :| IsPathOf(comps, s.path) && WrittenTokens(s, true) == ["{"] + PathTokens(comps) + ["}"];
  }

  lemma LongParts(s: Segment, short: bool)
    requires SegmentOk(s) && !(short && Plain(s))
    ensures Written(s, short) == Show(s) && WrittenTokens(s, short) == TokensOf(s)
  {
  }

  lemma LexPlain(comps: seq<string>, path: string, rest: string)
    requires IsPathOf(comps, path)
    ensures Tokens(InSegments, "{" + path + "}" + rest) == ["{"] + PathTokens(comps) + ["}"] + Tokens(InSegments, rest)
  {
    hide *;
    var more := Tokens(InSegments, rest);
    NextStates();
    assert "{" + path + "}" + rest == "" + ['{'] + (path + ['}'] + rest);
    TokensStep(InSegments, "", '{', path + ['}'] + rest);
    LexPath(comps, path, '}', rest);
    assert ["{"] + (PathTokens(comps) + ["}"] + more) == ["{"] + PathTokens(comps) + ["}"] + more;
  }

  lemma NextStates()
    ensures Next(InSegments, '{') == InField && Next(InField, '}') == InSegments
    ensures '{' in Separators(InSegments) && !Has("", Separators(InSegments))
  {
  }

  lemma NotShort(s: Segment, short: bool)
    requires SegmentOk(s) && !s.Variable?
    ensures Written(s, short) == Show(s) && WrittenTokens(s, short) == TokensOf(s)
  {
  }

  lemma LexWrittenThen(s: Segment, short: bool, rest: string)
    requires SegmentOk(s)
    ensures Tokens(InSegments, Written(s, short) + (['/'] + rest)) ==
              WrittenTokens(s, short) + ["/"] + Tokens(InSegments, rest)
  {
    hide *;
    if s.Variable? {
      LexWrittenVariable(s, short, ['/'] + rest);
      NoSeparators();
      LexSlash("", rest);
      assert "" + (['/'] + rest) == ['/'] + rest;
      RegroupSlash(WrittenTokens(s, short), Tokens(InSegments, rest));
    } else {
      NotShort(s, short);
      LexThen(s, rest);
    }
  }

  lemma NoSeparators()
    ensures !Has("", "/{")
  {
  }

  lemma Parts(ss: seq<Segment>, shorts: seq<bool>)
    requires SegmentsOk(ss) && |shorts| == |ss| > 1
    ensures SegmentOk(ss[0]) && SegmentsOk(ss[1..])
    ensures WrittenAll(ss, shorts) == Written(ss[0], shorts[0]) + "/" + WrittenAll(ss[1..], shorts[1..])
    ensures WrittenFront(ss, shorts) ==
              WrittenTokens(ss[0], shorts[0]) + ["/"] + WrittenFront(ss[1..], shorts[1..])
  {
    hide SegmentOk, Written, WrittenTokens;
    assert forall k :: 0 <= k < |ss[1..]| ==> ss[1..][k] == ss[k + 1];
  }

  lemma One(ss: seq<Segment>, shorts: seq<bool>)
    requires SegmentsOk(ss) && |shorts| == |ss| == 1
    ensures SegmentOk(ss[0])
    ensures WrittenAll(ss, shorts) == Written(ss[0], shorts[0]) && WrittenFront(ss, shorts) == []
  {
    hide SegmentOk, Written, WrittenTokens;
  }

  lemma {:induction false} LexWritten(ss: seq<Segment>, shorts: seq<bool>, more: string)
    requires SegmentsOk(ss) && |shorts| == |ss|
    ensures Tokens(InSegments, WrittenAll(ss, shorts) + more) == WrittenFront(ss, shorts) +
              Tokens(InSegments, Written(ss[|ss| - 1], shorts[|ss| - 1]) + more)
    decreases |ss|
  {
    hide *;
    SomeSegments(ss);
    if |ss| == 1 {
      One(ss, shorts);
    } else {
      Parts(ss, shorts);
      LexWritten(ss[1..], shorts[1..], more);
      var s, tail := Written(ss[0], shorts[0]), WrittenAll(ss[1..], shorts[1..]);
      GwRoundTrip.Regroup(s, tail, more);
      LexWrittenThen(ss[0], shorts[0], tail + more);
    }
  }

  lemma SomeSegments(ss: seq<Segment>)
    requires SegmentsOk(ss)
    ensures |ss| > 0 && SegmentOk(ss[|ss| - 1])
  {
  }

  lemma ParseWritten(s: Segment, short: bool, rest: seq<string>)
    requires SegmentOk(s) && Ends(rest)
    ensures Ends(WrittenTokens(s, short) + rest) && SegmentOf(WrittenTokens(s, short) + rest) == Got(s, rest)
  {
    hide *;
    EndsBehind(WrittenTokens(s, short), rest);
    if short && Plain(s) {
      var comps := ShortParts(s);
      var names := PathTokens(comps) + (["}"] + rest);
      EndsBehind(["}"], rest);
      EndsBehind(PathTokens(comps), ["}"] + rest);
      ParsePath(comps, s.path, ["}"] + rest);
      PathJoined(comps, s.path, ["}"] + rest, names);
      assert ["{"] + PathTokens(comps) + ["}"] + rest == ["{"] + names;
      PlainStep(s.path, rest, names);
    } else {
      LongParts(s, short);
      ParseSegment(s, rest);
    }
  }

  lemma PathJoined(comps: seq<string>, path: string, rest: seq<string>, names: seq<string>)
    requires IsPathOf(comps, path) && Ends(names) && ComponentsOf(names) == Got(comps, rest)
    ensures FieldPathOf(names) == Got(path, rest)
  {
    hide ComponentsOf;
  }

  /** A "}" right behind the path of a variable gives it the body "*". */
  lemma PlainStep(path: string, rest: seq<string>, names: seq<string>)
    requires Ends(rest) && Ends(names) && FieldPathOf(names) == Got(path, ["}"] + rest)
    ensures Ends(["{"] + names) && SegmentOf(["{"] + names) == Got(Variable(path, [Wildcard]), rest)
  {
    hide SegmentsOf, FieldPathOf, ComponentsOf;
    assert (["}"] + rest)[1..] == rest && (["{"] + names)[1..] == names;
    assert BodyOf(["}"] + rest) == Got([Wildcard], ["}"] + rest);
    assert VariableOf(["{"] + names) == Got(Variable(path, [Wildcard]), rest);
    assert "{"[0] == '{' && !IsPlainPChar('{');
    assert !Accepts(Lit, "{");
  }

  lemma {:induction false} ParseWrittenFront(ss: seq<Segment>, shorts: seq<bool>, rest: seq<string>)
    requires SegmentsOk(ss) && |shorts| == |ss| && Ends(rest)
    ensures Ends(WrittenFront(ss, shorts) + rest)
    ensures SegmentsOf(WrittenFront(ss, shorts) + rest) == Prepend(ss[..|ss| - 1], SegmentsOf(rest))
    decreases |ss|
  {
    hide *;
    SomeSegments(ss);
    if |ss| == 1 {
      One(ss, shorts);
      assert [] + rest == rest && ss[..0] == [];
      PrependNone(SegmentsOf(rest));
    } else {
      Parts(ss, shorts);
      var tail := ss[1..];
      ParseWrittenFront(tail, shorts[1..], rest);
      var more := WrittenFront(tail, shorts[1..]) + rest;
      var mine := WrittenTokens(ss[0], shorts[0]);
      RegroupFront(mine, WrittenFront(tail, shorts[1..]), rest);
      SlashBefore(more);
      EndsBehind(mine, ["/"] + more);
      ParseWritten(ss[0], shorts[0], ["/"] + more);
      SegmentsStep(ss[0], mine + (["/"] + more), ["/"] + more);
      assert (["/"] + more)[1..] == more;
      assert [ss[0]] + tail[..|tail| - 1] == ss[..|ss| - 1];
      PrependTwice([ss[0]], tail[..|tail| - 1], SegmentsOf(rest));
    }
  }

  lemma PrependNone(p: Parsed<seq<Segment>>)
    ensures Prepend([], p) == p
  {
    if p.Got? { assert [] + p.value == p.value; }
  }

  lemma SlashBefore(more: seq<string>)
    requires Ends(more)
    ensures Ends(["/"] + more)
  {
  }

  lemma EndsBehind(a: seq<string>, rest: seq<string>)
    requires Ends(rest)
    ensures Ends(a + rest)
  {
  }

  lemma ParseWrittenLast(s: Segment, short: bool)
    requires SegmentOk(s)
    ensures SegmentsOf(WrittenTokens(s, short) + [EOF]) == Got([s], [EOF])
  {
    hide SegmentOf, SegmentsOf, WrittenTokens;
    ParseWritten(s, short, [EOF]);
    SegmentsStep(s, WrittenTokens(s, short) + [EOF], [EOF]);
  }

  /** Whichever plain variables of a template are written without their body, parsing gives back the same segments and
      the same verb. */
  lemma ShortFormParses(ss: seq<Segment>, shorts: seq<bool>, verb: string)
    requires SegmentsOk(ss) && VerbFits(ss[|ss| - 1], verb) && |shorts| == |ss|
    ensures var text := "/" + WrittenAll(ss, shorts) + Tail(verb);
            ParseOf(text) == Some(Template(ss, verb, text))
  {
    hide *;
    SomeSegments(ss);
    var n := |ss| - 1;
    var last, short, front := ss[n], shorts[n], WrittenFront(ss, shorts);
    var path := WrittenAll(ss, shorts) + Tail(verb);
    LexWritten(ss, shorts, Tail(verb));
    WrittenFrontEnds(ss, shorts);
    SplitWritten(front, last, short, verb);
    SomethingSplit(path, front + WrittenTokens(last, short), verb);
    EndsAnyway(front, WrittenTokens(last, short));
    ParseWrittenLast(last, short);
    ParseWrittenFront(ss, shorts, WrittenTokens(last, short) + [EOF]);
    PrependLast(ss);
    AllConsumed(front + WrittenTokens(last, short) + [EOF], ss);
    assert "/" + WrittenAll(ss, shorts) + Tail(verb) == "/" + path;
    SlashPath(path, ss, verb);
  }

  lemma {:induction false} WrittenFrontEnds(ss: seq<Segment>, shorts: seq<bool>)
    requires SegmentsOk(ss) && |shorts| == |ss|
    ensures var f := WrittenFront(ss, shorts); f == [] || f[|f| - 1] == "/"
    decreases |ss|
  {
    hide *;
    SomeSegments(ss);
    if |ss| == 1 {
      One(ss, shorts);
    } else {
      Parts(ss, shorts);
      WrittenFrontEnds(ss[1..], shorts[1..]);
    }
  }

  lemma SplitWritten(f: seq<string>, last: Segment, short: bool, verb: string)
    requires SegmentOk(last) && VerbFits(last, verb) && (f == [] || f[|f| - 1] == "/")
    ensures Tokens(InSegments, Written(last, short) + Tail(verb)) != []
    ensures SplitVerb(f + Tokens(InSegments, Written(last, short) + Tail(verb))) == (f + WrittenTokens(last, short), verb)
  {
    hide *;
    FitsParts(last, verb);
    TailIsWord(verb);
    var mine := WrittenTokens(last, short);
    if last.Variable? {
      LexWrittenVariable(last, short, Tail(verb));
      TailTokens(verb);
      WrittenBrace(last, short);
      var behind := if verb == "" then [] else [Tail(verb)];
      assert f + (mine + behind) == (f + mine) + behind;
      SplitAfterVariable(f + mine, verb);
    } else {
      NotShort(last, short);
      LastWord(last);
      WordPlain(last);
      WordWithTail(Show(last), Tail(verb));
      OneWordPath(Show(last) + Tail(verb));
      SplitWord(f, Show(last), verb);
    }
  }

  lemma FitsParts(last: Segment, verb: string)
    requires VerbFits(last, verb)
    ensures !Has(verb, "/{") && (!last.Variable? ==> ':' !in verb) && (verb == "" && last.Literal? ==> ':' !in last.lit)
  {
  }

  lemma TailTokens(verb: string)
    requires !Has(Tail(verb), "/{")
    ensures Tokens(InSegments, Tail(verb)) == if verb == "" then [] else [Tail(verb)]
  {
    hide Tokens, Has;
    TokensLast(InSegments, Tail(verb));
  }

  lemma WrittenBrace(s: Segment, short: bool)
    requires SegmentOk(s) && s.Variable?
    ensures var ts := WrittenTokens(s, short); ts != [] && ts[|ts| - 1] == "}"
  {
    if !(short && Plain(s)) { LastBrace(s); }
  }

  lemma WordPlain(s: Segment)
    requires SegmentOk(s) && !s.Variable?
    ensures !Has(Show(s), "/{")
  {
    FlatIsWord(InSegments, s);
  }

  lemma SomethingSplit(path: string, toks: seq<string>, verb: string)
    requires Tokens(InSegments, path) != [] && SplitVerb(Tokens(InSegments, path)) == (toks, verb)
    ensures Tokenize(path) == (toks + [EOF], verb)
  {
    hide SplitVerb;
  }

  lemma SlashPath(path: string, ss: seq<Segment>, verb: string)
    requires Tokenize(path).1 == verb && TopLevelOf(Tokenize(path).0) == Some(ss)
    ensures ParseOf("/" + path) == Some(Template(ss, verb, "/" + path))
  {
    hide Tokenize, TopLevelOf;
    assert ("/" + path)[1..] == path;
  }

  // ---- canonical RPC names -------------------------------------------------------------

  /** The name of an RPC, as gRPC calls it over HTTP/2. */
  function CanonicalRpcName(service: string, rpc: string): string {
    "/" + service + "/" + rpc
  }

  /** The canonical name of every RPC is a template: the literals of its service and of its method, without a verb. So
      every RPC has its default binding. */
  lemma RpcNameParses(service: string, rpc: string)
    requires IsFieldPath(service) && IsIdent(rpc)
    ensures var name := CanonicalRpcName(service, rpc);
            ParseOf(name) == Some(Template([Literal(service), Literal(rpc)], "", name))
  {
    var comps :| IsPathOf(comps, service);
    var ss := [Literal(service), Literal(rpc)];
    hide *;
    PathIsLiteral(comps, service);
    IdentIsLiteral(rpc);
    TwoLiterals(service, rpc);
    PrintThenParse(ss, "");
  }

  lemma TwoLiterals(a: string, b: string)
    requires FlatOk(Literal(a)) && FlatOk(Literal(b)) && ':' !in b
    ensures var ss := [Literal(a), Literal(b)]; WellFormed(ss, "") && ShowTemplate(ss, "") == CanonicalRpcName(a, b)
  {
    hide FlatOk;
    var ss := [Literal(a), Literal(b)];
    assert ss[1..] == [Literal(b)];
    assert !Has("", "/{");
    assert ShowAll(ss[1..]) == Show(Literal(b)) == b && Show(ss[0]) == a;
    assert ShowAll(ss) == a + "/" + b;
    assert "/" + (a + "/" + b) + "" == "/" + a + "/" + b;
  }

  lemma IdentIsLiteral(t: string)
    requires IsIdent(t)
    ensures FlatOk(Literal(t)) && ':' !in t
  {
    WordChars(t);
    hide IsPChars;
    assert forall k :: 0 <= k < |t| ==> IsIdentChar(t[k]);
    assert forall k :: 0 <= k < |t| ==> t[k] != ':' && t[k] != '*';
  }

  lemma {:induction false} WordChars(t: string)
    requires forall k :: 0 <= k < |t| ==> IsIdentChar(t[k]) || t[k] == '.'
    ensures IsPChars(t)
  {
    if t != "" {
      assert forall k :: 0 <= k < |t[1..]| ==> t[1..][k] == t[k + 1];
      WordChars(t[1..]);
      assert IsPlainPChar(t[0]);
    }
  }

  lemma PathIsLiteral(comps: seq<string>, path: string)
    requires IsPathOf(comps, path)
    ensures FlatOk(Literal(path))
  {
    PathWordChars(comps, path);
    WordChars(path);
    hide IsPChars, Join;
    assert path[0] != '*';
  }

  lemma {:induction false} PathWordChars(comps: seq<string>, path: string)
    requires IsPathOf(comps, path)
    ensures path != "" && forall k :: 0 <= k < |path| ==> IsIdentChar(path[k]) || path[k] == '.'
    decreases |comps|
  {
    if |comps| > 1 {
      PathParts(comps, path);
      var more := Join(comps[1..], ".");
      PathWordChars(comps[1..], more);
      assert path == comps[0] + "." + more;
      hide Join;
      assert IsIdent(comps[0]);
    }
  }
}
