/** Exactly what the parser of internal/httprule accepts, and as what. */
module HttpRuleExact {
  import opened Text
  import opened PathChars
  import opened Lexing
  import opened FieldPaths
  import opened HttpRule
  import opened HttpRuleSound
  import opened HttpRuleShape
  import opened HttpRuleMade
  import opened HttpRuleInverse
  import opened HttpRuleExpanded

  predicate AllOk(ss: seq<Segment>) {
    ss != [] && forall k :: 0 <= k < |ss| ==> SegmentOk(ss[k])
  }

  /** What may stand behind the last segment: any verb of pchars behind a variable, none behind a wildcard; behind a
      literal, a verb without a colon, or the colon alone. */
  predicate EndFits(last: Segment, verb: string, colon: bool) {
    match last
    case Literal(l) => IsWordLit(l + Behind(verb, colon)) && ':' !in verb && (verb == "" && !colon ==> ':' !in l)
    case Variable(_, _) => SegmentOk(last) && IsPChars(verb)
    case _ => verb == "" && !colon
  }

  /** The segments and the verb of a template that some text parses to. Only the last segment may take more than one
      component. */
  predicate WellMade(ss: seq<Segment>, verb: string, colon: bool) {
    || (ss == [Literal("")] && verb == "" && !colon)
    || (ss != [] && var last := ss[|ss| - 1];
        && (forall k :: 0 <= k < |ss| - 1 ==> SegmentOk(ss[k]) && !HasMulti(ss[k])) && EndFits(last, verb, colon))
  }

  /** The template written out; `colon` puts a colon in place of an empty verb. */
  function Printed(ss: seq<Segment>, verb: string, colon: bool): string {
    "/" + (ShowAll(ss) + Behind(verb, colon))
  }

  // ---- the printed form splits into the expected tokens ----------------------------------

  function SegTokens(s: Segment): seq<string>
    requires SegmentOk(s)
  {
    match s
    case Variable(path, body) => ["{"] + PathTokens(path) + ["="] + AllTokens(body) + ["}"]
    case _ => [Show(s)]
  }

  function AllTokens(ss: seq<Segment>): seq<string>
    requires AllOk(ss)
  {
    if |ss| == 1 then SegTokens(ss[0]) else SegTokens(ss[0]) + ["/"] + AllTokens(ss[1..])
  }

  function MoreTokens(more: string): seq<string> {
    if more == "" then [] else [more]
  }

  lemma Tail(ss: seq<Segment>)
    requires AllOk(ss)
    ensures |ss| > 0 && SegmentOk(ss[0]) && SegmentOk(ss[|ss| - 1])
    ensures |ss| == 1 ==> ShowAll(ss) == Show(ss[0]) && AllTokens(ss) == SegTokens(ss[0])
    ensures |ss| > 1 ==>
              var tail := ss[1..];
              && AllOk(tail) && tail[|tail| - 1] == ss[|ss| - 1] && ShowAll(ss) == Show(ss[0]) + "/" + ShowAll(tail)
              && AllTokens(ss) == SegTokens(ss[0]) + ["/"] + AllTokens(tail)
  {
    hide SegmentOk, Show, SegTokens;
  }

  lemma WordTokens(s: Segment)
    requires SegmentOk(s) && !s.Variable?
    ensures SegTokens(s) == [Show(s)] && Show(s) != "" && IsPChars(Show(s)) && FlatOk(s)
  {
    assert IsPChars("*") && IsPChars("**");
  }

  lemma PCharsPlain(w: string, st: LexState)
    requires IsPChars(w) && st != InField
    ensures !Has(w, Separators(st))
  {
    PCharsAvoid(w, Separators(st));
  }

  lemma VariableParts(s: Segment)
    requires SegmentOk(s) && s.Variable?
    ensures IsPathOf(s.fieldPath, Join(s.fieldPath, ".")) && AllOk(s.segments) && AllFlats(s.segments)
    ensures MultiLast(s.segments, HasMulti(s))
    ensures Show(s) == "{" + Join(s.fieldPath, ".") + "=" + ShowAll(s.segments) + "}"
    ensures SegTokens(s) == ["{"] + PathTokens(s.fieldPath) + ["="] + AllTokens(s.segments) + ["}"]
  {
    hide IsWordLit, IsIdent, HasMulti, ShowAll, Join, PathTokens, AllTokens;
  }

  predicate AllFlats(ss: seq<Segment>) {
    forall k :: 0 <= k < |ss| ==> FlatOk(ss[k])
  }

  lemma FlatTail(ss: seq<Segment>)
    requires AllFlats(ss) && ss != []
    ensures FlatOk(ss[0]) && SegmentOk(ss[0]) && !ss[0].Variable? && AllFlats(ss[1..])
  {
    hide IsWordLit;
  }

  lemma {:induction false} LexBody(body: seq<Segment>, rest: string)
    requires AllOk(body) && AllFlats(body)
    ensures Tokens(InNested, ShowAll(body) + "}" + rest) == AllTokens(body) + ["}"] + Tokens(InSegments, rest)
    decreases |body|
  {
    hide *;
    Tail(body);
    FlatTail(body);
    var s := body[0];
    WordTokens(s);
    PCharsPlain(Show(s), InNested);
    NestedStates();
    if |body| == 1 {
      assert ShowAll(body) + "}" + rest == Show(s) + ['}'] + rest;
      TokensStep(InNested, Show(s), '}', rest);
      assert [Show(s), "}"] == [Show(s)] + ["}"];
    } else {
      var left := ShowAll(body[1..]) + "}" + rest;
      LexBody(body[1..], rest);
      assert Show(s) + "/" + ShowAll(body[1..]) + "}" + rest == Show(s) + ['/'] + left;
      TokensStep(InNested, Show(s), '/', left);
      ThreeTokens([Show(s)], AllTokens(body[1..]), ["}"], Tokens(InSegments, rest));
      assert [Show(s), "/"] == [Show(s)] + ["/"];
    }
  }

  lemma NestedStates()
    ensures '}' in Separators(InNested) && '/' in Separators(InNested)
    ensures Next(InNested, '}') == InSegments && Next(InNested, '/') == InNested
    ensures '{' in Separators(InSegments) && Next(InSegments, '{') == InField && Next(InField, '=') == InNested
    ensures '/' in Separators(InSegments) && Next(InSegments, '/') == InSegments && !Has("", Separators(InSegments))
  {
  }

  lemma ThreeTokens(a: seq<string>, b: seq<string>, c: seq<string>, d: seq<string>)
    ensures a + ["/"] + (b + c + d) == a + ["/"] + b + c + d
  {
  }

  lemma LexVariable(s: Segment, rest: string)
    requires SegmentOk(s) && s.Variable?
    ensures Tokens(InSegments, Show(s) + rest) == SegTokens(s) + Tokens(InSegments, rest)
  {
    hide *;
    VariableParts(s);
    NestedStates();
    var path, body := Join(s.fieldPath, "."), ShowAll(s.segments);
    var left := body + "}" + rest;
    VariableSplit(path, body, rest);
    TokensStep(InSegments, "", '{', path + ['='] + left);
    LexPath(s.fieldPath, path, '=', left);
    LexBody(s.segments, rest);
    FiveTokens(PathTokens(s.fieldPath), AllTokens(s.segments), Tokens(InSegments, rest));
  }

  lemma VariableSplit(path: string, body: string, rest: string)
    ensures "{" + path + "=" + body + "}" + rest == "" + ['{'] + (path + ['='] + (body + "}" + rest))
  {
  }

  lemma FiveTokens(a: seq<string>, b: seq<string>, c: seq<string>)
    ensures ["{"] + (a + ["="] + (b + ["}"] + c)) == ["{"] + a + ["="] + b + ["}"] + c
  {
  }

  lemma LexThen(s: Segment, rest: string)
    requires SegmentOk(s)
    ensures Tokens(InSegments, Show(s) + (['/'] + rest)) == SegTokens(s) + ["/"] + Tokens(InSegments, rest)
  {
    hide *;
    NestedStates();
    if s.Variable? {
      LexVariable(s, ['/'] + rest);
      TokensStep(InSegments, "", '/', rest);
      assert "" + ['/'] + rest == ['/'] + rest;
      assert SegTokens(s) + (["/"] + Tokens(InSegments, rest)) == SegTokens(s) + ["/"] + Tokens(InSegments, rest);
    } else {
      WordTokens(s);
      PCharsPlain(Show(s), InSegments);
      TokensStep(InSegments, Show(s), '/', rest);
      assert Show(s) + ['/'] + rest == Show(s) + (['/'] + rest);
      assert [Show(s), "/"] == [Show(s)] + ["/"];
    }
  }

  lemma {:induction false} LexAll(ss: seq<Segment>, more: string)
    requires AllOk(ss) && !Has(more, Separators(InSegments)) && (ss[|ss| - 1].Variable? || more == "")
    ensures Tokens(InSegments, ShowAll(ss) + more) == AllTokens(ss) + MoreTokens(more)
    decreases |ss|
  {
    hide *;
    Tail(ss);
    if |ss| == 1 {
      LexLast(ss[0], more);
    } else {
      LexAll(ss[1..], more);
      assert Show(ss[0]) + "/" + ShowAll(ss[1..]) + more == Show(ss[0]) + (['/'] + (ShowAll(ss[1..]) + more));
      LexThen(ss[0], ShowAll(ss[1..]) + more);
      assert SegTokens(ss[0]) + ["/"] + (AllTokens(ss[1..]) + MoreTokens(more)) ==
             SegTokens(ss[0]) + ["/"] + AllTokens(ss[1..]) + MoreTokens(more);
    }
  }

  lemma LexLast(s: Segment, more: string)
    requires SegmentOk(s) && !Has(more, Separators(InSegments)) && (s.Variable? || more == "")
    ensures Tokens(InSegments, Show(s) + more) == SegTokens(s) + MoreTokens(more)
  {
    hide *;
    MoreParts(more);
    if s.Variable? {
      LexVariable(s, more);
      TokensLast(InSegments, more);
    } else {
      WordTokens(s);
      PCharsPlain(Show(s), InSegments);
      TokensLast(InSegments, Show(s));
      assert Show(s) + "" == Show(s) && [Show(s)] + [] == [Show(s)];
    }
  }

  lemma MoreParts(more: string)
    ensures MoreTokens(more) == if more == "" then [] else [more]
  {
  }

  // ---- the expected tokens parse to the segments -----------------------------------------

  /** Whatever follows, the tokens of the segment parse to it. */
  ghost predicate Parses(s: Segment)
    requires SegmentOk(s)
  {
    forall rest: seq<string> {:trigger SegTokens(s) + rest} :: Ends(rest) ==>
      Ends(SegTokens(s) + rest) && SegmentOf(SegTokens(s) + rest) == Got(One(s, HasMulti(s)), rest)
  }

  predicate SingleMulti(ss: seq<Segment>) {
    forall k :: 0 <= k < |ss| - 1 ==> !HasMulti(ss[k])
  }

  lemma ParseOne(s: Segment, rest: seq<string>)
    requires SegmentOk(s) && Parses(s) && Ends(rest)
    ensures Ends(SegTokens(s) + rest) && SegmentOf(SegTokens(s) + rest) == Got(One(s, HasMulti(s)), rest)
  {
    hide SegTokens, SegmentOf, Ends, HasMulti;
    var _ := SegTokens(s) + rest;
  }

  lemma {:induction false} ParseAll(ss: seq<Segment>, rest: seq<string>)
    requires AllOk(ss) && SingleMulti(ss) && Ends(rest) && rest[0] != "/"
    requires forall k :: 0 <= k < |ss| ==> Parses(ss[k])
    ensures Ends(AllTokens(ss) + rest)
    ensures SegmentsOf(AllTokens(ss) + rest) == Got(Run(ss, HasMulti(ss[|ss| - 1])), rest)
    decreases |ss|
  {
    hide *;
    Tail(ss);
    var s := ss[0];
    assert Parses(s);
    if |ss| == 1 {
      ParseOne(s, rest);
      SegmentsStep(One(s, HasMulti(s)), SegTokens(s) + rest, rest);
      assert ss == [s];
    } else {
      var tail := ss[1..];
      SingleTail(ss);
      ParseAll(tail, rest);
      var more := AllTokens(tail) + rest;
      SlashEnds(more);
      ParseOne(s, ["/"] + more);
      SegmentsStep(One(s, false), SegTokens(s) + (["/"] + more), ["/"] + more);
      assert (["/"] + more)[1..] == more;
      assert SegTokens(s) + ["/"] + AllTokens(tail) + rest == SegTokens(s) + (["/"] + more);
      PrependOne(s, tail, HasMulti(tail[|tail| - 1]), rest);
      assert [s] + tail == ss;
    }
  }

  lemma SingleTail(ss: seq<Segment>)
    requires SingleMulti(ss) && |ss| > 1
    ensures SingleMulti(ss[1..]) && !HasMulti(ss[0])
  {
    hide HasMulti;
  }

  lemma SlashEnds(more: seq<string>)
    requires Ends(more)
    ensures Ends(["/"] + more) && (["/"] + more)[0] == "/"
  {
  }

  lemma PrependOne(s: Segment, tail: seq<Segment>, multi: bool, rest: seq<string>)
    ensures Prepend([s], Got(Run(tail, multi), rest)) == Got(Run([s] + tail, multi), rest)
  {
  }

  lemma ParseFlat(s: Segment)
    requires FlatOk(s)
    ensures SegmentOk(s) && Parses(s)
  {
    WordShown(s);
    hide SegmentOf, IsPChars;
    forall rest: seq<string> | Ends(rest)
      ensures Ends(SegTokens(s) + rest) && SegmentOf(SegTokens(s) + rest) == Got(One(s, HasMulti(s)), rest)
    {
      FlatSegment(s, rest);
    }
  }

  lemma WordShown(s: Segment)
    requires FlatOk(s)
    ensures SegmentOk(s) && SegTokens(s) == [Show(s)]
  {
  }

  lemma FlatSegment(s: Segment, rest: seq<string>)
    requires FlatOk(s) && Ends(rest)
    ensures Ends([Show(s)] + rest) && SegmentOf([Show(s)] + rest) == Got(One(s, HasMulti(s)), rest)
  {
    var toks := [Show(s)] + rest;
    assert toks[1..] == rest && toks[0] == Show(s);
    hide VariableOf, IsPChars;
  }

  lemma ParseBody(body: seq<Segment>, rest: seq<string>)
    requires AllOk(body) && AllFlats(body) && SingleMulti(body) && Ends(rest) && rest[0] != "/"
    ensures Ends(AllTokens(body) + rest)
    ensures SegmentsOf(AllTokens(body) + rest) == Got(Run(body, HasMulti(body[|body| - 1])), rest)
  {
    forall k | 0 <= k < |body| ensures Parses(body[k]) {
      hide FlatOk, Parses;
      ParseFlat(body[k]);
    }
    hide *;
    ParseAll(body, rest);
  }

  lemma {:induction false} ParsePath(path: seq<string>, rest: seq<string>)
    requires path != [] && AllIdents(path) && Ends(rest) && rest[0] != "."
    ensures Ends(PathTokens(path) + rest) && FieldPathOf(PathTokens(path) + rest) == Got(path, rest)
    decreases |path|
  {
    hide *;
    TokensParts(path);
    IdentsTail(path);
    if |path| == 1 {
      LastName(path[0], rest);
      assert path == [path[0]];
    } else {
      var more := PathTokens(path[1..]) + rest;
      ParsePath(path[1..], rest);
      assert [path[0], "."] + PathTokens(path[1..]) + rest == [path[0], "."] + more;
      NameThen(path[0], path[1..], more, rest);
      assert [path[0]] + path[1..] == path;
    }
  }

  lemma IdentsTail(path: seq<string>)
    requires path != [] && AllIdents(path)
    ensures IsIdent(path[0]) && AllIdents(path[1..])
  {
    hide IsIdent;
  }

  lemma LastName(name: string, rest: seq<string>)
    requires IsIdent(name) && Ends(rest) && rest[0] != "."
    ensures Ends([name] + rest) && FieldPathOf([name] + rest) == Got([name], rest)
  {
    hide FieldPathOf, IsIdent;
    assert ([name] + rest)[1..] == rest;
    PathStep([name] + rest);
    assert [name] + [] == [name];
  }

  lemma NameThen(name: string, path: seq<string>, more: seq<string>, rest: seq<string>)
    requires IsIdent(name) && Ends(more) && FieldPathOf(more) == Got(path, rest)
    ensures Ends([name, "."] + more) && FieldPathOf([name, "."] + more) == Got([name] + path, rest)
  {
    hide FieldPathOf, IsIdent;
    var toks := [name, "."] + more;
    assert toks[1..] == ["."] + more && toks[1..][1..] == more;
    PathStep(toks);
  }

  lemma ParseVariable(s: Segment)
    requires SegmentOk(s) && s.Variable?
    ensures Parses(s)
  {
    hide SegmentOf, SegmentOk, SegTokens, HasMulti;
    forall rest: seq<string> | Ends(rest)
      ensures Ends(SegTokens(s) + rest) && SegmentOf(SegTokens(s) + rest) == Got(One(s, HasMulti(s)), rest)
    {
      VariableSegment(s, rest);
    }
  }

  lemma VariableSegment(s: Segment, rest: seq<string>)
    requires SegmentOk(s) && s.Variable? && Ends(rest)
    ensures Ends(SegTokens(s) + rest) && SegmentOf(SegTokens(s) + rest) == Got(One(s, HasMulti(s)), rest)
  {
    hide *;
    VariableParts(s);
    VariableKnown(s);
    var body, close := s.segments, ["}"] + rest;
    CloseEnds(rest);
    ParseBody(body, close);
    var inner := AllTokens(body) + close;
    EqualsEnds(inner);
    ParsePath(s.fieldPath, ["="] + inner);
    var names := PathTokens(s.fieldPath) + (["="] + inner);
    FiveTokens(PathTokens(s.fieldPath), AllTokens(body), rest);
    SixTokens(PathTokens(s.fieldPath), AllTokens(body), rest);
    BodyIsSegments(["="] + inner);
    BraceEnds(names);
    BracesParse(["{"] + names, s.fieldPath, ["="] + inner, Run(body, HasMulti(s)), close);
    NoWordSegment(["{"] + names);
  }

  lemma VariableKnown(s: Segment)
    requires SegmentOk(s) && s.Variable?
    ensures s.fieldPath != [] && AllIdents(s.fieldPath) && s.segments != [] && SingleMulti(s.segments)
    ensures HasMulti(s.segments[|s.segments| - 1]) == HasMulti(s)
    ensures Variable(s.fieldPath, s.segments) == s
  {
    hide IsWordLit, IsIdent, HasMulti;
  }

  lemma SixTokens(a: seq<string>, b: seq<string>, c: seq<string>)
    ensures ["{"] + a + ["="] + b + ["}"] + c == ["{"] + (a + (["="] + (b + (["}"] + c))))
  {
  }

  lemma CloseEnds(rest: seq<string>)
    requires Ends(rest)
    ensures Ends(["}"] + rest) && (["}"] + rest)[0] == "}" && (["}"] + rest)[1..] == rest
  {
  }

  lemma EqualsEnds(toks: seq<string>)
    requires Ends(toks)
    ensures Ends(["="] + toks) && (["="] + toks)[0] == "=" && (["="] + toks)[1..] == toks
  {
  }

  lemma BraceEnds(toks: seq<string>)
    requires Ends(toks)
    ensures Ends(["{"] + toks) && (["{"] + toks)[0] == "{" && (["{"] + toks)[1..] == toks
    ensures !IsWord("{")
  {
    BraceIsNoWord();
  }

  // ---- the printed form parses -----------------------------------------------------------

  lemma ParseOk(ss: seq<Segment>, rest: seq<string>)
    requires AllOk(ss) && SingleMulti(ss) && Ends(rest) && rest[0] != "/"
    ensures Ends(AllTokens(ss) + rest)
    ensures SegmentsOf(AllTokens(ss) + rest) == Got(Run(ss, HasMulti(ss[|ss| - 1])), rest)
  {
    forall k | 0 <= k < |ss| ensures Parses(ss[k]) {
      assert SegmentOk(ss[k]);
      hide *;
      if ss[k].Variable? {
        ParseVariable(ss[k]);
      } else {
        WordTokens(ss[k]);
        ParseFlat(ss[k]);
      }
    }
    hide *;
    ParseAll(ss, rest);
  }

  /** Segments with their tokens and the verb behind them make the text a template. */
  lemma TextParses(ss: seq<Segment>, more: string, cut: Cut)
    requires AllOk(ss) && SingleMulti(ss) && !Has(more, Separators(InSegments)) && (ss[|ss| - 1].Variable? || more == "")
    requires more != "/" && Ends(MoreTokens(more) + [EOF])
    requires CutVerb(ss, MoreTokens(more) + [EOF]) == Some(cut) && Ends(cut.left) && cut.left[0] == EOF
    ensures var text := "/" + (ShowAll(ss) + more); ParseOf(text) == Some(Template(text, cut.segments, cut.verb))
  {
    hide *;
    var path := ShowAll(ss) + more;
    var rest := MoreTokens(more) + [EOF];
    LexAll(ss, more);
    MoreParts(more);
    EndNoSlash();
    ParseOk(ss, rest);
    assert AllTokens(ss) + MoreTokens(more) + [EOF] == AllTokens(ss) + rest;
    FirstNoEnd(ss, rest);
    ParseByTokens("/" + path, path, AllTokens(ss) + rest, ss, rest);
  }

  lemma EndNoSlash()
    ensures EOF != "/"
  {
  }

  lemma FirstNoEnd(ss: seq<Segment>, rest: seq<string>)
    requires AllOk(ss)
    ensures AllTokens(ss) + rest != [] && (AllTokens(ss) + rest)[0] != EOF
  {
    Tail(ss);
    var s := ss[0];
    hide *;
    if s.Variable? {
      VariableParts(s);
    } else {
      WordTokens(s);
      LiteralIsPlain(InSegments, Show(s));
    }
    BraceNoEnd();
  }

  lemma BraceNoEnd()
    ensures EOF != "{"
  {
  }

  /** Every well-made template is what its text parses to. */
  lemma PrintedParses(ss: seq<Segment>, verb: string, colon: bool)
    requires WellMade(ss, verb, colon)
    ensures var text := Printed(ss, verb, colon); ParseOf(text) == Some(Template(text, ss, verb))
  {
    if ss == [Literal("")] && verb == "" && !colon {
      RootParses();
    } else {
      var last := ss[|ss| - 1];
      if last.Literal? {
        LiteralParses(ss, verb, colon);
      } else if last.Variable? {
        VariableParses(ss, verb, colon);
      } else {
        WildcardParses(ss);
      }
    }
  }

  lemma RootParses()
    ensures Printed([Literal("")], "", false) == "/" && ParseOf("/") == Some(Template("/", [Literal("")], ""))
  {
    hide Tokens, SegmentsOf;
    assert "/"[1..] == "";
    TokensLast(InSegments, "");
    assert [] + [EOF] == [EOF];
  }

  lemma WildcardParses(ss: seq<Segment>)
    requires WellMade(ss, "", false) && !ss[|ss| - 1].Literal? && !ss[|ss| - 1].Variable?
    ensures var text := Printed(ss, "", false); ParseOf(text) == Some(Template(text, ss, ""))
  {
    assert AllOk(ss) && SingleMulti(ss);
    assert Behind("", false) == "" && MoreTokens("") + [EOF] == [EOF];
    assert !Has("", Separators(InSegments));
    hide ShowAll, ParseOf, SegmentOk, HasMulti;
    TextParses(ss, "", Cut(ss, "", [EOF]));
  }

  lemma VariableParses(ss: seq<Segment>, verb: string, colon: bool)
    requires WellMade(ss, verb, colon) && ss[|ss| - 1].Variable?
    ensures var text := Printed(ss, verb, colon); ParseOf(text) == Some(Template(text, ss, verb))
  {
    hide *;
    VariableMade(ss, verb, colon);
    var more := Behind(verb, colon);
    VerbBehindPlain(verb, colon);
    var n := |ss| - 1;
    assert ss == ss[..n] + [ss[n]];
    VariableCut(ss[..n], ss[n], verb);
    VerbToken(ss, verb, colon);
    TextParses(ss, more, Cut(ss, verb, [EOF]));
    PrintedParts(ss, verb, colon);
  }

  lemma VariableMade(ss: seq<Segment>, verb: string, colon: bool)
    requires WellMade(ss, verb, colon) && ss[|ss| - 1].Variable?
    ensures |ss| > 0 && AllOk(ss) && SingleMulti(ss) && IsPChars(verb)
  {
    hide SegmentOk, HasMulti, IsPChars;
  }

  lemma PrintedParts(ss: seq<Segment>, verb: string, colon: bool)
    ensures Printed(ss, verb, colon) == "/" + (ShowAll(ss) + Behind(verb, colon))
  {
  }

  lemma VerbBehindPlain(verb: string, colon: bool)
    requires IsPChars(verb)
    ensures var more := Behind(verb, colon); !Has(more, Separators(InSegments)) && more != "/"
  {
    var more := Behind(verb, colon);
    if more != "" {
      assert more == ":" + verb && more[0] == ':';
      ColonWord(verb);
      hide IsPChars;
      PCharsPlain(more, InSegments);
    }
  }

  lemma VerbToken(ss: seq<Segment>, verb: string, colon: bool)
    requires ss != [] && ss[|ss| - 1].Variable?
    requires Ends([":" + verb, EOF]) && CutVerb(ss, [":" + verb, EOF]) == Some(Cut(ss, verb, [EOF]))
    ensures var toks := MoreTokens(Behind(verb, colon)) + [EOF]; Ends(toks) && CutVerb(ss, toks) == Some(Cut(ss, verb, [EOF]))
    ensures [EOF][0] == EOF
  {
    var more := Behind(verb, colon);
    if more == "" {
      assert MoreTokens(more) + [EOF] == [EOF];
    } else {
      assert more == ":" + verb && MoreTokens(more) + [EOF] == [":" + verb, EOF];
    }
  }

  lemma LiteralParses(ss: seq<Segment>, verb: string, colon: bool)
    requires WellMade(ss, verb, colon) && ss[|ss| - 1].Literal? && !(ss == [Literal("")] && verb == "" && !colon)
    ensures var text := Printed(ss, verb, colon); ParseOf(text) == Some(Template(text, ss, verb))
  {
    hide *;
    WordMade(ss, verb, colon);
    var n := |ss| - 1;
    var lit, more := ss[n].lit, Behind(verb, colon);
    var ws := ss[n := Literal(lit + more)];
    WordLast(ss, lit + more);
    WordCutsOff(ss, verb, colon);
    assert ws[n := Literal(lit)] == ss;
    ShownWord(lit, more);
    ShowAllLast(ws, Literal(lit), more);
    NothingMore(ShowAll(ws));
    TextParses(ws, "", Cut(ss, verb, [EOF]));
    PrintedParts(ss, verb, colon);
  }

  lemma WordMade(ss: seq<Segment>, verb: string, colon: bool)
    requires WellMade(ss, verb, colon) && ss[|ss| - 1].Literal? && !(ss == [Literal("")] && verb == "" && !colon)
    ensures |ss| > 0 && forall k :: 0 <= k < |ss| - 1 ==> SegmentOk(ss[k]) && !HasMulti(ss[k])
    ensures var lit := ss[|ss| - 1].lit;
            IsWordLit(lit + Behind(verb, colon)) && ':' !in verb && (verb == "" && !colon ==> ':' !in lit)
  {
    hide SegmentOk, HasMulti, IsWordLit, Behind;
  }

  lemma ShownWord(lit: string, more: string)
    ensures Show(Literal(lit + more)) == Show(Literal(lit)) + more
  {
  }

  lemma NothingMore(s: string)
    ensures s + "" == s && "" != "/" && MoreTokens("") + [EOF] == [EOF] && Ends([EOF]) && [EOF][0] == EOF
    ensures !Has("", Separators(InSegments))
  {
  }

  lemma WordLast(ss: seq<Segment>, w: string)
    requires ss != [] && IsWordLit(w) && forall k :: 0 <= k < |ss| - 1 ==> SegmentOk(ss[k]) && !HasMulti(ss[k])
    ensures var ws := ss[|ss| - 1 := Literal(w)]; AllOk(ws) && SingleMulti(ws)
  {
    hide IsWordLit;
    assert SegmentOk(Literal(w)) by { assert FlatOk(Literal(w)); }
    hide SegmentOk, HasMulti;
  }

  /** The verb comes off the word it was written to. */
  lemma WordCutsOff(ss: seq<Segment>, verb: string, colon: bool)
    requires ss != [] && ss[|ss| - 1].Literal? && ':' !in verb
    requires verb == "" && !colon ==> ':' !in ss[|ss| - 1].lit
    ensures Ends([EOF])
    ensures CutVerb(ss[|ss| - 1 := Literal(ss[|ss| - 1].lit + Behind(verb, colon))], [EOF]) == Some(Cut(ss, verb, [EOF]))
  {
    var n := |ss| - 1;
    var lit, more := ss[n].lit, Behind(verb, colon);
    assert ss == ss[..n] + [Literal(lit)];
    assert ss[n := Literal(lit + more)] == ss[..n] + [Literal(lit + more)];
    if more == "" {
      assert lit + more == lit;
    } else {
      hide CutVerb;
      assert more == ":" + verb && lit + more == lit + ":" + verb;
      LastCut(ss[..n], lit, verb);
    }
  }

  // ---- and nothing else does -------------------------------------------------------------

  /** What is parsed from an input without NUL is well made, and printed it is the expanded input. */
  lemma ParsedWellMade(tmpl: string) returns (colon: bool)
    requires ParseOf(tmpl).Some? && '\0' !in tmpl
    ensures var t := ParseOf(tmpl).value;
            WellMade(t.segments, t.verb, colon) && Input(tmpl) == Printed(t.segments, t.verb, colon)
  {
    hide *;
    Slashed(tmpl);
    var path := tmpl[1..];
    var ts := Tokens(InSegments, path);
    var toks := ts + [EOF];
    assert '\0' !in path by { TailNoEnd(tmpl, 1); }
    TokensLexed(InSegments, path);
    NoEndInside(InSegments, path);
    ExpandedSame(InSegments, path);
    CleanTokens(ts);
    ParseParts(tmpl);
    ExpandedInput(tmpl);
    if toks[0] == EOF {
      RootTemplate(tmpl, toks);
      RootRendered(path);
      colon := false;
      RootMade();
    } else {
      var run, rest, cut := TemplateParts(tmpl, toks);
      SegmentsSound(InSegments, toks);
      SoundParts(toks, ShowAll(run.segments), rest);
      CutSound(run.segments, rest);
      colon := VerbCut(run.segments, rest);
      CutMade(run, rest, cut, colon);
      PrintedParts(cut.segments, cut.verb, colon);
      BehindCut(cut.verb, colon);
    }
  }

  lemma ExpandedInput(tmpl: string)
    requires tmpl != ""
    ensures Input(tmpl) == "/" + Expanded(InSegments, tmpl[1..])
  {
  }

  lemma RootMade()
    ensures WellMade([Literal("")], "", false) && Printed([Literal("")], "", false) == "/" && "/" + "" == "/"
  {
  }

  lemma BehindCut(verb: string, colon: bool)
    requires !colon ==> verb == ""
    ensures Behind(verb, colon) == if colon then ":" + verb else ""
  {
  }

  lemma CutMade(run: Run, rest: seq<string>, cut: Cut, colon: bool)
    requires run.segments != [] && OkIn(InSegments, run.segments) && MultiLast(run.segments, run.multi)
    requires Ends(rest) && Clean(rest) && CutVerb(run.segments, rest) == Some(cut) && Ends(cut.left) && cut.left[0] == EOF
    requires colon == VerbCut(run.segments, rest)
    ensures WellMade(cut.segments, cut.verb, colon)
  {
    var ss := run.segments;
    var n := |ss| - 1;
    var last := ss[n];
    assert forall k :: 0 <= k < n ==> SegmentOk(ss[k]) && !HasMulti(ss[k]);
    assert SegmentOk(last);
    hide SegmentOk, HasMulti, OkIn, MultiLast, CutVerb, VerbCut;
    if last.Literal? {
      LiteralMade(ss, rest, cut, colon);
    } else {
      CutToken(ss, rest);
      OtherMade(ss, rest, cut, colon);
    }
  }

  lemma LiteralMade(ss: seq<Segment>, rest: seq<string>, cut: Cut, colon: bool)
    requires ss != [] && ss[|ss| - 1].Literal? && SegmentOk(ss[|ss| - 1]) && Ends(rest)
    requires forall k :: 0 <= k < |ss| - 1 ==> SegmentOk(ss[k]) && !HasMulti(ss[k])
    requires CutVerb(ss, rest) == Some(cut) && Ends(cut.left) && cut.left[0] == EOF && colon == VerbCut(ss, rest)
    ensures WellMade(cut.segments, cut.verb, colon)
  {
    hide *;
    var n := |ss| - 1;
    var lit := ss[n].lit;
    CutAt(ss, rest);
    SomethingLeft(rest);
    VerbCutAt(ss, rest);
    var idx := LastIndex(lit, ':');
    WordFits(lit, idx, colon);
    LiteralIsWord(ss[n]);
    var left := if idx == -1 then lit else lit[..idx];
    assert left + Behind(cut.verb, colon) == lit;
    LiteralFits(left, cut.verb, colon);
    assert cut.segments == if idx == -1 then ss else ss[n := Literal(left)];
    LastMade(ss, cut.segments, cut.verb, colon);
  }

  lemma SomethingLeft(toks: seq<string>)
    requires Ends(toks)
    ensures toks != []
  {
  }

  lemma LiteralIsWord(s: Segment)
    requires s.Literal? && SegmentOk(s)
    ensures IsWordLit(s.lit)
  {
    hide IsWordLit;
  }

  lemma LiteralFits(lit: string, verb: string, colon: bool)
    requires IsWordLit(lit + Behind(verb, colon)) && ':' !in verb && (verb == "" && !colon ==> ':' !in lit)
    ensures EndFits(Literal(lit), verb, colon)
  {
    hide IsWordLit, Behind;
  }

  lemma LastMade(ss: seq<Segment>, cut: seq<Segment>, verb: string, colon: bool)
    requires ss != [] && |cut| == |ss| && forall k :: 0 <= k < |ss| - 1 ==> SegmentOk(ss[k]) && !HasMulti(ss[k])
    requires forall k :: 0 <= k < |ss| - 1 ==> cut[k] == ss[k]
    requires EndFits(cut[|cut| - 1], verb, colon)
    ensures WellMade(cut, verb, colon)
  {
    hide SegmentOk, HasMulti, EndFits;
  }

  lemma WordFits(lit: string, idx: int, colon: bool)
    requires idx == LastIndex(lit, ':') && colon == (idx >= 0)
    ensures idx >= 0 ==> idx < |lit| && ':' !in lit[idx + 1..] && lit[..idx] + Behind(lit[idx + 1..], colon) == lit
    ensures idx < 0 ==> ':' !in lit && lit + Behind("", colon) == lit
  {
    var at := LastIndex(lit, ':');
    hide *;
    if at >= 0 {
      BehindCut(lit[at + 1..], true);
      assert lit[..at] + (":" + lit[at + 1..]) == lit;
    } else {
      BehindCut("", false);
      assert lit + "" == lit;
    }
  }

  lemma OtherMade(ss: seq<Segment>, rest: seq<string>, cut: Cut, colon: bool)
    requires ss != [] && !ss[|ss| - 1].Literal? && SegmentOk(ss[|ss| - 1]) && Ends(rest) && Clean(rest)
    requires forall k :: 0 <= k < |ss| - 1 ==> SegmentOk(ss[k]) && !HasMulti(ss[k])
    requires CutVerb(ss, rest) == Some(cut) && Ends(cut.left) && cut.left[0] == EOF && colon == VerbCut(ss, rest)
    requires cut.segments == ss && IsPChars(cut.verb)
    ensures WellMade(cut.segments, cut.verb, colon)
  {
    hide SegmentOk, HasMulti, IsPChars, Lexed;
  }

  /** An input without NUL parses to these segments and this verb if and only if they are well made and, printed, are the
      input with each `{path}` written as `{path=*}`. */
  lemma ParsedIff(tmpl: string, ss: seq<Segment>, verb: string)
    ensures ParseOf(tmpl) == Some(Template(tmpl, ss, verb)) && '\0' !in tmpl <==>
              && tmpl != "" && tmpl[0] == '/'
              && exists colon :: WellMade(ss, verb, colon) && Input(tmpl) == Printed(ss, verb, colon)
  {
    hide *;
    if ParseOf(tmpl) == Some(Template(tmpl, ss, verb)) && '\0' !in tmpl {
      Slashed(tmpl);
      var colon := ParsedWellMade(tmpl);
    }
    if tmpl != "" && tmpl[0] == '/' {
      forall colon | WellMade(ss, verb, colon) && Input(tmpl) == Printed(ss, verb, colon)
        ensures ParseOf(tmpl) == Some(Template(tmpl, ss, verb)) && '\0' !in tmpl
      {
        PrintedParses(ss, verb, colon);
        ExpandedParses(tmpl);
        SameOfPrinted(tmpl, Template(Input(tmpl), ss, verb));
        PrintedNoNul(tmpl, colon);
        if '\0' in tmpl { InputKeepsNul(tmpl); }
      }
    }
  }

  lemma SameOfPrinted(tmpl: string, t: Template)
    requires SameTemplate(ParseOf(tmpl), Some(t))
    ensures ParseOf(tmpl) == Some(Template(tmpl, t.segments, t.verb))
  {
    hide Tokens, SegmentsOf, CutVerb;
  }

  lemma PrintedNoNul(tmpl: string, colon: bool)
    requires ParseOf(tmpl).Some?
    ensures '\0' !in Printed(ParseOf(tmpl).value.segments, ParseOf(tmpl).value.verb, colon)
  {
    hide *;
    RenderedNoNul(tmpl);
    var t := ParseOf(tmpl).value;
    PrintedRendered(t.segments, t.verb, colon);
  }

  lemma PrintedRendered(ss: seq<Segment>, verb: string, colon: bool)
    ensures var shown, text := ShowTemplate(ss, verb), Printed(ss, verb, colon); text == shown || text == shown + ":"
  {
    var a, b := ShowAll(ss), Behind(verb, colon);
    hide ShowAll;
    assert "/" + (a + b) == "/" + a + b;
    assert "/" + a + "" == "/" + a;
  }
}
