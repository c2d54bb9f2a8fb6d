/** The printed text of a gwbased template splits into the tokens expected of it, and these parse back to its segments. */
module GwRoundTrip {
  import opened Text
  import opened PathChars
  import opened Lexing
  import opened FieldPaths
  import opened GwTemplate
  import opened GwShape

  ghost predicate SegmentsOk(ss: seq<Segment>) {
    |ss| > 0 && OkIn(InSegments, ss)
  }

  /** A verb the printer's output gives back: no "/" and no "{"; a colon only after a variable. */
  predicate VerbFits(last: Segment, verb: string) {
    && !Has(verb, "/{")
    && (!last.Variable? ==> ':' !in verb)
    && (verb == "" && last.Literal? ==> ':' !in last.lit)
  }

  ghost predicate WellFormed(ss: seq<Segment>, verb: string) {
    && (ss == [Literal(EOF)] || SegmentsOk(ss))
    && VerbFits(ss[|ss| - 1], verb)
  }

  // ---- the printed form splits into the expected tokens --------------------------------

  ghost function TokensOf(s: Segment): seq<string>
    requires SegmentOk(s)
  {
    match s
    case Variable(path, body) =>
      var comps :| IsPathOf(comps, path);
      ["{"] + PathTokens(comps) + ["="] + FlatTokens(body) + ["}"]
    case _ => [Show(s)]
  }

  function FlatTokens(ss: seq<Segment>): seq<string>
    requires AllFlat(ss)
  {
    if |ss| == 0 then [] else if |ss| == 1 then [Show(ss[0])]
    else [Show(ss[0]), "/"] + FlatTokens(ss[1..])
  }

  /** The tokens of all segments but the last, each followed by "/". */
  ghost function FrontTokens(ss: seq<Segment>): seq<string>
    requires SegmentsOk(ss)
  {
    if |ss| == 1 then [] else TokensOf(ss[0]) + ["/"] + FrontTokens(ss[1..])
  }

  lemma FlatIsWord(st: LexState, s: Segment)
    requires FlatOk(s) && st != InField
    ensures !Has(Show(s), Separators(st)) && Show(s) != ""
  {
    if s.Literal? { PCharsAvoid(s.lit, Separators(st)); }
  }

  lemma {:induction false} LexBody(body: seq<Segment>, rest: string)
    requires AllFlat(body) && |body| > 0
    ensures Tokens(InNested, ShowAll(body) + "}" + rest)
         == FlatTokens(body) + ["}"] + Tokens(InSegments, rest)
    decreases |body|
  {
    hide Tokens, FlatOk, Show;
    FlatIsWord(InNested, body[0]);
    if |body| == 1 {
      assert ShowAll(body) + "}" + rest == Show(body[0]) + ['}'] + rest;
      TokensStep(InNested, Show(body[0]), '}', rest);
    } else {
      var tail := body[1..];
      assert forall k :: 0 <= k < |tail| ==> tail[k] == body[k + 1];
      LexBody(tail, rest);
      var left := ShowAll(tail) + "}" + rest;
      assert ShowAll(body) + "}" + rest == Show(body[0]) + ['/'] + left;
      assert FlatTokens(body) == [Show(body[0]), "/"] + FlatTokens(tail);
      hide ShowAll, FlatTokens;
      TokensStep(InNested, Show(body[0]), '/', left);
      RegroupWord(Show(body[0]), "/", FlatTokens(tail), ["}"] + Tokens(InSegments, rest));
    }
  }

  lemma LexVariable(s: Segment, rest: string)
    requires SegmentOk(s) && s.Variable?
    ensures Tokens(InSegments, Show(s) + rest) == TokensOf(s) + Tokens(InSegments, rest)
  {
    hide Tokens;
    var comps :| IsPathOf(comps, s.path) &&
      TokensOf(s) == ["{"] + PathTokens(comps) + ["="] + FlatTokens(s.segments) + ["}"];
    VariableText(s, rest);
    hide Show, ShowAll, PathTokens, FlatTokens, IsPathOf, TokensOf;
    var body := ShowAll(s.segments) + "}" + rest;
    TokensStep(InSegments, "", '{', s.path + "=" + body);
    assert s.path + "=" + body == s.path + ['='] + body;
    LexPath(comps, s.path, '=', body);
    LexBody(s.segments, rest);
    RegroupTokens(PathTokens(comps), FlatTokens(s.segments), Tokens(InSegments, rest));
  }

  lemma RegroupTokens(a: seq<string>, b: seq<string>, c: seq<string>)
    ensures ["{"] + (a + ["="] + (b + ["}"] + c)) == ["{"] + a + ["="] + b + ["}"] + c
    ensures ["{"] + a + ["="] + b + ["}"] + c == ["{"] + (a + (["="] + (b + (["}"] + c))))
  {
  }

  lemma RegroupFront(a: seq<string>, b: seq<string>, c: seq<string>)
    ensures a + ["/"] + b + c == a + (["/"] + (b + c))
  {
  }

  lemma VariableText(s: Segment, rest: string)
    requires s.Variable?
    ensures Show(s) + rest == "" + ['{'] + (s.path + "=" + (ShowAll(s.segments) + "}" + rest))
  {
    var b := ShowAll(s.segments);
    var p := s.path;
    hide Show, ShowAll;
    assert "{" + p + "=" + b + "}" + rest == "" + ['{'] + (p + "=" + (b + "}" + rest));
  }

  /** Whatever follows, all segments but the last split into their own tokens. */
  lemma {:induction false} LexFront(ss: seq<Segment>, more: string)
    requires SegmentsOk(ss)
    ensures Tokens(InSegments, ShowAll(ss) + more)
         == FrontTokens(ss) + Tokens(InSegments, Show(ss[|ss| - 1]) + more)
    decreases |ss|
  {
    hide Tokens, SegmentOk, Show, TokensOf;
    if |ss| > 1 {
      var tail := ss[1..];
      assert forall k :: 0 <= k < |tail| ==> tail[k] == ss[k + 1];
      LexFront(tail, more);
      assert ShowAll(ss) == Show(ss[0]) + "/" + ShowAll(tail);
      assert FrontTokens(ss) == TokensOf(ss[0]) + ["/"] + FrontTokens(tail);
      hide FrontTokens;
      Regroup(Show(ss[0]), ShowAll(tail), more);
      hide ShowAll;
      LexThen(ss[0], ShowAll(tail) + more);
    }
  }

  lemma Regroup(a: string, b: string, c: string)
    ensures a + "/" + b + c == a + (['/'] + (b + c))
  {
  }

  lemma LexThen(s: Segment, rest: string)
    requires SegmentOk(s)
    ensures Tokens(InSegments, Show(s) + (['/'] + rest)) == TokensOf(s) + ["/"] + Tokens(InSegments, rest)
  {
    if s.Variable? {
      hide *;
      LexVariable(s, ['/'] + rest);
      LexSlash("", rest);
      assert "" + (['/'] + rest) == ['/'] + rest;
      RegroupSlash(TokensOf(s), Tokens(InSegments, rest));
    } else {
      FlatIsWord(InSegments, s);
      assert TokensOf(s) == [Show(s)];
      hide *;
      LexSlash(Show(s), rest);
    }
  }

  lemma RegroupSlash(a: seq<string>, b: seq<string>)
    ensures a + (["/"] + b) == a + ["/"] + b
  {
  }

  lemma LexSlash(w: string, rest: string)
    requires !Has(w, "/{")
    ensures Tokens(InSegments, w + (['/'] + rest))
         == (if w == "" then ["/"] else [w] + ["/"]) + Tokens(InSegments, rest)
  {
    hide Tokens, Has;
    TokensStep(InSegments, w, '/', rest);
    assert w + ['/'] + rest == w + (['/'] + rest);
    assert [w] + ["/"] == [w, "/"];
  }

  // ---- the expected tokens parse to the segments ---------------------------------------

  lemma {:induction false} ParsePath(comps: seq<string>, path: string, rest: seq<string>)
    requires IsPathOf(comps, path) && Ends(rest) && rest[0] in ["=", "}"]
    ensures ComponentsOf(PathTokens(comps) + rest) == Got(comps, rest)
    decreases |comps|
  {
    hide ComponentsOf, IsIdent;
    if |comps| == 1 {
      ComponentStep(comps[0], rest);
      assert comps == [comps[0]] == [comps[0]] + [];
    } else {
      var tail := comps[1..];
      assert forall k :: 0 <= k < |tail| ==> tail[k] == comps[k + 1];
      ParsePath(tail, Join(tail, "."), rest);
      var more := PathTokens(tail) + rest;
      RegroupWord(comps[0], ".", PathTokens(tail), rest);
      hide PathTokens, Join;
      ComponentStep(comps[0], ["."] + more);
      assert (["."] + more)[1..] == more;
      assert [comps[0]] + tail == comps;
    }
  }

  lemma ParseFlat(s: Segment, rest: seq<string>)
    requires FlatOk(s) && Ends(rest)
    ensures SegmentOf([Show(s)] + rest) == Got(s, rest)
  {
    var toks := [Show(s)] + rest;
    assert toks[1..] == rest && toks[0] == Show(s);
    hide VariableOf;
    match s {
      case Wildcard => assert Accepts(Star, toks[0]);
      case DeepWildcard =>
        assert |toks[0]| == 2;
        assert !Accepts(Star, toks[0]) && Accepts(StarStar, toks[0]);
      case Literal(l) =>
        LiteralIsPlain(InSegments, l);
        assert l != "/" by { assert IsSeparator(InSegments, "/"); }
        assert !Accepts(Star, l) && !Accepts(StarStar, l) && Accepts(Lit, l);
    }
  }

  lemma {:induction false} ParseBody(body: seq<Segment>, rest: seq<string>)
    requires AllFlat(body) && |body| > 0 && Ends(rest) && rest[0] != "/"
    ensures SegmentsOf(FlatTokens(body) + rest) == Got(body, rest)
    decreases |body|
  {
    hide SegmentsOf, SegmentOf, FlatOk, Show;
    if |body| == 1 {
      assert FlatTokens(body) == [Show(body[0])];
      ParseFlat(body[0], rest);
      SegmentsStep(body[0], [Show(body[0])] + rest, rest);
      assert [body[0]] == body;
    } else {
      var tail := body[1..];
      assert forall k :: 0 <= k < |tail| ==> tail[k] == body[k + 1];
      ParseBody(tail, rest);
      assert FlatTokens(body) == [Show(body[0]), "/"] + FlatTokens(tail);
      var more := FlatTokens(tail) + rest;
      RegroupWord(Show(body[0]), "/", FlatTokens(tail), rest);
      hide FlatTokens;
      ParseFlat(body[0], ["/"] + more);
      SegmentsStep(body[0], [Show(body[0])] + (["/"] + more), ["/"] + more);
      assert (["/"] + more)[1..] == more;
      assert [body[0]] + tail == body;
    }
  }

  lemma VariableStep(path: string, body: seq<Segment>, rest: seq<string>, names: seq<string>, toks: seq<string>)
    requires Ends(toks) && Ends(rest) && Ends(["="] + toks) && Ends(names) && Ends(["{"] + names)
    requires FieldPathOf(names) == Got(path, ["="] + toks)
    requires SegmentsOf(toks) == Got(body, ["}"] + rest)
    ensures SegmentOf(["{"] + names) == Got(Variable(path, body), rest)
  {
    hide SegmentsOf, FieldPathOf, ComponentsOf;
    assert (["="] + toks)[1..] == toks;
    assert BodyOf(["="] + toks) == Got(body, ["}"] + rest);
    assert (["}"] + rest)[1..] == rest;
    assert (["{"] + names)[1..] == names;
    assert VariableOf(["{"] + names) == Got(Variable(path, body), rest);
    assert "{"[0] == '{' && !IsPlainPChar('{');
    assert !Accepts(Lit, "{");
  }

  lemma ParseSegment(s: Segment, rest: seq<string>)
    requires SegmentOk(s) && Ends(rest)
    ensures SegmentOf(TokensOf(s) + rest) == Got(s, rest)
  {
    hide SegmentOf, SegmentsOf, ComponentsOf;
    if s.Variable? {
      var comps :| IsPathOf(comps, s.path) &&
        TokensOf(s) == ["{"] + PathTokens(comps) + ["="] + FlatTokens(s.segments) + ["}"];
      var body := FlatTokens(s.segments) + (["}"] + rest);
      ParseBody(s.segments, ["}"] + rest);
      ParsePath(comps, s.path, ["="] + body);
      var names := PathTokens(comps) + (["="] + body);
      RegroupTokens(PathTokens(comps), FlatTokens(s.segments), rest);
      hide TokensOf, PathTokens, FlatTokens;
      VariableStep(s.path, s.segments, rest, names, body);
    } else {
      ParseFlat(s, rest);
    }
  }

  lemma {:induction false} ParseFront(ss: seq<Segment>, rest: seq<string>)
    requires SegmentsOk(ss) && Ends(rest)
    ensures SegmentsOf(FrontTokens(ss) + rest) == Prepend(ss[..|ss| - 1], SegmentsOf(rest))
    decreases |ss|
  {
    hide SegmentOf, SegmentsOf, SegmentOk, TokensOf;
    if |ss| == 1 {
      assert FrontTokens(ss) + rest == rest;
      assert forall more: seq<Segment> :: ss[..0] + more == more;
    } else {
      var tail := ss[1..];
      assert forall k :: 0 <= k < |tail| ==> tail[k] == ss[k + 1];
      ParseFront(tail, rest);
      var more := FrontTokens(tail) + rest;
      var toks := TokensOf(ss[0]) + (["/"] + more);
      assert FrontTokens(ss) == TokensOf(ss[0]) + ["/"] + FrontTokens(tail);
      RegroupFront(TokensOf(ss[0]), FrontTokens(tail), rest);
      hide FrontTokens;
      ParseSegment(ss[0], ["/"] + more);
      SegmentsStep(ss[0], toks, ["/"] + more);
      assert (["/"] + more)[1..] == more;
      assert [ss[0]] + tail[..|tail| - 1] == ss[..|ss| - 1];
      PrependTwice([ss[0]], tail[..|tail| - 1], SegmentsOf(rest));
    }
  }

  lemma PrependTwice(a: seq<Segment>, b: seq<Segment>, p: Parsed<seq<Segment>>)
    ensures Prepend(a, Prepend(b, p)) == Prepend(a + b, p)
  {
    if p.Got? { assert a + (b + p.value) == a + b + p.value; }
  }

  /** The last segment alone. */
  lemma ParseLast(s: Segment)
    requires SegmentOk(s)
    ensures SegmentsOf(TokensOf(s) + [EOF]) == Got([s], [EOF])
  {
    ParseSegment(s, [EOF]);
    hide SegmentOf, SegmentsOf, TokensOf;
    SegmentsStep(s, TokensOf(s) + [EOF], [EOF]);
  }
}
