/** Exactly the well-formed gwbased templates survive printing and parsing: every parsed one is well-formed, and every
    other loses its verb or its last literal. */
module GwInverse {
  import opened Text
  import opened PathChars
  import opened Lexing
  import opened GwTemplate
  import opened GwShape
  import opened GwRoundTrip

  /** What the printer appends after the segments. */
  function Tail(verb: string): string {
    if verb == "" then "" else ":" + verb
  }

  lemma PathOfShown(ss: seq<Segment>, verb: string)
    ensures ShowTemplate(ss, verb)[0] == '/'
    ensures ShowTemplate(ss, verb)[1..] == ShowAll(ss) + Tail(verb)
  {
  }

  lemma TailIsWord(verb: string)
    requires !Has(verb, "/{")
    ensures !Has(Tail(verb), "/{")
  {
    assert forall k :: 1 <= k < |Tail(verb)| ==> Tail(verb)[k] == verb[k - 1];
  }

  lemma WordWithTail(w: string, tail: string)
    requires !Has(w, "/{") && !Has(tail, "/{")
    ensures !Has(w + tail, "/{")
  {
    assert forall k :: 0 <= k < |w + tail| ==> (w + tail)[k] == if k < |w| then w[k] else tail[k - |w|];
  }

  /** The tokens of all segments but the last are empty or end with "/". */
  lemma {:induction false} FrontEnds(ss: seq<Segment>)
    requires SegmentsOk(ss)
    ensures var f := FrontTokens(ss); (|ss| == 1 ==> f == []) && (|ss| > 1 ==> |f| > 0 && f[|f| - 1] == "/")
    decreases |ss|
  {
    hide SegmentOk, TokensOf;
    if |ss| > 1 {
      var tail := ss[1..];
      assert forall k :: 0 <= k < |tail| ==> tail[k] == ss[k + 1];
      FrontEnds(tail);
    }
  }

  /** The tokens of the last segment with the verb behind it. */
  ghost function EndTokens(last: Segment, verb: string): seq<string>
    requires SegmentOk(last)
  {
    if last.Variable? then TokensOf(last) + if verb == "" then [] else [Tail(verb)]
    else [Show(last) + Tail(verb)]
  }

  /** All tokens of a printed template whose verb has no "/" and no "{". */
  lemma ShownTokens(ss: seq<Segment>, verb: string)
    requires SegmentsOk(ss) && !Has(verb, "/{")
    ensures Tokens(InSegments, ShowAll(ss) + Tail(verb)) == FrontTokens(ss) + EndTokens(ss[|ss| - 1], verb)
  {
    hide Tokens, TokensOf;
    var last := ss[|ss| - 1];
    TailIsWord(verb);
    LexFront(ss, Tail(verb));
    if last.Variable? {
      LexVariable(last, Tail(verb));
      TokensLast(InSegments, Tail(verb));
    } else {
      FlatIsWord(InSegments, last);
      WordWithTail(Show(last), Tail(verb));
      TokensLast(InSegments, Show(last) + Tail(verb));
    }
  }

  lemma SplitWord(f: seq<string>, w: string, verb: string)
    requires w != "" && ':' !in verb && (f == [] || f[|f| - 1] == "/") && (verb == "" ==> ':' !in w)
    ensures SplitVerb(f + [w + Tail(verb)]) == (f + [w], verb)
  {
    var t := w + Tail(verb);
    var toks := f + [t];
    hide VerbIndex, LastIndex, IndexAny;
    WordIndex(f, w, verb);
    if verb == "" {
      assert t == w;
    } else {
      CutWord(f, w, verb);
    }
  }

  lemma CutWord(f: seq<string>, w: string, verb: string)
    ensures var t := w + (":" + verb);
            t[|w| + 1..] == verb && t[..|w|] == w && (f + [t])[|f| := w] == f + [w]
  {
  }

  lemma WordIndex(f: seq<string>, w: string, verb: string)
    requires w != "" && ':' !in verb && (f == [] || f[|f| - 1] == "/") && (verb == "" ==> ':' !in w)
    ensures VerbIndex(f + [w + Tail(verb)]) == if verb == "" then -1 else |w|
  {
    var t := w + Tail(verb);
    var toks := f + [t];
    assert toks[|toks| - 1] == t && (f != [] ==> toks[|toks| - 2] == "/");
    assert VerbIndex(toks) == LastIndex(t, ':');
    hide VerbIndex, LastIndex;
    if verb == "" {
      assert t == w;
    } else {
      assert t == w + [':'] + verb;
      LastIndexAppend(w, ':', verb);
    }
  }

  lemma SplitAfterVariable(f: seq<string>, verb: string)
    requires f != [] && f[|f| - 1] == "}"
    ensures SplitVerb(f + if verb == "" then [] else [Tail(verb)]) == (f, verb)
  {
    if verb == "" {
      assert f + [] == f;
      assert ':' !in "}";
    } else {
      var t := Tail(verb);
      assert t[0] == ':' && t[1..] == verb;
      IndexAnyAt(t, ":", 0);
      assert (f + [t])[..|f|] == f;
    }
  }

  /** Parsing what the printer wrote gives back the template. */
  lemma PrintThenParse(ss: seq<Segment>, verb: string)
    requires WellFormed(ss, verb)
    ensures ParseOf(ShowTemplate(ss, verb)) == Some(Template(ss, verb, ShowTemplate(ss, verb)))
  {
    hide Tokens, SegmentsOf, TokensOf, FrontTokens, Show, SplitVerb, SegmentOk, ShowAll, TopLevelOf;
    var path := ShowAll(ss) + Tail(verb);
    var last := ss[|ss| - 1];
    PathOfShown(ss, verb);
    if ss == [Literal(EOF)] {
      RootPath(verb);
    } else {
      ShownTokens(ss, verb);
      FrontEnds(ss);
      SplitEnd(FrontTokens(ss), last, verb);
      ParsedBack(ss);
      NonEmptyShown(ss);
    }
  }

  lemma SplitEnd(f: seq<string>, last: Segment, verb: string)
    requires SegmentOk(last) && VerbFits(last, verb)
    requires f == [] || f[|f| - 1] == "/"
    ensures SplitVerb(f + EndTokens(last, verb)) == (f + TokensOf(last), verb)
  {
    if last.Variable? {
      LastBrace(last);
      hide TokensOf, SplitVerb, SegmentOk;
      var g := f + TokensOf(last);
      assert g[|g| - 1] == "}";
      SplitAfterVariable(g, verb);
      assert f + EndTokens(last, verb) == g + if verb == "" then [] else [Tail(verb)];
    } else {
      LastWord(last);
      hide TokensOf, SplitVerb, SegmentOk, Show;
      SplitWord(f, Show(last), verb);
    }
  }

  lemma LastBrace(s: Segment)
    requires SegmentOk(s) && s.Variable?
    ensures TokensOf(s) != [] && TokensOf(s)[|TokensOf(s)| - 1] == "}"
  {
  }

  lemma LastWord(s: Segment)
    requires SegmentOk(s) && !s.Variable?
    ensures TokensOf(s) == [Show(s)] && Show(s) != "" && (!s.Literal? ==> ':' !in Show(s)) && (s.Literal? ==> Show(s) == s.lit)
  {
  }

  lemma NonEmptyShown(ss: seq<Segment>)
    requires SegmentsOk(ss)
    ensures ShowAll(ss) != ""
  {
    var s := ss[0];
    assert SegmentOk(s);
    assert |Show(s)| > 0 by {
      match s {
        case Wildcard =>
        case DeepWildcard =>
        case Literal(l) =>
        case Variable(p, body) => assert Show(s)[0] == '{';
      }
    }
    hide Show;
    assert |ShowAll(ss)| >= |Show(s)|;
  }

  lemma RootPath(verb: string)
    requires !Has(verb, "/{") && ':' !in verb
    ensures ShowAll([Literal(EOF)]) == EOF
    ensures Tokenize(EOF + Tail(verb)) == ([EOF, EOF], verb)
    ensures TopLevelOf([EOF, EOF]) == Some([Literal(EOF)])
  {
    hide *;
    var path := EOF + Tail(verb);
    RootFacts();
    TailIsWord(verb);
    WordWithTail(EOF, Tail(verb));
    OneWordPath(path);
    SplitWord([], EOF, verb);
    EndTwice(path);
    OneWordTokens(path);
  }

  lemma RootFacts()
    ensures EOF != "" && !Has(EOF, "/{") && ':' !in EOF && ShowAll([Literal(EOF)]) == EOF
    ensures TopLevelOf([EOF, EOF]) == Some([Literal(EOF)])
  {
    hide SegmentsOf;
  }

  lemma OneWordPath(path: string)
    requires path != "" && !Has(path, "/{")
    ensures Tokens(InSegments, path) == [path]
  {
    hide Tokens, Has;
    TokensLast(InSegments, path);
  }

  lemma OneWordTokens(path: string)
    requires path != "" && Tokens(InSegments, path) == [path]
    ensures Tokenize(path) == (SplitVerb([path]).0 + [EOF], SplitVerb([path]).1)
  {
    hide Tokens, SplitVerb;
  }

  lemma EndTwice(path: string)
    ensures [] + [path] == [path] && [] + [EOF] + [EOF] == [EOF, EOF]
  {
  }

  lemma ParsedBack(ss: seq<Segment>)
    requires SegmentsOk(ss)
    ensures Ends(FrontTokens(ss) + TokensOf(ss[|ss| - 1]) + [EOF])
    ensures TopLevelOf(FrontTokens(ss) + TokensOf(ss[|ss| - 1]) + [EOF]) == Some(ss)
  {
    var last := ss[|ss| - 1];
    assert SegmentOk(last);
    hide *;
    var front, mid := FrontTokens(ss), TokensOf(last);
    EndsAnyway(front, mid);
    ParseLast(last);
    ParseFront(ss, mid + [EOF]);
    PrependLast(ss);
    AllConsumed(front + mid + [EOF], ss);
  }

  lemma EndsAnyway(a: seq<string>, b: seq<string>)
    ensures a + b + [EOF] == a + (b + [EOF])
    ensures Ends(a + b + [EOF]) && Ends(b + [EOF])
  {
  }

  lemma PrependLast(ss: seq<Segment>)
    requires |ss| > 0
    ensures Prepend(ss[..|ss| - 1], Got([ss[|ss| - 1]], [EOF])) == Got(ss, [EOF])
  {
    assert ss[..|ss| - 1] + [ss[|ss| - 1]] == ss;
  }

  lemma AllConsumed(toks: seq<string>, ss: seq<Segment>)
    requires Ends(toks) && SegmentsOf(toks) == Got(ss, [EOF])
    ensures TopLevelOf(toks) == Some(ss)
  {
    NoEndFirst(toks);
  }

  lemma NoEndFirst(toks: seq<string>)
    requires Ends(toks) && SegmentsOf(toks).Got?
    ensures toks[0] != EOF
  {
    if toks[0] == EOF { EndIsNoSegment(toks); }
  }

  lemma EndIsNoSegment(toks: seq<string>)
    requires Ends(toks) && toks[0] == EOF
    ensures SegmentsOf(toks) == Fail
  {
    assert !IsPlainPChar(EOF[0]) && |EOF| == 1;
    assert !IsPChars(EOF);
    assert SegmentOf(toks) == Fail;
    SegmentsFail(toks);
  }

  // ---- and nothing else survives the round trip ----------------------------------------

  /** Cutting the last token at a colon keeps the token list well shaped. */
  lemma {:induction false} CutLexed(st: LexState, ts: seq<string>, idx: nat)
    requires |ts| > 0 && Lexed(st, ts + [EOF])
    requires idx < |ts[|ts| - 1]| && ts[|ts| - 1][idx] == ':'
    ensures Lexed(st, (if idx == 0 then ts[..|ts| - 1] else ts[|ts| - 1 := ts[|ts| - 1][..idx]]) + [EOF])
    decreases |ts|
  {
    hide *;
    var t := ts[|ts| - 1];
    if |ts| == 1 {
      assert ts == [t] && ts + [EOF] == [t, EOF];
      CutLast(st, t, idx);
      assert [t][..0] + [EOF] == [EOF] && [t][0 := t[..idx]] + [EOF] == [t[..idx], EOF];
    } else {
      var tail := ts[1..];
      var cut := if idx == 0 then tail[..|tail| - 1] else tail[|tail| - 1 := t[..idx]];
      assert ts == [ts[0]] + tail && tail[|tail| - 1] == t;
      LexedTail(st, ts[0], tail);
      OneCharacter(st, ts[0]);
      CutLexed(if IsSeparator(st, ts[0]) then Next(st, ts[0][0]) else st, tail, idx);
      assert [ts[0]] + cut == if idx == 0 then ts[..|ts| - 1] else ts[|ts| - 1 := t[..idx]];
      LexedHead(st, ts[0], tail, cut);
    }
  }

  lemma OneCharacter(st: LexState, t: string)
    ensures IsSeparator(st, t) ==> |t| == 1
  {
  }

  lemma LexedTail(st: LexState, t: string, tail: seq<string>)
    requires Lexed(st, [t] + tail + [EOF])
    ensures Lexed(if IsSeparator(st, t) then Next(st, t[0]) else st, tail + [EOF])
  {
    assert ([t] + tail + [EOF])[1..] == tail + [EOF];
  }

  lemma LexedHead(st: LexState, t: string, tail: seq<string>, cut: seq<string>)
    requires Lexed(st, [t] + tail + [EOF]) && |tail| > 0
    requires ':' in tail[|tail| - 1]
    requires Lexed(if IsSeparator(st, t) then Next(st, t[0]) else st, cut + [EOF])
    requires |cut| >= |tail| - 1 && (|tail| > 1 ==> cut[0] == tail[0])
    ensures Lexed(st, [t] + cut + [EOF])
  {
    var toks, toks' := [t] + tail + [EOF], [t] + cut + [EOF];
    assert toks'[1..] == cut + [EOF] && toks'[0] == t && toks[0] == t && toks[1] == tail[0];
    assert |cut| > 0 ==> toks'[1] == cut[0];
    if !IsSeparator(st, t) {
      assert IsSeparator(st, tail[0]);
      assert |tail| == 1 ==> tail[0] == [tail[0][0]];
    }
  }

  lemma CutLast(st: LexState, t: string, idx: nat)
    requires idx < |t| && t[idx] == ':' && Lexed(st, [t, EOF])
    ensures idx > 0 ==> Lexed(st, [t[..idx], EOF])
    ensures Lexed(st, [EOF])
  {
    assert !IsSeparator(st, t);
    if idx > 0 {
      assert IsPlain(st, t[..idx]) by { assert forall k :: 0 <= k < idx ==> t[..idx][k] == t[k]; }
      PlainIsNoSeparator(st, t[..idx]);
      assert [t[..idx], EOF][1..] == [t, EOF][1..];
    }
  }

  lemma TokenizeLexed(path: string)
    ensures Lexed(InSegments, Tokenize(path).0)
  {
    hide Tokens, Lexed, VerbIndex;
    TokensLexed(InSegments, path);
    if path == "" {
      assert Tokens(InSegments, path) == [] by { TokensLast(InSegments, path); }
      assert [] + [EOF] == [EOF];
    } else {
      var ts := Tokens(InSegments, path);
      SomeToken(InSegments, path);
      var idx := VerbIndex(ts);
      if idx >= 0 { CutLexed(InSegments, ts, idx); }
    }
  }

  /** Every template that parses has the root segment or well-formed segments, with no variable in a variable. */
  lemma ParsedShape(tmpl: string)
    requires ParseOf(tmpl).Some?
    ensures ParseOf(tmpl).value.segments == [Literal(EOF)] || SegmentsOk(ParseOf(tmpl).value.segments)
  {
    hide Tokens, Lexed, SegmentsOf, Tokenize, OkIn;
    TokenizeLexed(tmpl[1..]);
    SegmentsShape(InSegments, Tokenize(tmpl[1..]).0);
  }

  lemma {:induction false} TokensAreShort(st: LexState, path: string)
    ensures forall k :: 0 <= k < |Tokens(st, path)| ==> |Tokens(st, path)[k]| <= |path|
    decreases |path|
  {
    hide Has, Separators, IndexAny;
    if path != "" {
      var idx := IndexAny(path, Separators(st));
      if idx >= 0 {
        TokensAreShort(Next(st, path[idx]), path[idx + 1..]);
      }
    }
  }

  /** A verb holding a template separator is never read back whole. */
  lemma StructuredVerbLost(ss: seq<Segment>, verb: string)
    requires SegmentsOk(ss) && Has(verb, "/{")
    ensures Tokenize(ShowAll(ss) + Tail(verb)).1 != verb
  {
    var w, c, rest := VerbCut(verb);
    var last := ss[|ss| - 1];
    assert SegmentOk(last);
    var next := Next(InSegments, c);
    NonEmptyShown(ss);
    hide *;
    LexFront(ss, w + [c] + rest);
    var end := LexEnd(last, w, c, rest);
    TokensAreShort(next, rest);
    RegroupFour(FrontTokens(ss), end, [c], Tokens(next, rest));
    ShortVerb(FrontTokens(ss) + end, c, Tokens(next, rest), |rest|);
    TokenizedVerb(ShowAll(ss) + (w + [c] + rest));
  }

  lemma RegroupFour(a: seq<string>, b: seq<string>, c: string, d: seq<string>)
    ensures a + (b + [c] + d) == a + b + [c] + d
  {
  }

  lemma TokenizedVerb(path: string)
    requires path != ""
    ensures |Tokens(InSegments, path)| > 0
    ensures Tokenize(path).1 == SplitVerb(Tokens(InSegments, path)).1
  {
    SomeToken(InSegments, path);
  }

  lemma VerbCut(verb: string) returns (w: string, c: char, rest: string)
    requires Has(verb, "/{")
    ensures Tail(verb) == w + [c] + rest && !Has(w, "/{") && c in "/{" && c != ':'
    ensures |rest| < |verb|
  {
    var tail := Tail(verb);
    assert tail == ":" + verb;
    assert Has(tail, "/{") by {
      var k :| 0 <= k < |verb| && verb[k] in "/{";
      assert tail[k + 1] == verb[k];
    }
    var k := IndexAny(tail, "/{");
    w, c, rest := tail[..k], tail[k], tail[k + 1..];
    assert k > 0;
  }

  lemma LexEnd(last: Segment, w: string, c: char, rest: string) returns (front: seq<string>)
    requires SegmentOk(last) && !Has(w, "/{") && c in "/{"
    ensures Tokens(InSegments, Show(last) + (w + [c] + rest)) == front + [[c]] + Tokens(Next(InSegments, c), rest)
  {
    hide Tokens, TokensOf;
    if last.Variable? {
      LexVariable(last, w + [c] + rest);
      TokensStep(InSegments, w, c, rest);
      front := TokensOf(last) + if w == "" then [] else [w];
    } else {
      FlatIsWord(InSegments, last);
      WordWithTail(Show(last), w);
      assert Show(last) + (w + [c] + rest) == (Show(last) + w) + [c] + rest;
      TokensStep(InSegments, Show(last) + w, c, rest);
      front := [Show(last) + w];
    }
  }

  lemma ShortVerb(front: seq<string>, c: char, rest: seq<string>, n: nat)
    requires forall k :: 0 <= k < |rest| ==> |rest[k]| <= n
    requires c != ':'
    ensures |SplitVerb(front + [[c]] + rest).1| <= n
  {
    var ts := front + [[c]] + rest;
    if rest == [] {
      assert ts[|ts| - 1] == [c];
    } else {
      assert ts[|ts| - 1] == rest[|rest| - 1];
    }
  }

  lemma RootVerb(verb: string)
    requires TopLevelOf(Tokenize(EOF + Tail(verb)).0) == Some([Literal(EOF)])
    requires Tokenize(EOF + Tail(verb)).1 == verb
    ensures VerbFits(Literal(EOF), verb)
  {
    var path := EOF + Tail(verb);
    RootFirst(path);
    RootPlain(path);
    hide Tokens, TopLevelOf, Has;
    TokensLast(InSegments, path);
    if verb != "" {
      RootNoSlash(verb);
      OneToken(path);
    }
  }

  lemma RootFirst(path: string)
    requires TopLevelOf(Tokenize(path).0) == Some([Literal(EOF)])
    ensures Tokenize(path).0[0] == EOF
  {
    hide *;
    TokenizeLexed(path);
    OnlyEndIsRoot(Tokenize(path).0);
  }

  lemma OnlyEndIsRoot(toks: seq<string>)
    requires Ends(toks) && Lexed(InSegments, toks)
    requires TopLevelOf(toks) == Some([Literal(EOF)])
    ensures toks[0] == EOF
  {
    hide SegmentsOf, Lexed;
    SegmentsShape(InSegments, toks);
    assert !FlatOk(Literal(EOF)) by { assert !IsPlainPChar(EOF[0]) && |EOF| == 1; }
    assert !OkIn(InSegments, [Literal(EOF)]) by { assert [Literal(EOF)][0] == Literal(EOF); }
  }

  lemma RootPlain(path: string)
    requires |path| >= 1 && path[0] == '\0' && (|path| == 1 || path[1] == ':')
    requires Tokenize(path).0[0] == EOF
    ensures !Has(path, "/{")
  {
    if Has(path, "/{") { RootNotFirst(path); }
  }

  lemma RootNotFirst(path: string)
    requires |path| >= 1 && path[0] == '\0' && (|path| == 1 || path[1] == ':')
    requires Has(path, "/{")
    ensures Tokenize(path).0[0] != EOF
  {
    var k := IndexAny(path, "/{");
    assert k >= 2;
    FirstToken(path, k);
    KeepsFirst(Tokens(InSegments, path));
  }

  lemma FirstToken(path: string, k: nat)
    requires 0 < k == IndexAny(path, "/{") < |path|
    ensures |Tokens(InSegments, path)| >= 2 && Tokens(InSegments, path)[0] == path[..k]
  {
  }

  lemma KeepsFirst(ts: seq<string>)
    requires |ts| >= 2
    ensures |SplitVerb(ts).0| > 0 && SplitVerb(ts).0[0] == ts[0]
  {
  }

  lemma RootNoSlash(verb: string)
    requires !Has(EOF + (":" + verb), "/{")
    ensures !Has(verb, "/{")
  {
    assert forall k :: 0 <= k < |verb| ==> (EOF + (":" + verb))[k + 2] == verb[k];
  }

  lemma OneToken(path: string)
    requires path != "" && Tokens(InSegments, path) == [path]
    ensures ':' !in Tokenize(path).1
  {
  }

  /** A single word parses to the literal of that word or to something else than a literal. */
  lemma OneWord(w: string, l: string)
    requires SegmentsOf([w, EOF]).Got? && SegmentsOf([w, EOF]).value == [Literal(l)]
    ensures w == l
  {
    var toks := [w, EOF];
    match SegmentOf(toks) {
      case Fail => SegmentsFail(toks);
      case Got(s, rest) =>
        SegmentsStep(s, toks, rest);
        assert SegmentsOf(toks).value[0] == s;
        hide SegmentsOf, VariableOf;
        assert toks[0] == w;
    }
  }

  /** A last literal holding a colon is cut when the verb is empty. */
  lemma ColonLiteralLost(ss: seq<Segment>)
    requires SegmentsOk(ss) && ss[|ss| - 1].Literal? && ':' in ss[|ss| - 1].lit
    ensures TopLevelOf(Tokenize(ShowAll(ss)).0) != Some(ss)
  {
    hide *;
    LastSegmentOk(ss);
    var last := ss[|ss| - 1];
    var f, lit := FrontTokens(ss), last.lit;
    EmptyTail(ss, lit);
    LiteralEnd(last);
    var idx := LastIndexOf(lit);
    ShownTokens(ss, "");
    FrontEnds(ss);
    NonEmptyShown(ss);
    SplitColon(f, lit, idx);
    TokenizedSplit(ShowAll(ss));
    if idx == 0 {
      assert f + [] == f;
      DroppedLast(ss);
    } else {
      CutLiteral(ss, lit[..idx]);
    }
  }

  lemma TokenizedSplit(path: string)
    requires path != "" && Tokens(InSegments, path) != []
    ensures Tokenize(path).0 == SplitVerb(Tokens(InSegments, path)).0 + [EOF]
  {
    hide Tokens, SplitVerb;
  }

  lemma LastSegmentOk(ss: seq<Segment>)
    requires SegmentsOk(ss)
    ensures |ss| > 0 && SegmentOk(ss[|ss| - 1])
  {
  }

  lemma LiteralEnd(s: Segment)
    requires s.Literal? && SegmentOk(s)
    ensures EndTokens(s, "") == [s.lit] && !Has("", "/{")
  {
    EmptyTail([], s.lit);
  }

  lemma LastIndexOf(lit: string) returns (idx: nat)
    requires ':' in lit
    ensures idx == LastIndex(lit, ':') < |lit| && lit[idx] == ':'
  {
    idx := LastIndex(lit, ':');
  }

  lemma EmptyTail(ss: seq<Segment>, lit: string)
    ensures ShowAll(ss) + Tail("") == ShowAll(ss) && lit + Tail("") == lit
  {
  }

  lemma SplitColon(f: seq<string>, lit: string, idx: nat)
    requires f == [] || f[|f| - 1] == "/"
    requires idx == LastIndex(lit, ':') < |lit|
    ensures SplitVerb(f + [lit]).0 == f + if idx == 0 then [] else [lit[..idx]]
  {
    var toks := f + [lit];
    assert toks[|toks| - 1] == lit && (f != [] ==> toks[|toks| - 2] == "/");
    assert VerbIndex(toks) == idx;
    hide VerbIndex, LastIndex, IndexAny;
    assert toks[..|toks| - 1] == f && toks[|toks| - 1 := lit[..idx]] == f + [lit[..idx]];
    assert f + [] == f;
  }

  lemma RootIsNoSegment()
    ensures !SegmentOk(Literal(EOF))
  {
    assert !IsPlainPChar(EOF[0]) && |EOF| == 1;
  }

  lemma NotRoot(ss: seq<Segment>)
    requires SegmentsOk(ss)
    ensures ss != [Literal(EOF)]
  {
    RootIsNoSegment();
    assert SegmentOk(ss[0]);
  }

  lemma DroppedLast(ss: seq<Segment>)
    requires SegmentsOk(ss)
    ensures TopLevelOf(FrontTokens(ss) + [EOF]) != Some(ss)
  {
    NotRoot(ss);
    ParseFront(ss, [EOF]);
    EndIsNoSegment([EOF]);
    hide SegmentsOf, FrontTokens, SegmentsOk;
    assert SegmentsOf(FrontTokens(ss) + [EOF]) == Fail;
  }

  lemma CutLiteral(ss: seq<Segment>, w: string)
    requires SegmentsOk(ss) && ss[|ss| - 1].Literal? && ss[|ss| - 1].lit != w
    ensures Ends(FrontTokens(ss) + [w] + [EOF])
    ensures TopLevelOf(FrontTokens(ss) + [w] + [EOF]) != Some(ss)
  {
    NotRoot(ss);
    var f, l := FrontTokens(ss), ss[|ss| - 1].lit;
    hide *;
    EndsAnyway(f, [w]);
    OtherWord(w, l);
    ParseFront(ss, [w] + [EOF]);
    PrependedEnd(ss, SegmentsOf([w] + [EOF]));
    NotTheseSegments(f + [w] + [EOF], ss);
  }

  lemma OtherWord(w: string, l: string)
    requires l != w
    ensures SegmentsOf([w] + [EOF]).Got? ==> SegmentsOf([w] + [EOF]).value != [Literal(l)]
  {
    assert [w] + [EOF] == [w, EOF];
    hide SegmentsOf;
    if SegmentsOf([w, EOF]).Got? && SegmentsOf([w, EOF]).value == [Literal(l)] {
      OneWord(w, l);
    }
  }

  lemma PrependedEnd(ss: seq<Segment>, p: Parsed<seq<Segment>>)
    requires |ss| > 0
    requires p.Got? ==> p.value != [ss[|ss| - 1]]
    ensures var r := Prepend(ss[..|ss| - 1], p); r.Got? ==> r.value != ss
  {
    if p.Got? && ss[..|ss| - 1] + p.value == ss {
      SuffixOf(ss, p.value);
    }
  }

  lemma NotTheseSegments(toks: seq<string>, ss: seq<Segment>)
    requires Ends(toks) && ss != [Literal(EOF)]
    requires SegmentsOf(toks).Got? ==> SegmentsOf(toks).value != ss
    ensures TopLevelOf(toks) != Some(ss)
  {
    hide SegmentsOf;
  }

  lemma SuffixOf(ss: seq<Segment>, more: seq<Segment>)
    requires |ss| > 0 && ss[..|ss| - 1] + more == ss
    ensures more == [ss[|ss| - 1]]
  {
    var n := |ss| - 1;
    assert |more| == 1;
    assert (ss[..n] + more)[n] == more[0];
  }

  /** A template survives printing and parsing if and only if it is well-formed. */
  lemma RoundTripIff(ss: seq<Segment>, verb: string)
    ensures ParseOf(ShowTemplate(ss, verb)) == Some(Template(ss, verb, ShowTemplate(ss, verb)))
       <==> WellFormed(ss, verb)
  {
    if WellFormed(ss, verb) {
      PrintThenParse(ss, verb);
    }
    if ParseOf(ShowTemplate(ss, verb)) == Some(Template(ss, verb, ShowTemplate(ss, verb))) {
      ParsedShape(ShowTemplate(ss, verb));
      PathOfShown(ss, verb);
      if ss == [Literal(EOF)] {
        assert ShowAll(ss) == EOF;
        RootVerb(verb);
      } else {
        SurvivingVerb(ss, verb);
      }
    }
  }

  lemma SurvivingVerb(ss: seq<Segment>, verb: string)
    requires SegmentsOk(ss)
    requires Tokenize(ShowAll(ss) + Tail(verb)).1 == verb
    requires TopLevelOf(Tokenize(ShowAll(ss) + Tail(verb)).0) == Some(ss)
    ensures VerbFits(ss[|ss| - 1], verb)
  {
    var last := ss[|ss| - 1];
    if Has(verb, "/{") {
      StructuredVerbLost(ss, verb);
    } else {
      if !last.Variable? {
        WordVerb(ss, verb);
      }
      if verb == "" && last.Literal? && ':' in last.lit {
        assert ShowAll(ss) + Tail(verb) == ShowAll(ss);
        ColonLiteralLost(ss);
      }
    }
  }

  /** Behind a word the verb starts at the last colon. */
  lemma WordVerb(ss: seq<Segment>, verb: string)
    requires SegmentsOk(ss) && !ss[|ss| - 1].Variable? && !Has(verb, "/{")
    ensures ':' !in Tokenize(ShowAll(ss) + Tail(verb)).1
  {
    ShownTokens(ss, verb);
    FrontEnds(ss);
    NonEmptyShown(ss);
    var w := Show(ss[|ss| - 1]) + Tail(verb);
    hide *;
    LastColon(FrontTokens(ss), w);
  }

  lemma LastColon(f: seq<string>, w: string)
    requires f == [] || f[|f| - 1] == "/"
    ensures ':' !in SplitVerb(f + [w]).1
  {
    var toks := f + [w];
    assert toks[|toks| - 1] == w && (f != [] ==> toks[|toks| - 2] == "/");
  }
}
