/** Writing every variable `{path}` as `{path=*}` changes nothing in what the parser of internal/httprule makes of an
    input, refusals included. */
module HttpRuleExpanded {
  import opened Text
  import opened PathChars
  import opened Lexing
  import opened HttpRule
  import opened HttpRuleSound

  // ---- the expanded input on tokens ------------------------------------------------------

  function Head(st: LexState, t: string): seq<string> {
    if st == InField && t == "}" then ["=", "*", "}"] else [t]
  }

  function After(st: LexState, t: string): LexState {
    if IsSeparator(st, t) then Next(st, t[0]) else st
  }

  /** The tokens with "=" and "*" put before every "}" that closes a variable without a body. */
  function Spread(st: LexState, toks: seq<string>): seq<string>
    decreases |toks|
  {
    if toks == [] then [] else Head(st, toks[0]) + Spread(After(st, toks[0]), toks[1..])
  }

  lemma SpreadFirst(st: LexState, toks: seq<string>)
    requires Ends(toks)
    ensures toks != [] && Spread(st, toks) != []
    ensures !(st == InField && toks[0] == "}") ==>
              Spread(st, toks)[0] == toks[0] && Spread(st, toks)[1..] == Spread(After(st, toks[0]), toks[1..])
  {
    hide IsSeparator, Next;
  }

  lemma {:induction false} SpreadEnds(st: LexState, toks: seq<string>)
    requires Ends(toks)
    ensures Ends(Spread(st, toks))
    decreases |toks|
  {
    hide IsSeparator, Next;
    if |toks| == 1 {
      assert toks[0] == EOF && toks[1..] == [];
      assert Spread(st, toks) == [EOF];
    } else {
      var st' := After(st, toks[0]);
      SpreadEnds(st', toks[1..]);
      assert Spread(st, toks) == Head(st, toks[0]) + Spread(st', toks[1..]);
    }
  }

  lemma {:induction false} SpreadAppend(st: LexState, ts: seq<string>)
    ensures Spread(st, ts + [EOF]) == Spread(st, ts) + [EOF]
    decreases |ts|
  {
    hide IsSeparator, Next;
    if ts == [] {
      assert ([] + [EOF])[1..] == [] && [] + [EOF] == [EOF];
    } else {
      var st' := After(st, ts[0]);
      SpreadAppend(st', ts[1..]);
      assert (ts + [EOF])[1..] == ts[1..] + [EOF] && (ts + [EOF])[0] == ts[0];
      assert Head(st, ts[0]) + (Spread(st', ts[1..]) + [EOF]) == Head(st, ts[0]) + Spread(st', ts[1..]) + [EOF];
    }
  }

  /** Splitting the expanded path is expanding the split path. */
  lemma {:induction false} SpreadTokens(st: LexState, path: string)
    ensures Tokens(st, Expanded(st, path)) == Spread(st, Tokens(st, path))
    decreases |path|
  {
    hide *;
    TokensUnfold(st, path);
    if path == "" {
      NothingSpread(st);
    } else {
      var idx := IndexAny(path, Separators(st));
      if idx < 0 {
        WordSpread(st, path);
      } else {
        var w, c, rest := path[..idx], path[idx], path[idx + 1..];
        SpreadTokens(Next(st, c), rest);
        PieceParts(path, idx);
        PieceSpread(st, w, c, rest);
      }
    }
  }

  lemma NothingSpread(st: LexState)
    ensures Tokens(st, Expanded(st, "")) == [] == Spread(st, [])
  {
  }

  lemma WordSpread(st: LexState, w: string)
    requires w != "" && !Has(w, Separators(st))
    ensures Tokens(st, Expanded(st, w)) == Spread(st, [w])
  {
    ExpandedWord(st, w, "");
    assert Expanded(st, "") == "" && w + "" == w;
    WordIsPlain(st, w);
    hide Tokens, Expanded, Has;
    TokensLast(st, w);
    PlainSpread(st, w, []);
    assert [w] + [] == [w];
  }

  lemma PlainSpread(st: LexState, w: string, toks: seq<string>)
    requires IsPlain(st, w)
    ensures Spread(st, [w] + toks) == [w] + Spread(st, toks)
  {
    PlainIsNoSeparator(st, w);
    assert ([w] + toks)[1..] == toks;
    assert st == InField && w == "}" ==> IsSeparator(InField, w);
  }

  lemma SeparatorSpread(st: LexState, c: char, toks: seq<string>)
    requires c in Separators(st)
    ensures Spread(st, [[c]] + toks) == Head(st, [c]) + Spread(Next(st, c), toks)
  {
    assert ([[c]] + toks)[1..] == toks;
  }

  lemma PieceSpread(st: LexState, w: string, c: char, rest: string)
    requires !Has(w, Separators(st)) && c in Separators(st)
    requires Tokens(Next(st, c), Expanded(Next(st, c), rest)) == Spread(Next(st, c), Tokens(Next(st, c), rest))
    ensures Tokens(st, Expanded(st, w + ([c] + rest))) ==
              Spread(st, (if w == "" then [] else [w]) + [[c]] + Tokens(Next(st, c), rest))
  {
    hide *;
    var more := Expanded(Next(st, c), rest);
    var toks := Tokens(Next(st, c), rest);
    ExpandedWord(st, w, [c] + rest);
    ExpandedSeparator(st, c, rest);
    SeparatorSpread(st, c, toks);
    HeadSplit(st, w, c, more);
    if w == "" {
      assert [] + [[c]] + toks == [[c]] + toks;
      assert [] + Head(st, [c]) + Spread(Next(st, c), toks) == Head(st, [c]) + Spread(Next(st, c), toks);
    } else {
      WordIsPlain(st, w);
      PlainSpread(st, w, [[c]] + toks);
      assert [w] + [[c]] + toks == [w] + ([[c]] + toks);
      assert [w] + Head(st, [c]) + Spread(Next(st, c), toks) == [w] + (Head(st, [c]) + Spread(Next(st, c), toks));
    }
  }

  lemma HeadSplit(st: LexState, w: string, c: char, more: string)
    requires !Has(w, Separators(st)) && c in Separators(st)
    ensures Tokens(st, w + ((if st == InField && c == '}' then "=*}" else [c]) + more)) ==
              (if w == "" then [] else [w]) + Head(st, [c]) + Tokens(Next(st, c), more)
  {
    hide *;
    HeadParts(st, c);
    if st == InField && c == '}' {
      FieldStates();
      TokensStep(InField, w, '=', "*}" + more);
      TokensStep(InNested, "*", '}', more);
      assert w + ("=*}" + more) == w + ['='] + ("*}" + more) && "*}" + more == "*" + ['}'] + more;
      assert [w, "="] + (["*", "}"] + Tokens(InSegments, more)) == [w] + ["=", "*", "}"] + Tokens(InSegments, more);
      assert ["="] + (["*", "}"] + Tokens(InSegments, more)) == [] + ["=", "*", "}"] + Tokens(InSegments, more);
    } else {
      TokensStep(st, w, c, more);
      assert w + ([c] + more) == w + [c] + more;
      assert [w, [c]] == [w] + [[c]] && [] + [[c]] == [[c]];
    }
  }

  lemma HeadParts(st: LexState, c: char)
    ensures Head(st, [c]) == if st == InField && c == '}' then ["=", "*", "}"] else [[c]]
  {
  }

  lemma FieldStates()
    ensures '=' in Separators(InField) && Next(InField, '=') == InNested && Next(InField, '}') == InSegments
    ensures '}' in Separators(InNested) && Next(InNested, '}') == InSegments && !Has("*", Separators(InNested))
  {
  }

  // ---- the parser makes the same of both -------------------------------------------------

  function SpreadRest<T>(st: LexState, p: Parsed<T>): Parsed<T> {
    match p
    case Fail => Fail
    case Got(v, rest) => Got(v, Spread(st, rest))
  }

  lemma {:induction false} SegmentsSpread(st: LexState, toks: seq<string>)
    requires Lexed(st, toks) && Ends(toks) && st != InField
    ensures Ends(Spread(st, toks)) && SegmentsOf(Spread(st, toks)) == SpreadRest(st, SegmentsOf(toks))
    decreases |toks|, 2
  {
    hide *;
    SpreadEnds(st, toks);
    SegmentSpread(st, toks);
    SegmentSound(st, toks);
    var two := Spread(st, toks);
    if SegmentOf(toks) == Fail {
      SpreadFail<One>(st);
      SpreadFail<Run>(st);
      SegmentsFail(toks);
      SegmentsFail(two);
    } else {
      var one, rest := SegmentOf(toks).value, SegmentOf(toks).rest;
      SpreadGot(st, one, rest);
      RestLexed(st, toks);
      SpreadEnds(st, rest);
      SegmentsStep(one, toks, rest);
      SegmentsStep(one, two, Spread(st, rest));
      SpreadFirst(st, rest);
      if !one.multi && rest[0] == "/" {
        SlashOver(st, rest);
        SlashKeeps(st);
        SegmentsSpread(st, rest[1..]);
        PrependSpread(st, [one.segment], SegmentsOf(rest[1..]));
      } else {
        SpreadGot(st, Run([one.segment], one.multi), rest);
      }
    }
  }

  lemma SpreadFail<T>(st: LexState)
    ensures SpreadRest<T>(st, Fail) == Fail
  {
  }

  lemma SpreadGot<T>(st: LexState, v: T, rest: seq<string>)
    ensures SpreadRest(st, Got(v, rest)) == Got(v, Spread(st, rest))
  {
    hide Spread;
  }

  lemma SlashKeeps(st: LexState)
    requires st != InField
    ensures After(st, "/") == st
  {
  }

  lemma PrependSpread(st: LexState, ss: seq<Segment>, p: Parsed<Run>)
    ensures Prepend(ss, SpreadRest(st, p)) == SpreadRest(st, Prepend(ss, p))
  {
    hide Spread;
  }

  /** What SegmentSound says of the rest. */
  lemma RestLexed(st: LexState, toks: seq<string>)
    requires Lexed(st, toks) && Ends(toks) && st != InField && SegmentOf(toks).Got?
    ensures Lexed(st, SegmentOf(toks).rest) && Ends(SegmentOf(toks).rest)
  {
    SegmentSound(st, toks);
    hide SegmentOf, Lexed;
  }

  lemma {:induction false} SegmentSpread(st: LexState, toks: seq<string>)
    requires Lexed(st, toks) && Ends(toks) && st != InField
    ensures Ends(Spread(st, toks)) && SegmentOf(Spread(st, toks)) == SpreadRest(st, SegmentOf(toks))
    decreases |toks|, 1
  {
    hide *;
    SpreadEnds(st, toks);
    SpreadFirst(st, toks);
    var two := Spread(st, toks);
    if IsWord(toks[0]) {
      WordIsNoSeparator(st, toks[0]);
      WordAlone(toks);
      WordAlone(two);
      SameWord(toks, two);
      SpreadGot(st, SegmentOf(toks).value, toks[1..]);
    } else {
      NoWordSegment(toks);
      NoWordSegment(two);
      SpreadFail<One>(st);
      if st == InNested {
        NoVariableInVariable(toks);
        NoVariableSpread(toks);
      } else {
        VariableSpread(toks);
      }
    }
  }

  lemma WordIsNoSeparator(st: LexState, t: string)
    requires IsWord(t) && st != InField
    ensures After(st, t) == st
  {
    assert IsPChars("*") && IsPChars("**");
    LiteralIsPlain(st, t);
  }

  lemma WordAlone(toks: seq<string>)
    requires Ends(toks) && IsWord(toks[0])
    ensures SegmentOf(toks).Got? && SegmentOf(toks).rest == toks[1..]
  {
    hide IsPChars, VariableOf;
  }

  lemma SameWord(a: seq<string>, b: seq<string>)
    requires Ends(a) && Ends(b) && IsWord(a[0]) && a[0] == b[0]
    ensures SegmentOf(a).Got? && SegmentOf(b).Got? && SegmentOf(a).value == SegmentOf(b).value
  {
    hide IsPChars, VariableOf;
  }

  lemma NoVariableSpread(toks: seq<string>)
    requires Lexed(InNested, toks) && Ends(toks)
    ensures Ends(Spread(InNested, toks)) && VariableOf(Spread(InNested, toks)) == Fail
  {
    SpreadEnds(InNested, toks);
    SpreadFirst(InNested, toks);
    if toks[0] == "{" {
      assert !IsSeparator(InNested, toks[0]);
      assert After(InNested, toks[0]) == InNested && toks[0] != EOF;
      hide *;
      WordOver(InNested, toks);
      NotAName(toks[1]);
      SpreadEnds(InNested, toks[1..]);
      SpreadFirst(InNested, toks[1..]);
      NoNameNoVariable(Spread(InNested, toks));
    } else {
      assert !Accepts(LBrace, Spread(InNested, toks)[0]);
    }
  }

  /** The outcome of a variable from its path and its body. */
  function VariableFrom(path: Parsed<seq<string>>): Parsed<One>
    requires path.Got? ==> Ends(path.rest)
  {
    match path
    case Fail => Fail
    case Got(p, rest) =>
      match BodyOf(rest)
      case Fail => Fail
      case Got(body, rest) =>
        if Accepts(RBrace, rest[0]) then Got(One(Variable(p, body.segments), body.multi), rest[1..]) else Fail
  }

  lemma VariableUnfold(toks: seq<string>)
    requires Ends(toks)
    ensures toks[0] != "{" ==> VariableOf(toks) == Fail
    ensures toks[0] == "{" ==> Ends(toks[1..]) && VariableOf(toks) == VariableFrom(FieldPathOf(toks[1..]))
  {
    hide FieldPathOf, BodyOf;
  }

  lemma {:induction false} VariableSpread(toks: seq<string>)
    requires Lexed(InSegments, toks) && Ends(toks)
    ensures Ends(Spread(InSegments, toks))
    ensures VariableOf(Spread(InSegments, toks)) == SpreadRest(InSegments, VariableOf(toks))
    decreases |toks|, 0
  {
    hide *;
    var two := Spread(InSegments, toks);
    SpreadEnds(InSegments, toks);
    SpreadFirst(InSegments, toks);
    VariableUnfold(toks);
    VariableUnfold(two);
    SpreadFail<One>(InSegments);
    if toks[0] == "{" {
      BraceOver(toks);
      BraceOpens();
      PathSpread(toks[1..]);
      var path := FieldPathOf(toks[1..]);
      if path == Fail {
        SpreadFail<seq<string>>(InField);
        NoPath();
      } else {
        SpreadGot(InField, path.value, path.rest);
        BracesSpread(path.value, path.rest);
      }
    }
  }

  lemma BraceOpens()
    ensures After(InSegments, "{") == InField
  {
  }

  lemma NoPath()
    ensures VariableFrom(Fail) == Fail
  {
  }

  /** What stands between the field path and the closing "}". */
  lemma {:induction false} BracesSpread(path: seq<string>, toks: seq<string>)
    requires Lexed(InField, toks) && Ends(toks)
    ensures Ends(Spread(InField, toks))
    ensures VariableFrom(Got(path, Spread(InField, toks))) == SpreadRest(InSegments, VariableFrom(Got(path, toks)))
    decreases |toks|, 3
  {
    hide *;
    SpreadEnds(InField, toks);
    SpreadFirst(InField, toks);
    var two := Spread(InField, toks);
    if toks[0] == "=" {
      EqualsOver(toks);
      EqualsOpens();
      BodyIsSegments(toks);
      BodyIsSegments(two);
      SegmentsSpread(InNested, toks[1..]);
      SegmentsSound(InNested, toks[1..]);
      var body := SegmentsOf(toks[1..]);
      SpreadFail<Run>(InNested);
      if body.Got? {
        SegmentsRest(toks[1..]);
        SpreadGot(InNested, body.value, body.rest);
        SpreadEnds(InNested, body.rest);
        SpreadFirst(InNested, body.rest);
        CloseKeeps(InNested);
      }
      ClosedFrom(path, toks, body);
      ClosedFrom(path, two, SegmentsOf(two[1..]));
      ClosedSpread(path, body);
    } else if toks[0] == "}" {
      ShortSpread(toks);
      ShortClosed(path, toks);
      CloseKeeps(InField);
      WrittenClosed(path, toks[1..], two);
      SpreadGot(InSegments, One(Variable(path, [Wildcard]), false), toks[1..]);
    } else {
      NotClosed(path, toks);
      NotClosed(path, two);
      SpreadFail<One>(InSegments);
    }
  }

  lemma EqualsOpens()
    ensures After(InField, "=") == InNested
  {
  }

  lemma CloseKeeps(st: LexState)
    requires st != InSegments
    ensures After(st, "}") == InSegments
  {
  }

  lemma SegmentsRest(toks: seq<string>)
    requires Ends(toks) && SegmentsOf(toks).Got?
    ensures Ends(SegmentsOf(toks).rest)
  {
  }

  /** How a variable ends behind its body. */
  function Closed(path: seq<string>, body: Parsed<Run>): Parsed<One>
    requires body.Got? ==> body.rest != []
  {
    match body
    case Fail => Fail
    case Got(b, rest) => if rest[0] == "}" then Got(One(Variable(path, b.segments), b.multi), rest[1..]) else Fail
  }

  lemma ClosedFrom(path: seq<string>, toks: seq<string>, body: Parsed<Run>)
    requires Ends(toks) && BodyOf(toks) == body
    ensures body.Got? ==> Ends(body.rest)
    ensures VariableFrom(Got(path, toks)) == Closed(path, body)
  {
    hide BodyOf;
  }

  lemma ClosedSpread(path: seq<string>, body: Parsed<Run>)
    requires body.Got? ==> Ends(body.rest)
    ensures body.Got? ==> Spread(InNested, body.rest) != []
    ensures Closed(path, SpreadRest(InNested, body)) == SpreadRest(InSegments, Closed(path, body))
  {
    hide Spread;
    CloseKeeps(InNested);
    if body.Got? { SpreadFirst(InNested, body.rest); }
  }

  lemma ShortSpread(toks: seq<string>)
    requires Ends(toks) && toks[0] == "}"
    ensures Spread(InField, toks) == ["=", "*", "}"] + Spread(After(InField, "}"), toks[1..])
  {
  }

  lemma ShortClosed(path: seq<string>, toks: seq<string>)
    requires Ends(toks) && toks[0] == "}"
    ensures VariableFrom(Got(path, toks)) == Got(One(Variable(path, [Wildcard]), false), toks[1..])
  {
  }

  lemma WrittenClosed(path: seq<string>, rest: seq<string>, two: seq<string>)
    requires Ends(two) && two == ["=", "*", "}"] + Spread(InSegments, rest)
    ensures VariableFrom(Got(path, two)) == Got(One(Variable(path, [Wildcard]), false), Spread(InSegments, rest))
  {
    var body, close := two[1..], two[2..];
    assert body[0] == "*" && body[1..] == close && close[0] == "}" && close[1..] == Spread(InSegments, rest);
    hide Spread;
    OneStar(body, close);
    hide SegmentsOf, SegmentOf;
    assert BodyOf(two) == Got(Run([Wildcard], false), close);
  }

  lemma OneStar(toks: seq<string>, rest: seq<string>)
    requires Ends(toks) && toks[0] == "*" && toks[1..] == rest && Ends(rest) && rest[0] != "/"
    ensures SegmentsOf(toks) == Got(Run([Wildcard], false), rest)
  {
    hide SegmentsOf;
    SegmentsStep(One(Wildcard, false), toks, rest);
  }

  lemma NotClosed(path: seq<string>, toks: seq<string>)
    requires Ends(toks) && toks[0] != "=" && toks[0] != "}"
    ensures VariableFrom(Got(path, toks)) == Fail
  {
  }

  lemma {:induction false} PathSpread(toks: seq<string>)
    requires Lexed(InField, toks) && Ends(toks)
    ensures Ends(Spread(InField, toks)) && FieldPathOf(Spread(InField, toks)) == SpreadRest(InField, FieldPathOf(toks))
    ensures FieldPathOf(toks).Got? ==> Lexed(InField, FieldPathOf(toks).rest) && Ends(FieldPathOf(toks).rest)
    decreases |toks|
  {
    hide *;
    SpreadEnds(InField, toks);
    SpreadFirst(InField, toks);
    var two := Spread(InField, toks);
    if IsIdentOrEmpty(toks[0]) {
      NameOver(toks);
      NameKeeps(toks[0]);
      var rest := toks[1..];
      SpreadEnds(InField, rest);
      SpreadFirst(InField, rest);
      HeadNoDot(rest);
      PathStep(toks);
      PathStep(two);
      if rest[0] == "." {
        DotOver(rest);
        DotKeeps();
        PathSpread(rest[1..]);
        NamesSpread([toks[0]], FieldPathOf(rest[1..]));
      } else {
        NamesSpread([toks[0]], Got([], rest));
        SpreadGot<seq<string>>(InField, [], rest);
      }
    } else {
      NoNamePath(toks);
      NoNameSpread(toks);
      SpreadFail<seq<string>>(InField);
    }
  }

  lemma NameKeeps(t: string)
    requires IsIdent(t)
    ensures After(InField, t) == InField && t != "}"
  {
    assert IsIdentChar(t[0]);
  }

  lemma HeadNoDot(toks: seq<string>)
    requires Ends(toks)
    ensures Spread(InField, toks) != [] && (Spread(InField, toks)[0] == "." <==> toks[0] == ".")
  {
  }

  lemma DotKeeps()
    ensures After(InField, ".") == InField
  {
  }

  lemma NamesSpread(names: seq<string>, p: Parsed<seq<string>>)
    ensures PrependNames(names, SpreadRest(InField, p)) == SpreadRest(InField, PrependNames(names, p))
    ensures p.Got? ==> PrependNames(names, p).Got? && PrependNames(names, p).rest == p.rest
    ensures p == Fail ==> PrependNames(names, p) == Fail
  {
    hide Spread;
  }

  lemma NoNamePath(toks: seq<string>)
    requires Ends(toks) && !IsIdentOrEmpty(toks[0])
    ensures FieldPathOf(toks) == Fail
  {
  }

  lemma NoNameSpread(toks: seq<string>)
    requires Ends(toks) && !IsIdentOrEmpty(toks[0])
    ensures Ends(Spread(InField, toks)) && FieldPathOf(Spread(InField, toks)) == Fail
  {
    SpreadEnds(InField, toks);
    var two := Spread(InField, toks);
    assert two[0] == if toks[0] == "}" then "=" else toks[0];
    hide Spread;
    assert !IsIdentChar("="[0]);
    NoNamePath(two);
  }

  // ---- templates -------------------------------------------------------------------------

  /** What taking off the verb makes of the rest. */
  function SpreadCut(cut: Option<Cut>): Option<Cut> {
    match cut
    case None => None
    case Some(c) => Some(Cut(c.segments, c.verb, Spread(InSegments, c.left)))
  }

  lemma CutSpread(ss: seq<Segment>, left: seq<string>)
    requires ss != [] && Ends(left)
    ensures Ends(Spread(InSegments, left)) && CutVerb(ss, Spread(InSegments, left)) == SpreadCut(CutVerb(ss, left))
  {
    hide *;
    var two := Spread(InSegments, left);
    SpreadEnds(InSegments, left);
    SpreadFirst(InSegments, left);
    if Accepts(Verb, left[0]) {
      VerbKeeps(left[0]);
    }
    CutBoth(ss, left, two);
  }

  lemma CutBoth(ss: seq<Segment>, left: seq<string>, two: seq<string>)
    requires ss != [] && Ends(left) && Ends(two) && two == Spread(InSegments, left) && two[0] == left[0]
    requires Accepts(Verb, left[0]) ==> two[1..] == Spread(InSegments, left[1..])
    ensures CutVerb(ss, two) == SpreadCut(CutVerb(ss, left))
  {
    hide Spread, Accepts, LastIndex;
  }

  lemma VerbKeeps(t: string)
    requires Accepts(Verb, t)
    ensures After(InSegments, t) == InSegments
  {
    LiteralIsPlain(InSegments, t);
  }

  /** Everything but the text of the template itself. */
  predicate SameTemplate(a: Option<Template>, b: Option<Template>) {
    && (a.Some? <==> b.Some?)
    && (a.Some? ==> a.value.segments == b.value.segments && a.value.verb == b.value.verb)
  }

  /** What is made of segments once the verb is taken off and nothing is left. */
  function TemplateFrom(tmpl: string, cut: Option<Cut>): Option<Template>
    requires cut.Some? ==> Ends(cut.value.left)
  {
    match cut
    case None => None
    case Some(c) => if Accepts(End, c.left[0]) then Some(Template(tmpl, c.segments, c.verb)) else None
  }

  lemma TemplateUnfold(tmpl: string, toks: seq<string>)
    requires Ends(toks)
    ensures toks[0] == EOF ==> TemplateOf(tmpl, toks) == Some(Template(tmpl, [Literal("")], ""))
    ensures toks[0] != EOF && SegmentsOf(toks) == Fail ==> TemplateOf(tmpl, toks) == None
    ensures toks[0] != EOF && SegmentsOf(toks).Got? ==>
              var run, rest := SegmentsOf(toks).value, SegmentsOf(toks).rest;
              run.segments != [] && Ends(rest) && TemplateOf(tmpl, toks) == TemplateFrom(tmpl, CutVerb(run.segments, rest))
  {
    hide SegmentsOf, CutVerb;
  }

  lemma SameCut(tmpl: string, tmpl': string, cut: Option<Cut>)
    requires cut.Some? ==> Ends(cut.value.left) && Ends(Spread(InSegments, cut.value.left))
    requires cut.Some? ==> Spread(InSegments, cut.value.left)[0] == cut.value.left[0]
    ensures SameTemplate(TemplateFrom(tmpl, cut), TemplateFrom(tmpl', SpreadCut(cut)))
  {
    hide Spread;
  }

  lemma SameRoot(tmpl: string, tmpl': string)
    ensures SameTemplate(Some(Template(tmpl, [Literal("")], "")), Some(Template(tmpl', [Literal("")], "")))
    ensures SameTemplate(None, None)
  {
  }

  lemma CutEnds(ss: seq<Segment>, left: seq<string>)
    requires ss != [] && Ends(left)
    ensures CutVerb(ss, left).Some? ==> Ends(CutVerb(ss, left).value.left)
  {
  }

  lemma TemplateSpread(tmpl: string, tmpl': string, toks: seq<string>)
    requires Lexed(InSegments, toks) && Ends(toks)
    ensures Ends(Spread(InSegments, toks))
    ensures SameTemplate(TemplateOf(tmpl, toks), TemplateOf(tmpl', Spread(InSegments, toks)))
  {
    hide *;
    var two := Spread(InSegments, toks);
    SpreadEnds(InSegments, toks);
    SpreadFirst(InSegments, toks);
    SegmentsSpread(InSegments, toks);
    TemplateUnfold(tmpl, toks);
    TemplateUnfold(tmpl', two);
    SameRoot(tmpl, tmpl');
    SpreadFail<Run>(InSegments);
    if toks[0] != EOF && SegmentsOf(toks).Got? {
      var run, rest := SegmentsOf(toks).value, SegmentsOf(toks).rest;
      SpreadGot(InSegments, run, rest);
      CutSpread(run.segments, rest);
      CutEnds(run.segments, rest);
      var cut := CutVerb(run.segments, rest);
      if cut.Some? {
        SpreadEnds(InSegments, cut.value.left);
        SpreadFirst(InSegments, cut.value.left);
      }
      SameCut(tmpl, tmpl', cut);
    }
  }

  /** Every input parses like the input with each `{path}` written as `{path=*}`, or neither does. */
  lemma ExpandedParses(tmpl: string)
    requires tmpl != "" && tmpl[0] == '/'
    ensures SameTemplate(ParseOf(tmpl), ParseOf(Input(tmpl)))
  {
    hide *;
    var path := tmpl[1..];
    var toks := Tokens(InSegments, path);
    TokensLexed(InSegments, path);
    LexedEnds(InSegments, toks + [EOF]);
    SpreadTokens(InSegments, path);
    SpreadAppend(InSegments, toks);
    TemplateSpread(tmpl, Input(tmpl), toks + [EOF]);
    InputParts(tmpl);
    ParseParts(tmpl);
    ParseParts(Input(tmpl));
  }

  lemma InputParts(tmpl: string)
    requires tmpl != ""
    ensures Input(tmpl) != "" && Input(tmpl)[0] == '/' && Input(tmpl)[1..] == Expanded(InSegments, tmpl[1..])
  {
    hide Expanded;
  }

  lemma ParseParts(tmpl: string)
    requires tmpl != "" && tmpl[0] == '/'
    ensures Ends(Tokens(InSegments, tmpl[1..]) + [EOF])
    ensures ParseOf(tmpl) == TemplateOf(tmpl, Tokens(InSegments, tmpl[1..]) + [EOF])
  {
    hide Tokens, TemplateOf;
  }
}
