/** What taking "/" for any punctuation does to parsing: the grammar without that leniency, and exactly the templates
    on which the two differ. */
module GwStrict {
  import opened Text
  import opened PathChars
  import opened Lexing
  import opened GwTemplate
  import opened GwShape
  import opened GwInverse

  // ---- the strict grammar ---------------------------------------------------------------

  /** Every punctuation term takes its own token only. */
  predicate Takes(term: Term, t: string) {
    match term
    case End => t == EOF
    case Ident => IsIdent(t)
    case Lit => IsPChars(t)
    case _ => t == Punctuation(term)
  }

  function StrictSegmentsOf(toks: seq<string>): (r: Parsed<seq<Segment>>)
    requires Ends(toks)
    ensures r.Got? ==> Ends(r.rest) && |r.rest| < |toks| && |r.value| > 0
    decreases |toks|, 2
  {
    match StrictSegmentOf(toks)
    case Fail => Fail
    case Got(s, rest) =>
      if Takes(Slash, rest[0]) then Prepend([s], StrictSegmentsOf(rest[1..])) else Got([s], rest)
  }

  function StrictSegmentOf(toks: seq<string>): (r: Parsed<Segment>)
    requires Ends(toks)
    ensures r.Got? ==> Ends(r.rest) && |r.rest| < |toks|
    decreases |toks|, 1
  {
    if Takes(Star, toks[0]) then Got(Wildcard, toks[1..])
    else if Takes(StarStar, toks[0]) then Got(DeepWildcard, toks[1..])
    else if Takes(Lit, toks[0]) then Got(Literal(toks[0]), toks[1..])
    else StrictVariableOf(toks)
  }

  function StrictVariableOf(toks: seq<string>): (r: Parsed<Segment>)
    requires Ends(toks)
    ensures r.Got? ==> Ends(r.rest) && |r.rest| < |toks|
    decreases |toks|, 0
  {
    if !Takes(LBrace, toks[0]) then Fail
    else
      match StrictComponentsOf(toks[1..])
      case Fail => Fail
      case Got(comps, rest) =>
        match StrictBodyOf(rest)
        case Fail => Fail
        case Got(body, rest) =>
          if Takes(RBrace, rest[0]) then Got(Variable(Join(comps, "."), body), rest[1..]) else Fail
  }

  function StrictBodyOf(toks: seq<string>): (r: Parsed<seq<Segment>>)
    requires Ends(toks)
    ensures r.Got? ==> Ends(r.rest) && |r.rest| <= |toks|
    decreases |toks|, 0
  {
    if Takes(Equals, toks[0]) then StrictSegmentsOf(toks[1..]) else Got([Wildcard], toks)
  }

  function StrictComponentsOf(toks: seq<string>): (r: Parsed<seq<string>>)
    requires Ends(toks)
    ensures r.Got? ==> Ends(r.rest) && |r.rest| < |toks| && |r.value| > 0
    decreases |toks|
  {
    if !Takes(Ident, toks[0]) then Fail
    else if Takes(Dot, toks[1]) then PrependNames([toks[0]], StrictComponentsOf(toks[1..][1..]))
    else Got([toks[0]], toks[1..])
  }

  function StrictTopLevelOf(toks: seq<string>): Option<seq<Segment>>
    requires Ends(toks)
  {
    if Takes(End, toks[0]) then Some([Literal(EOF)])
    else
      match StrictSegmentsOf(toks)
      case Fail => None
      case Got(segs, rest) => if Takes(End, rest[0]) then Some(segs) else None
  }

  function StrictParseOf(tmpl: string): Option<Template> {
    if tmpl == "" || tmpl[0] != '/' then None
    else
      var (tokens, verb) := Tokenize(tmpl[1..]);
      match StrictTopLevelOf(tokens)
      case None => None
      case Some(segs) => Some(Template(segs, verb, tmpl))
  }

  // ---- where the two part ---------------------------------------------------------------

  /** A "/" stands where a segment should start: first of all, behind another "/", or behind the "=" of a variable. */
  predicate Odd(st: LexState, start: bool, toks: seq<string>)
    decreases |toks|
  {
    toks != [] && toks[0] != EOF
    && ((toks[0] == "/" && start && st != InField)
        || Odd(After(st, toks[0]), IsSeparator(st, toks[0]) && (toks[0] == "/" || toks[0] == "="), toks[1..]))
  }

  function After(st: LexState, t: string): LexState {
    if IsSeparator(st, t) then Next(st, t[0]) else st
  }

  /** The strict parse is the lenient one with nothing odd consumed, or fails where something odd was. */
  predicate Agrees<T(==)>(lenient: Parsed<T>, strict: Parsed<T>, odd: bool, oddLeft: bool) {
    && (lenient == Fail ==> strict == Fail)
    && (lenient.Got? ==> if strict == Fail then odd else strict == lenient && odd == oddLeft)
  }

  predicate OddLeft<T>(st: LexState, p: Parsed<T>) {
    p.Got? && Odd(st, false, p.rest)
  }

  lemma OddWord(st: LexState, start: bool, toks: seq<string>)
    requires toks != [] && toks[0] != EOF && toks[0] != "/" && !IsSeparator(st, toks[0])
    ensures Odd(st, start, toks) == Odd(st, false, toks[1..])
  {
  }

  lemma OddSeparator(st: LexState, start: bool, toks: seq<string>)
    requires toks != [] && IsSeparator(st, toks[0]) && (start ==> toks[0] != "/" || st == InField)
    ensures toks[0] != EOF
    ensures Odd(st, start, toks) == Odd(Next(st, toks[0][0]), toks[0] == "/" || toks[0] == "=", toks[1..])
  {
    assert EOF[0] !in Separators(st);
  }

  lemma OddSlash(st: LexState, toks: seq<string>)
    requires toks != [] && toks[0] == "/" && st != InField
    ensures Odd(st, true, toks)
  {
    assert EOF[0] == '\0';
  }

  lemma {:induction false} SegmentsAgree(st: LexState, toks: seq<string>)
    requires Lexed(st, toks) && Ends(toks) && st != InField
    ensures Agrees(SegmentsOf(toks), StrictSegmentsOf(toks), Odd(st, true, toks), OddLeft(st, SegmentsOf(toks)))
    decreases |toks|, 2
  {
    hide *;
    SegmentAgrees(st, toks);
    SegmentShape(st, toks);
    StrictUnfold(toks);
    match SegmentOf(toks) {
      case Fail =>
        SegmentsFail(toks);
        BothFail(SegmentOf(toks), StrictSegmentOf(toks), Odd(st, true, toks), OddLeft(st, SegmentOf(toks)));
        EitherFails(SegmentsOf(toks), StrictSegmentsOf(toks), Odd(st, true, toks), OddLeft(st, SegmentsOf(toks)));
      case Got(s, rest) =>
        SegmentsStep(s, toks, rest);
        if rest[0] == "/" {
          SlashOver(st, rest);
          SegmentsAgree(st, rest[1..]);
          SlashKeeps(st, rest);
          MoreAgree(st, toks, s, rest);
        } else {
          LastAgrees(st, toks, s, rest);
        }
    }
  }

  lemma StrictUnfold(toks: seq<string>)
    requires Ends(toks)
    ensures StrictSegmentOf(toks) == Fail ==> StrictSegmentsOf(toks) == Fail
    ensures StrictSegmentOf(toks).Got? ==>
              var s, rest := StrictSegmentOf(toks).value, StrictSegmentOf(toks).rest;
              && Ends(rest)
              && StrictSegmentsOf(toks) == if rest[0] == "/" then Prepend([s], StrictSegmentsOf(rest[1..])) else Got([s], rest)
  {
    hide StrictSegmentOf;
  }

  lemma BothFail<T>(p: Parsed<T>, q: Parsed<T>, odd: bool, left: bool)
    requires Agrees(p, q, odd, left) && p == Fail
    ensures q == Fail
  {
  }

  lemma EitherFails<T>(p: Parsed<T>, q: Parsed<T>, odd: bool, left: bool)
    requires q == Fail && (p.Got? ==> odd)
    ensures Agrees(p, q, odd, left)
  {
  }

  lemma SlashKeeps(st: LexState, rest: seq<string>)
    requires rest != [] && rest[0] == "/" && st != InField
    ensures Odd(st, false, rest) == Odd(st, true, rest[1..])
  {
    assert IsSeparator(st, "/") && Next(st, '/') == st;
    OddSeparator(st, false, rest);
  }

  lemma MoreAgree(st: LexState, toks: seq<string>, s: Segment, rest: seq<string>)
    requires Ends(toks) && Ends(rest) && rest[0] == "/" && Ends(rest[1..]) && SegmentOf(toks) == Got(s, rest)
    requires Agrees(SegmentOf(toks), StrictSegmentOf(toks), Odd(st, true, toks), OddLeft(st, SegmentOf(toks)))
    requires Agrees(SegmentsOf(rest[1..]), StrictSegmentsOf(rest[1..]), Odd(st, true, rest[1..]), OddLeft(st, SegmentsOf(rest[1..])))
    requires Odd(st, false, rest) == Odd(st, true, rest[1..])
    requires SegmentsOf(toks) == Prepend([s], SegmentsOf(rest[1..]))
    requires StrictSegmentOf(toks) == Fail ==> StrictSegmentsOf(toks) == Fail
    requires StrictSegmentOf(toks) == Got(s, rest) ==> StrictSegmentsOf(toks) == Prepend([s], StrictSegmentsOf(rest[1..]))
    ensures Agrees(SegmentsOf(toks), StrictSegmentsOf(toks), Odd(st, true, toks), OddLeft(st, SegmentsOf(toks)))
  {
    hide SegmentsOf, SegmentOf, StrictSegmentsOf, StrictSegmentOf, Odd;
  }

  lemma LastAgrees(st: LexState, toks: seq<string>, s: Segment, rest: seq<string>)
    requires Ends(toks) && SegmentOf(toks) == Got(s, rest)
    requires Agrees(SegmentOf(toks), StrictSegmentOf(toks), Odd(st, true, toks), OddLeft(st, SegmentOf(toks)))
    requires SegmentsOf(toks) == Got([s], rest)
    requires StrictSegmentOf(toks) == Fail ==> StrictSegmentsOf(toks) == Fail
    requires StrictSegmentOf(toks) == Got(s, rest) ==> StrictSegmentsOf(toks) == Got([s], rest)
    ensures Agrees(SegmentsOf(toks), StrictSegmentsOf(toks), Odd(st, true, toks), OddLeft(st, SegmentsOf(toks)))
  {
    hide SegmentsOf, SegmentOf, StrictSegmentsOf, StrictSegmentOf, Odd;
  }

  lemma {:induction false} SegmentAgrees(st: LexState, toks: seq<string>)
    requires Lexed(st, toks) && Ends(toks) && st != InField
    ensures Agrees(SegmentOf(toks), StrictSegmentOf(toks), Odd(st, true, toks), OddLeft(st, SegmentOf(toks)))
    decreases |toks|, 1
  {
    hide *;
    NotEmpty(toks);
    if toks[0] == "/" {
      OddSlash(st, toks);
      SlashWildcard(toks);
      EitherFails(SegmentOf(toks), StrictSegmentOf(toks), Odd(st, true, toks), OddLeft(st, SegmentOf(toks)));
    } else if IsWord(toks[0]) {
      SegmentCases(toks);
      WordTaken(st, toks);
      OddWord(st, true, toks);
      SameTaken(st, SegmentOf(toks), Odd(st, true, toks));
    } else if st == InNested {
      SegmentCases(toks);
      NoVariableInVariable(toks);
      NoStrictVariable(toks);
      EitherFails(SegmentOf(toks), StrictSegmentOf(toks), Odd(st, true, toks), OddLeft(st, SegmentOf(toks)));
    } else {
      SegmentCases(toks);
      VariableAgrees(toks);
    }
  }

  lemma NotEmpty(toks: seq<string>)
    requires Ends(toks)
    ensures toks != []
  {
  }

  predicate IsWord(t: string) {
    t == "*" || t == "**" || IsPChars(t)
  }

  lemma SegmentCases(toks: seq<string>)
    requires Ends(toks) && toks[0] != "/"
    ensures IsWord(toks[0]) ==> SegmentOf(toks) == StrictSegmentOf(toks) && SegmentOf(toks).Got? && SegmentOf(toks).rest == toks[1..]
    ensures !IsWord(toks[0]) ==> SegmentOf(toks) == VariableOf(toks) && StrictSegmentOf(toks) == StrictVariableOf(toks)
  {
    hide VariableOf, StrictVariableOf, IsPChars;
  }

  lemma SlashWildcard(toks: seq<string>)
    requires Ends(toks) && toks[0] == "/"
    ensures SegmentOf(toks) == Got(Wildcard, toks[1..]) && StrictSegmentOf(toks) == Fail
  {
    hide IsPChars, VariableOf, StrictComponentsOf, StrictBodyOf;
    NoPChars();
  }

  lemma NoPChars()
    ensures !IsPChars("/") && !IsPChars("{")
  {
  }

  lemma WordTaken(st: LexState, toks: seq<string>)
    requires toks != [] && IsWord(toks[0]) && st != InField
    ensures toks[0] != EOF && !IsSeparator(st, toks[0])
  {
    assert IsPChars("*") && IsPChars("**");
    LiteralIsPlain(st, toks[0]);
  }

  lemma SameTaken<T>(st: LexState, p: Parsed<T>, odd: bool)
    requires p.Got? && odd == Odd(st, false, p.rest)
    ensures Agrees(p, p, odd, OddLeft(st, p))
  {
    hide Odd;
  }

  lemma NoStrictVariable(toks: seq<string>)
    requires Lexed(InNested, toks) && Ends(toks)
    ensures StrictVariableOf(toks) == Fail
  {
    if toks[0] == "{" {
      assert !IsSeparator(InNested, toks[0]);
      LexedOver(InNested, toks);
      assert !IsIdent(toks[1]);
    }
  }

  lemma {:induction false} VariableAgrees(toks: seq<string>)
    requires Lexed(InSegments, toks) && Ends(toks) && toks[0] != "/"
    ensures Agrees(VariableOf(toks), StrictVariableOf(toks), Odd(InSegments, true, toks), OddLeft(InSegments, VariableOf(toks)))
    decreases |toks|, 0
  {
    hide *;
    NotEmpty(toks);
    if toks[0] != "{" {
      NoBrace(toks);
      EitherFails(VariableOf(toks), StrictVariableOf(toks), Odd(InSegments, true, toks), OddLeft(InSegments, VariableOf(toks)));
    } else {
      BraceOver(toks);
      BraceKeeps(toks);
      ComponentsAgree(toks[1..]);
      match ComponentsOf(toks[1..]) {
        case Fail =>
          NoPath(toks);
          EitherFails(VariableOf(toks), StrictVariableOf(toks), Odd(InSegments, true, toks), OddLeft(InSegments, VariableOf(toks)));
        case Got(comps, mid) =>
          var st := BodyAgrees(mid);
          CloseAgrees(toks, comps, mid, st);
      }
    }
  }

  lemma NoBrace(toks: seq<string>)
    requires Ends(toks) && toks[0] != "{" && toks[0] != "/"
    ensures VariableOf(toks) == Fail && StrictVariableOf(toks) == Fail
  {
  }

  lemma NoPath(toks: seq<string>)
    requires Ends(toks) && toks[0] == "{" && Ends(toks[1..])
    requires ComponentsOf(toks[1..]) == Fail && StrictComponentsOf(toks[1..]) == Fail
    ensures VariableOf(toks) == Fail && StrictVariableOf(toks) == Fail
  {
    hide ComponentsOf, StrictComponentsOf;
  }

  lemma BraceKeeps(toks: seq<string>)
    requires toks != [] && toks[0] == "{"
    ensures Odd(InSegments, true, toks) == Odd(InField, false, toks[1..])
  {
    assert IsSeparator(InSegments, "{") && Next(InSegments, '{') == InField;
    OddSeparator(InSegments, true, toks);
  }

  /** Nothing is odd in a field path, since "/" separates nothing there. */
  lemma {:induction false} ComponentsAgree(toks: seq<string>)
    requires Lexed(InField, toks) && Ends(toks)
    ensures StrictComponentsOf(toks) == ComponentsOf(toks)
    ensures ComponentsOf(toks).Got? ==>
              && Lexed(InField, ComponentsOf(toks).rest) && ComponentsOf(toks).rest[0] != "/"
              && Odd(InField, false, toks) == Odd(InField, false, ComponentsOf(toks).rest)
    decreases |toks|
  {
    hide *;
    NotEmpty(toks);
    if IsIdent(toks[0]) {
      var rest := toks[1..];
      NameOver(toks);
      NameKeeps(toks);
      ComponentStep(toks[0], rest);
      StrictStep(toks);
      assert toks == [toks[0]] + rest;
      if rest[0] == "." {
        DotOver(rest);
        DotKeeps(rest);
        ComponentsAgree(rest[1..]);
        Prepended([toks[0]], ComponentsOf(rest[1..]));
      } else {
        OneName(toks[0], rest);
      }
    } else {
      NoName(toks);
    }
  }

  lemma NoName(toks: seq<string>)
    requires Ends(toks) && !IsIdent(toks[0])
    ensures StrictComponentsOf(toks) == Fail && ComponentsOf(toks) == Fail
  {
    hide IsIdent;
  }

  lemma StrictStep(toks: seq<string>)
    requires Ends(toks) && IsIdent(toks[0]) && Ends(toks[1..])
    ensures StrictComponentsOf(toks) ==
              if toks[1] == "." then PrependNames([toks[0]], StrictComponentsOf(toks[1..][1..])) else Got([toks[0]], toks[1..])
  {
  }

  lemma NameKeeps(toks: seq<string>)
    requires toks != [] && IsIdent(toks[0])
    ensures Odd(InField, false, toks) == Odd(InField, false, toks[1..])
  {
    assert !IsSeparator(InField, toks[0]);
    OddWord(InField, false, toks);
  }

  lemma DotKeeps(toks: seq<string>)
    requires toks != [] && toks[0] == "."
    ensures Odd(InField, false, toks) == Odd(InField, false, toks[1..])
  {
    assert IsSeparator(InField, ".") && Next(InField, '.') == InField;
    OddSeparator(InField, false, toks);
  }

  lemma Prepended(names: seq<string>, p: Parsed<seq<string>>)
    ensures PrependNames(names, p).Got? <==> p.Got?
    ensures p.Got? ==> PrependNames(names, p).rest == p.rest
  {
  }

  lemma OneName(name: string, rest: seq<string>)
    ensures PrependNames([name], Got([], rest)) == Got([name], rest)
  {
    assert [name] + [] == [name];
  }

  lemma {:induction false} BodyAgrees(toks: seq<string>) returns (st: LexState)
    requires Lexed(InField, toks) && Ends(toks) && toks[0] != "/"
    ensures st != InSegments && (BodyOf(toks).Got? ==> BodyOf(toks).rest[0] != "/")
    ensures Agrees(BodyOf(toks), StrictBodyOf(toks), Odd(InField, false, toks), OddLeft(st, BodyOf(toks)))
    decreases |toks|, 3
  {
    hide *;
    NotEmpty(toks);
    BodyCases(toks);
    if toks[0] == "=" {
      EqualsOver(toks);
      st := InNested;
      SegmentsAgree(InNested, toks[1..]);
    } else {
      st := InField;
      SameTaken(InField, BodyOf(toks), Odd(InField, false, toks));
    }
  }

  lemma BodyCases(toks: seq<string>)
    requires Ends(toks) && toks[0] != "/"
    ensures toks[0] == "=" ==>
              && Ends(toks[1..]) && BodyOf(toks) == SegmentsOf(toks[1..]) && StrictBodyOf(toks) == StrictSegmentsOf(toks[1..])
              && (BodyOf(toks).Got? ==> BodyOf(toks).rest[0] != "/")
    ensures toks[0] != "=" ==> BodyOf(toks) == StrictBodyOf(toks) == Got([Wildcard], toks)
  {
    hide SegmentsOf, StrictSegmentsOf;
  }

  lemma EqualsOver(toks: seq<string>)
    requires Lexed(InField, toks) && Ends(toks) && toks[0] == "="
    ensures Ends(toks[1..]) && Lexed(InNested, toks[1..]) && Odd(InField, false, toks) == Odd(InNested, true, toks[1..])
  {
    assert IsSeparator(InField, "=") && Next(InField, '=') == InNested;
    LexedOver(InField, toks);
    EqualsKeeps(toks);
  }

  lemma CloseAgrees(toks: seq<string>, comps: seq<string>, mid: seq<string>, st: LexState)
    requires Ends(toks) && toks[0] == "{" && Ends(toks[1..]) && Ends(mid) && st != InSegments
    requires ComponentsOf(toks[1..]) == StrictComponentsOf(toks[1..]) == Got(comps, mid)
    requires BodyOf(mid).Got? ==> BodyOf(mid).rest[0] != "/"
    requires Agrees(BodyOf(mid), StrictBodyOf(mid), Odd(InField, false, mid), OddLeft(st, BodyOf(mid)))
    requires Odd(InSegments, true, toks) == Odd(InField, false, mid)
    ensures Agrees(VariableOf(toks), StrictVariableOf(toks), Odd(InSegments, true, toks), OddLeft(InSegments, VariableOf(toks)))
  {
    hide ComponentsOf, StrictComponentsOf, BodyOf, StrictBodyOf, Odd, Lexed;
    if BodyOf(mid).Got? && BodyOf(mid).rest[0] == "}" {
      CloseKeeps(st, BodyOf(mid).rest);
    }
  }

  lemma CloseKeeps(st: LexState, toks: seq<string>)
    requires toks != [] && toks[0] == "}" && st != InSegments
    ensures Odd(st, false, toks) == Odd(InSegments, false, toks[1..])
  {
    assert IsSeparator(st, "}") && Next(st, '}') == InSegments;
    OddSeparator(st, false, toks);
  }

  /** For every input the strict parser gives what the lenient one gives if no "/" stands where a segment should start,
      and nothing otherwise. */
  lemma StrictIff(tmpl: string)
    ensures StrictParseOf(tmpl) ==
              if tmpl != "" && Odd(InSegments, true, Tokenize(tmpl[1..]).0) then None else ParseOf(tmpl)
  {
    hide *;
    if tmpl == "" || tmpl[0] != '/' {
      NeitherParses(tmpl);
    } else {
      var toks := Tokenize(tmpl[1..]).0;
      TokenizeLexed(tmpl[1..]);
      SegmentsAgree(InSegments, toks);
      TopAgrees(toks);
      ParsedByTop(tmpl);
    }
  }

  lemma NeitherParses(tmpl: string)
    requires tmpl == "" || tmpl[0] != '/'
    ensures StrictParseOf(tmpl) == None && ParseOf(tmpl) == None
  {
  }

  lemma ParsedByTop(tmpl: string)
    requires tmpl != "" && tmpl[0] == '/'
    ensures var (toks, verb) := Tokenize(tmpl[1..]);
            && ParseOf(tmpl) == (if TopLevelOf(toks).None? then None else Some(Template(TopLevelOf(toks).value, verb, tmpl)))
            && StrictParseOf(tmpl) ==
                 (if StrictTopLevelOf(toks).None? then None else Some(Template(StrictTopLevelOf(toks).value, verb, tmpl)))
  {
    hide Tokenize, TopLevelOf, StrictTopLevelOf;
  }

  lemma TopAgrees(toks: seq<string>)
    requires Ends(toks)
    requires Agrees(SegmentsOf(toks), StrictSegmentsOf(toks), Odd(InSegments, true, toks), OddLeft(InSegments, SegmentsOf(toks)))
    ensures StrictTopLevelOf(toks) == if Odd(InSegments, true, toks) then None else TopLevelOf(toks)
  {
    hide SegmentsOf, StrictSegmentsOf, Lexed;
  }

  // ---- on the text of a template --------------------------------------------------------

  /** A "/" stands right behind another one or behind "=". */
  predicate Doubled(s: string) {
    exists k :: 0 < k < |s| && s[k] == '/' && (s[k - 1] == '/' || s[k - 1] == '=')
  }

  lemma DoubledAt(s: string, k: nat)
    requires 0 < k < |s| && s[k] == '/' && (s[k - 1] == '/' || s[k - 1] == '=')
    ensures Doubled(s)
  {
  }

  lemma DoubledWithin(a: string, s: string, b: string)
    requires Doubled(s)
    ensures Doubled(a + s + b)
  {
    var k :| 0 < k < |s| && s[k] == '/' && (s[k - 1] == '/' || s[k - 1] == '=');
    var all := a + s + b;
    assert all[|a| + k] == s[k] && all[|a| + k - 1] == s[k - 1];
    DoubledAt(all, |a| + k);
  }

  /** What is odd in the tokens is doubled in the text. */
  lemma {:induction false} OddDoubled(st: LexState, start: bool, c: char, toks: seq<string>)
    requires Odd(st, start, toks) && (start ==> c == '/' || c == '=') && NoneEmpty(toks)
    ensures Doubled([c] + Concat(toks))
    decreases |toks|
  {
    hide *;
    OddParts(st, start, toks);
    var t, rest := toks[0], toks[1..];
    if t == "/" && start {
      assert ([c] + (t + Concat(rest)))[1] == '/';
      DoubledAt([c] + (t + Concat(rest)), 1);
    } else {
      var n := |t| - 1;
      OddDoubled(After(st, t), IsSeparator(st, t) && (t == "/" || t == "="), t[n], rest);
      assert [c] + (t + Concat(rest)) == ([c] + t[..n]) + ([t[n]] + Concat(rest)) + "";
      DoubledWithin([c] + t[..n], [t[n]] + Concat(rest), "");
    }
  }

  lemma OddParts(st: LexState, start: bool, toks: seq<string>)
    requires Odd(st, start, toks) && NoneEmpty(toks)
    ensures toks != [] && toks[0] != "" && NoneEmpty(toks[1..]) && Concat(toks) == toks[0] + Concat(toks[1..])
    ensures var t := toks[0];
            (t == "/" && start) || Odd(After(st, t), IsSeparator(st, t) && (t == "/" || t == "="), toks[1..])
  {
    hide IsSeparator, After;
  }

  /** The tokens before the end marker are the path up to the verb. */
  lemma TokenizedText(path: string) returns (ts: seq<string>, tail: string)
    ensures Tokenize(path).0 == ts + [EOF] && NoneEmpty(ts) && path == Concat(ts) + tail
  {
    hide *;
    TokensConcat(InSegments, path);
    TokensNonEmpty(InSegments, path);
    ts, tail := TokenizedParts(path);
  }

  lemma TokenizedParts(path: string) returns (ts: seq<string>, tail: string)
    requires Concat(Tokens(InSegments, path)) == path && NoneEmpty(Tokens(InSegments, path))
    ensures Tokenize(path).0 == ts + [EOF] && NoneEmpty(ts) && path == Concat(ts) + tail
  {
    hide Tokens, Concat, VerbIndex;
    if path == "" {
      ts, tail := [], "";
      assert [] + [EOF] == [EOF];
      NothingConcat(path);
    } else {
      SomeToken(InSegments, path);
      var all := Tokens(InSegments, path);
      var n := |all| - 1;
      var idx := VerbIndex(all);
      var cut := if idx < 0 then |all[n]| else idx;
      ts := if cut == 0 then all[..n] else all[..n] + [all[n][..cut]];
      tail := all[n][cut..];
      assert idx < 0 ==> all[n][..cut] == all[n];
      assert all == all[..n] + [all[n]];
      assert all[n := all[n][..cut]] == all[..n] + [all[n][..cut]];
      CutConcat(all[..n], all[n], cut);
    }
  }

  lemma NothingConcat(path: string)
    requires path == ""
    ensures path == Concat([]) + ""
  {
  }

  lemma CutConcat(front: seq<string>, t: string, cut: nat)
    requires cut <= |t|
    ensures Concat(front + [t]) == Concat(if cut == 0 then front else front + [t[..cut]]) + t[cut..]
  {
    ConcatAppend(front, [t]);
    ConcatAppend(front, [t[..cut]]);
    assert Concat([t]) == t + Concat([]) && Concat([t[..cut]]) == t[..cut] + Concat([]);
    assert Concat(front) + t == Concat(front) + t[..cut] + t[cut..];
    assert cut == 0 ==> t[cut..] == t;
  }

  /** The two parsers agree on every template without "//" and "=/". */
  lemma StrictOnPlain(tmpl: string)
    requires !Doubled(tmpl)
    ensures StrictParseOf(tmpl) == ParseOf(tmpl)
  {
    hide *;
    StrictIff(tmpl);
    if tmpl == "" || tmpl[0] != '/' {
      NeitherParses(tmpl);
    } else if Odd(InSegments, true, Tokenize(tmpl[1..]).0) {
      var ts, tail := TokenizedText(tmpl[1..]);
      OddUpToEnd(InSegments, true, ts);
      OddDoubled(InSegments, true, '/', ts);
      assert tmpl == "" + ("/" + Concat(ts)) + tail;
      DoubledWithin("", "/" + Concat(ts), tail);
    }
  }

  lemma {:induction false} OddUpToEnd(st: LexState, start: bool, ts: seq<string>)
    requires Odd(st, start, ts + [EOF])
    ensures Odd(st, start, ts)
    decreases |ts|
  {
    if ts != [] {
      assert (ts + [EOF])[0] == ts[0] && (ts + [EOF])[1..] == ts[1..] + [EOF];
      if Odd(After(st, ts[0]), IsSeparator(st, ts[0]) && (ts[0] == "/" || ts[0] == "="), ts[1..] + [EOF]) {
        OddUpToEnd(After(st, ts[0]), IsSeparator(st, ts[0]) && (ts[0] == "/" || ts[0] == "="), ts[1..]);
      }
    }
  }

  /** "//" parses as one wildcard and "/{a=/}" as a variable with one, and the strict grammar refuses both. */
  lemma SlashIsWildcard()
    ensures ParseOf("//") == Some(Template([Wildcard], "", "//")) && StrictParseOf("//") == None
    ensures ParseOf("/{a=/}") == Some(Template([Variable("a", [Wildcard])], "", "/{a=/}")) && StrictParseOf("/{a=/}") == None
  {
    hide *;
    StrictIff("//");
    SlashTokens();
    SlashSegments();
    ParsedByTop("//");
    StrictIff("/{a=/}");
    BodyTokens();
    BodySegments();
    ParsedByTop("/{a=/}");
    assert "//"[1..] == "/" && "/{a=/}"[1..] == "{a=/}";
  }

  lemma SlashTokens()
    ensures Tokenize("/") == (["/", EOF], "")
  {
    assert "/" == "" + ['/'] + "";
    TokensStep(InSegments, "", '/', "");
    hide Tokens;
    TokensLast(InSegments, "");
    assert Tokens(InSegments, "/") == ["/"];
    assert ["/"] + [EOF] == ["/", EOF];
  }

  lemma SlashSegments()
    ensures Ends(["/", EOF]) && Odd(InSegments, true, ["/", EOF]) && TopLevelOf(["/", EOF]) == Some([Wildcard])
  {
    var toks := ["/", EOF];
    OddSlash(InSegments, toks);
    assert toks[1..] == [EOF];
    SlashWildcard(toks);
    SegmentsStep(Wildcard, toks, [EOF]);
    hide SegmentsOf, SegmentOf, Odd;
    assert toks[0] != EOF;
  }

  lemma BodyTokens()
    ensures Tokenize("{a=/}") == (["{", "a", "=", "/", "}", EOF], "")
  {
    hide Tokens;
    BodySplit();
    var ts := ["{", "a", "=", "/", "}"];
    assert ts[4] == "}" && VerbIndex(ts) == -1;
    assert ts + [EOF] == ["{", "a", "=", "/", "}", EOF];
  }

  lemma BodySplit()
    ensures Tokens(InSegments, "{a=/}") == ["{", "a", "=", "/", "}"]
  {
    BodySeparators();
    hide *;
    TokensStep(InNested, "", '}', "");
    TokensStep(InNested, "", '/', "}");
    TokensStep(InField, "a", '=', "/}");
    TokensStep(InSegments, "", '{', "a=/}");
    BodyPieces();
  }

  lemma BodySeparators()
    ensures '{' in Separators(InSegments) && '=' in Separators(InField) && '/' in Separators(InNested) && '}' in Separators(InNested)
    ensures Next(InSegments, '{') == InField && Next(InField, '=') == InNested && Next(InNested, '/') == InNested
    ensures Next(InNested, '}') == InSegments && Tokens(InSegments, "") == []
    ensures !Has("a", Separators(InField)) && !Has("", Separators(InNested)) && !Has("", Separators(InSegments))
  {
  }

  lemma BodyPieces()
    ensures "" + ['}'] + "" == "}" && "" + ['/'] + "}" == "/}" && "a" + ['='] + "/}" == "a=/}" && "" + ['{'] + "a=/}" == "{a=/}"
    ensures [['{']] + (["a", ['=']] + ([['/']] + ([['}']] + []))) == ["{", "a", "=", "/", "}"]
  {
  }

  lemma BodySegments()
    ensures var toks := ["{", "a", "=", "/", "}", EOF];
            Ends(toks) && Odd(InSegments, true, toks) && TopLevelOf(toks) == Some([Variable("a", [Wildcard])])
  {
    hide *;
    var toks, mid, close := ["{", "a", "=", "/", "}", EOF], ["=", "/", "}", EOF], ["}", EOF];
    BodyTails();
    BraceKeeps(toks);
    NameKeeps(["a"] + mid);
    EqualsKeeps(mid);
    OddSlash(InNested, ["/"] + close);
    NameAlone(mid);
    assert mid == ["="] + (["/"] + close);
    SlashBody(close);
    VariableAlone(toks, mid, close);
  }

  lemma BodyTails()
    ensures var toks, mid, close := ["{", "a", "=", "/", "}", EOF], ["=", "/", "}", EOF], ["}", EOF];
            && toks[1..] == ["a"] + mid && toks[1..][1..] == mid && mid[1..] == ["/"] + close && close[1..] == [EOF]
            && Ends(toks) && Ends(["a"] + mid) && Ends(mid) && Ends(["/"] + close) && Ends(close) && Ends([EOF])
            && IsIdent("a")
  {
  }

  lemma EqualsKeeps(toks: seq<string>)
    requires toks != [] && toks[0] == "="
    ensures Odd(InField, false, toks) == Odd(InNested, true, toks[1..])
  {
    assert IsSeparator(InField, "=") && Next(InField, '=') == InNested;
    OddSeparator(InField, false, toks);
  }

  lemma NameAlone(mid: seq<string>)
    requires Ends(mid) && mid[0] == "=" && IsIdent("a")
    ensures Ends(["a"] + mid) && ComponentsOf(["a"] + mid) == Got(["a"], mid)
  {
    ComponentStep("a", mid);
    OneName("a", mid);
  }

  lemma SlashBody(close: seq<string>)
    requires Ends(close) && close[0] == "}"
    ensures var mid := ["="] + (["/"] + close); Ends(mid) && BodyOf(mid) == Got([Wildcard], close)
  {
    var toks := ["/"] + close;
    assert (["="] + toks)[1..] == toks && toks[1..] == close;
    SlashWildcard(toks);
    SegmentsStep(Wildcard, toks, close);
    hide SegmentsOf, SegmentOf;
  }

  lemma VariableAlone(toks: seq<string>, mid: seq<string>, close: seq<string>)
    requires Ends(toks) && toks[0] == "{" && Ends(toks[1..]) && ComponentsOf(toks[1..]) == Got(["a"], mid)
    requires Ends(mid) && BodyOf(mid) == Got([Wildcard], close) && Ends(close) && close[0] == "}" && close[1..] == [EOF]
    ensures TopLevelOf(toks) == Some([Variable("a", [Wildcard])])
  {
    hide ComponentsOf, BodyOf, SegmentsOf, IsPChars, IsIdent;
    NoPChars();
    BracedVariable(toks, mid, close);
    SegmentsStep(Variable("a", [Wildcard]), toks, [EOF]);
  }

  lemma BracedVariable(toks: seq<string>, mid: seq<string>, close: seq<string>)
    requires Ends(toks) && toks[0] == "{" && Ends(toks[1..]) && ComponentsOf(toks[1..]) == Got(["a"], mid)
    requires Ends(mid) && BodyOf(mid) == Got([Wildcard], close) && Ends(close) && close[0] == "}" && !IsPChars("{")
    ensures SegmentOf(toks) == Got(Variable("a", [Wildcard]), close[1..])
  {
    hide ComponentsOf, BodyOf, IsPChars;
    assert Join(["a"], ".") == "a";
  }
}
