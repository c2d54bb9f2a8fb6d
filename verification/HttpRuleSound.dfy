/** What a successful parse of internal/httprule means: the template is rendered back, and its shape is the one
    the trie relies on. */
module HttpRuleSound {
  import opened Text
  import opened PathChars
  import opened Lexing
  import opened HttpRule

  // ---- the input with every {path} written as {path=*} -----------------------------------

  /** The path with "=*" put before every "}" that closes a variable without a body. */
  function Expanded(st: LexState, path: string): string
    decreases |path|
  {
    if path == "" then ""
    else if st == InField && path[0] == '}' then "=*}" + Expanded(InSegments, path[1..])
    else [path[0]] + Expanded(if path[0] in Separators(st) then Next(st, path[0]) else st, path[1..])
  }

  /** The same on tokens; the end marker stands for nothing. */
  function ExpandedTokens(st: LexState, toks: seq<string>): string
    decreases |toks|
  {
    if |toks| <= 1 then ""
    else
      (if st == InField && toks[0] == "}" then "=*}" else toks[0])
      + ExpandedTokens(if IsSeparator(st, toks[0]) then Next(st, toks[0][0]) else st, toks[1..])
  }

  /** A word without separators is copied. */
  lemma {:induction false} ExpandedWord(st: LexState, w: string, rest: string)
    requires !Has(w, Separators(st))
    ensures Expanded(st, w + rest) == w + Expanded(st, rest)
    decreases |w|
  {
    hide *;
    if w == "" {
      assert w + rest == rest;
    } else {
      var path := w + rest;
      CloseSeparates();
      FirstCharacter(st, w);
      assert path[0] == w[0] && path[1..] == w[1..] + rest;
      ExpandedUnfold(st, path);
      ExpandedWord(st, w[1..], rest);
      assert [w[0]] + (w[1..] + Expanded(st, rest)) == w + Expanded(st, rest);
    }
  }

  lemma ExpandedUnfold(st: LexState, path: string)
    ensures path != "" ==>
              Expanded(st, path) ==
                if st == InField && path[0] == '}' then "=*}" + Expanded(InSegments, path[1..])
                else [path[0]] + Expanded(if path[0] in Separators(st) then Next(st, path[0]) else st, path[1..])
  {
  }

  lemma FirstCharacter(st: LexState, w: string)
    requires w != "" && !Has(w, Separators(st))
    ensures w[0] !in Separators(st) && !Has(w[1..], Separators(st)) && w == [w[0]] + w[1..]
  {
    hide Separators;
    assert forall k :: 0 <= k < |w| - 1 ==> w[1..][k] == w[k + 1];
  }

  lemma CloseSeparates()
    ensures '}' in Separators(InField)
  {
  }

  lemma ExpandedSeparator(st: LexState, c: char, rest: string)
    requires c in Separators(st)
    ensures Expanded(st, [c] + rest) ==
              (if st == InField && c == '}' then "=*}" else [c]) + Expanded(Next(st, c), rest)
  {
    assert ([c] + rest)[0] == c && ([c] + rest)[1..] == rest;
  }

  lemma ExpandedPlainToken(st: LexState, t: string, toks: seq<string>)
    requires IsPlain(st, t) && |toks| > 0
    ensures ExpandedTokens(st, [t] + toks) == t + ExpandedTokens(st, toks)
  {
    PlainIsNoSeparator(st, t);
    assert ([t] + toks)[1..] == toks;
    assert st == InField && t == "}" ==> IsSeparator(InField, t);
  }

  lemma ExpandedSeparatorToken(st: LexState, c: char, toks: seq<string>)
    requires c in Separators(st) && |toks| > 0
    ensures ExpandedTokens(st, [[c]] + toks) ==
              (if st == InField && c == '}' then "=*}" else [c]) + ExpandedTokens(Next(st, c), toks)
  {
    assert ([[c]] + toks)[1..] == toks;
    assert [c] == "}" <==> c == '}';
  }

  /** Expanding the path is expanding its tokens. */
  lemma {:induction false} ExpandedSame(st: LexState, path: string)
    ensures ExpandedTokens(st, Tokens(st, path) + [EOF]) == Expanded(st, path)
    decreases |path|
  {
    hide *;
    TokensUnfold(st, path);
    if path == "" {
      ExpandedNothing(st);
    } else {
      var idx := IndexAny(path, Separators(st));
      if idx < 0 {
        ExpandedLastWord(st, path);
      } else {
        var w, c, rest := path[..idx], path[idx], path[idx + 1..];
        var toks := Tokens(Next(st, c), rest) + [EOF];
        ExpandedSame(Next(st, c), rest);
        PieceParts(path, idx);
        ExpandedPiece(st, w, c, rest, toks);
        assert Piece(path, idx) + Tokens(Next(st, c), rest) + [EOF] == Piece(path, idx) + toks;
      }
    }
  }

  lemma ExpandedNothing(st: LexState)
    ensures ExpandedTokens(st, [] + [EOF]) == "" == Expanded(st, "")
  {
  }

  lemma ExpandedLastWord(st: LexState, w: string)
    requires w != "" && !Has(w, Separators(st))
    ensures ExpandedTokens(st, [w] + [EOF]) == Expanded(st, w)
  {
    ExpandedPlainToken(st, w, [EOF]);
    ExpandedWord(st, w, "");
    assert w + "" == w;
    assert Expanded(st, "") == "" && ExpandedTokens(st, [EOF]) == "";
  }

  lemma PieceParts(path: string, idx: nat)
    requires idx < |path|
    ensures Piece(path, idx) == (if path[..idx] == "" then [] else [path[..idx]]) + [[path[idx]]]
    ensures path == path[..idx] + ([path[idx]] + path[idx + 1..])
  {
    assert path == path[..idx] + path[idx..];
    assert path[idx..] == [path[idx]] + path[idx + 1..];
    PieceItself(path, idx);
  }

  lemma PieceItself(path: string, idx: nat)
    requires idx < |path|
    ensures Piece(path, idx) == (if path[..idx] == "" then [] else [path[..idx]]) + [[path[idx]]]
  {
    assert path[idx..idx + 1] == [path[idx]];
    if idx == 0 { assert path[..1] == [path[0]]; }
  }

  lemma ExpandedPiece(st: LexState, w: string, c: char, rest: string, toks: seq<string>)
    requires !Has(w, Separators(st)) && c in Separators(st) && |toks| > 0
    requires ExpandedTokens(Next(st, c), toks) == Expanded(Next(st, c), rest)
    ensures ExpandedTokens(st, (if w == "" then [] else [w]) + [[c]] + toks) == Expanded(st, w + ([c] + rest))
  {
    hide *;
    ExpandedWord(st, w, [c] + rest);
    ExpandedSeparator(st, c, rest);
    ExpandedSeparatorToken(st, c, toks);
    if w == "" {
      assert [] + [[c]] + toks == [[c]] + toks;
      assert w + ([c] + rest) == [c] + rest;
    } else {
      WordIsPlain(st, w);
      assert [w] + [[c]] + toks == [w] + ([[c]] + toks);
      ExpandedPlainToken(st, w, [[c]] + toks);
    }
  }

  lemma WordIsPlain(st: LexState, w: string)
    requires w != "" && !Has(w, Separators(st))
    ensures IsPlain(st, w)
  {
  }

  // ---- shape ---------------------------------------------------------------------------

  /** A sequence of pchars that is a literal and no wildcard. */
  predicate IsWordLit(lit: string) {
    IsPChars(lit) && lit != "" && lit != "*" && lit != "**"
  }

  /** A segment that may stand inside a variable. */
  predicate FlatOk(s: Segment) {
    match s
    case Literal(l) => IsWordLit(l)
    case Variable(_, _) => false
    case _ => true
  }

  /** "**" or a variable ending in "**". */
  predicate HasMulti(s: Segment) {
    s.MultiWildcard? || (s.Variable? && s.segments != [] && s.segments[|s.segments| - 1].MultiWildcard?)
  }

  /** Nothing but the last segment takes more than one component; the last does if and only if `multi`. */
  predicate MultiLast(ss: seq<Segment>, multi: bool) {
    && ss != []
    && (forall k :: 0 <= k < |ss| - 1 ==> !HasMulti(ss[k]))
    && HasMulti(ss[|ss| - 1]) == multi
  }

  predicate SegmentOk(s: Segment) {
    || FlatOk(s)
    || (s.Variable? && s.fieldPath != [] && (forall k :: 0 <= k < |s.fieldPath| ==> IsIdent(s.fieldPath[k]))
        && (forall k :: 0 <= k < |s.segments| ==> FlatOk(s.segments[k]))
        && MultiLast(s.segments, HasMulti(s)))
  }

  predicate OkIn(st: LexState, ss: seq<Segment>) {
    forall k :: 0 <= k < |ss| ==> if st == InNested then FlatOk(ss[k]) else SegmentOk(ss[k])
  }

  /** What one parsing function has made of the tokens it consumed. */
  predicate Sound(st: LexState, toks: seq<string>, shown: string, rest: seq<string>) {
    && Lexed(st, rest) && (Clean(toks) ==> Clean(rest))
    && ExpandedTokens(st, toks) == shown + ExpandedTokens(st, rest)
  }

  /** The end marker stands only at the end. */
  predicate Clean(toks: seq<string>) {
    forall k :: 0 <= k < |toks| - 1 ==> toks[k] != EOF
  }

  lemma CleanTail(toks: seq<string>)
    requires |toks| > 0
    ensures Clean(toks) ==> Clean(toks[1..])
  {
    assert forall k :: 0 <= k < |toks| - 1 ==> toks[1..][k] == toks[k + 1];
  }

  lemma ShowMore(s: Segment, more: seq<Segment>)
    requires more != []
    ensures ShowAll([s] + more) == Show(s) + "/" + ShowAll(more)
  {
    assert ([s] + more)[1..] == more;
  }

  lemma {:induction false} SegmentsSound(st: LexState, toks: seq<string>)
    requires Lexed(st, toks) && Ends(toks) && st != InField
    ensures match SegmentsOf(toks)
            case Fail => true
            case Got(run, rest) =>
              OkIn(st, run.segments) && MultiLast(run.segments, run.multi) && Sound(st, toks, ShowAll(run.segments), rest)
    decreases |toks|, 2
  {
    hide SegmentsOf, SegmentOf, Lexed, ExpandedTokens, Show, Clean;
    SegmentSound(st, toks);
    match SegmentOf(toks) {
      case Fail => SegmentsFail(toks);
      case Got(one, rest) =>
        SegmentsStep(one, toks, rest);
        if !one.multi && rest[0] == "/" {
          SlashOver(st, rest);
          SegmentsSound(st, rest[1..]);
          match SegmentsOf(rest[1..]) {
            case Fail =>
            case Got(run, end) =>
              OkAppend(st, one, run);
              ShowMore(one.segment, run.segments);
              hide ShowAll;
              Glue(Show(one.segment), ShowAll(run.segments), ExpandedTokens(st, end));
          }
        } else {
          OkSingle(st, one);
        }
    }
  }

  lemma Glue(a: string, b: string, c: string)
    ensures a + ("/" + (b + c)) == a + "/" + b + c
  {
  }

  lemma SegmentsFail(toks: seq<string>)
    requires Ends(toks) && SegmentOf(toks) == Fail
    ensures SegmentsOf(toks) == Fail
  {
  }

  lemma SegmentsStep(one: One, toks: seq<string>, rest: seq<string>)
    requires Ends(toks) && SegmentOf(toks) == Got(one, rest)
    ensures SegmentsOf(toks) ==
              if !one.multi && rest[0] == "/" then Prepend([one.segment], SegmentsOf(rest[1..]))
              else Got(Run([one.segment], one.multi), rest)
  {
    hide SegmentOf;
    assert [one.segment] + [] == [one.segment];
  }

  lemma OkSingle(st: LexState, one: One)
    requires OkIn(st, [one.segment]) && HasMulti(one.segment) == one.multi
    ensures MultiLast([one.segment], one.multi) && ShowAll([one.segment]) == Show(one.segment)
  {
  }

  lemma OkAppend(st: LexState, one: One, run: Run)
    requires OkIn(st, [one.segment]) && OkIn(st, run.segments) && MultiLast(run.segments, run.multi)
    requires !HasMulti(one.segment)
    ensures OkIn(st, [one.segment] + run.segments) && MultiLast([one.segment] + run.segments, run.multi)
  {
    hide SegmentOk, FlatOk, HasMulti;
    var all := [one.segment] + run.segments;
    assert [one.segment][0] == one.segment;
    assert forall k :: 0 <= k < |all| ==> all[k] == if k == 0 then one.segment else run.segments[k - 1];
  }

  lemma SlashOver(st: LexState, toks: seq<string>)
    requires Lexed(st, toks) && Ends(toks) && st != InField && toks[0] == "/"
    ensures Ends(toks[1..]) && Lexed(st, toks[1..])
    ensures ExpandedTokens(st, toks) == "/" + ExpandedTokens(st, toks[1..])
    ensures Clean(toks) ==> Clean(toks[1..])
  {
    CleanTail(toks);
    hide Clean;
    assert IsSeparator(st, "/");
    LexedOver(st, toks);
  }

  lemma {:induction false} SegmentSound(st: LexState, toks: seq<string>)
    requires Lexed(st, toks) && Ends(toks) && st != InField
    ensures match SegmentOf(toks)
            case Fail => true
            case Got(one, rest) =>
              OkIn(st, [one.segment]) && HasMulti(one.segment) == one.multi && Sound(st, toks, Show(one.segment), rest)
    decreases |toks|, 1
  {
    hide ExpandedTokens, Show, OkIn, HasMulti, Lexed, SegmentOf, VariableOf, Sound, SegmentOk, IsWord;
    if IsWord(toks[0]) {
      WordSound(st, toks);
    } else {
      NoWordSegment(toks);
      if st == InNested {
        NoVariableInVariable(toks);
      } else {
        VariableSound(toks);
        if VariableOf(toks).Got? { SingleOk(VariableOf(toks)); }
      }
    }
  }

  predicate IsWord(t: string) {
    Accepts(Star, t) || Accepts(StarStar, t) || Accepts(Lit, t)
  }

  lemma NoWordSegment(toks: seq<string>)
    requires Ends(toks) && !IsWord(toks[0])
    ensures SegmentOf(toks) == VariableOf(toks)
  {
  }

  lemma SingleOk(p: Parsed<One>)
    requires p.Got? && SegmentOk(p.value.segment)
    ensures OkIn(InSegments, [p.value.segment])
  {
  }

  lemma WordSound(st: LexState, toks: seq<string>)
    requires Lexed(st, toks) && Ends(toks) && st != InField && IsWord(toks[0])
    ensures SegmentOf(toks).Got?
    ensures var one := SegmentOf(toks).value;
            && OkIn(st, [one.segment]) && HasMulti(one.segment) == one.multi
            && Sound(st, toks, Show(one.segment), SegmentOf(toks).rest)
  {
    hide ExpandedTokens, Show, OkIn, HasMulti, Lexed, SegmentOf;
    assert IsPChars("*") && IsPChars("**");
    LiteralIsPlain(st, toks[0]);
    WordOver(st, toks);
    WordSegment(st, toks);
  }

  lemma WordSegment(st: LexState, toks: seq<string>)
    requires Ends(toks) && toks[0] != "" && IsPChars(toks[0])
    ensures SegmentOf(toks).Got? && SegmentOf(toks).rest == toks[1..]
    ensures var one := SegmentOf(toks).value;
            Show(one.segment) == toks[0] && OkIn(st, [one.segment]) && HasMulti(one.segment) == one.multi
  {
    hide IsPChars, VariableOf, ShowAll, Join, IsIdent;
    var one := SegmentOf(toks).value;
    assert FlatOk(one.segment) && SegmentOk(one.segment);
  }

  lemma WordOver(st: LexState, toks: seq<string>)
    requires Lexed(st, toks) && Ends(toks) && !IsSeparator(st, toks[0]) && toks[0] != EOF
    ensures Ends(toks[1..]) && Lexed(st, toks[1..]) && toks[0] != ""
    ensures ExpandedTokens(st, toks) == toks[0] + ExpandedTokens(st, toks[1..])
    ensures toks[1] == EOF || IsSeparator(st, toks[1])
    ensures Clean(toks) ==> Clean(toks[1..])
  {
    CleanTail(toks);
    hide Clean;
    LexedOver(st, toks);
    assert toks == [toks[0]] + toks[1..];
    ExpandedPlainToken(st, toks[0], toks[1..]);
  }

  /** Inside a variable a "{" token is never followed by a name, so no variable starts there. */
  lemma NoVariableInVariable(toks: seq<string>)
    requires Lexed(InNested, toks) && Ends(toks)
    ensures VariableOf(toks) == Fail
  {
    if toks[0] == "{" {
      assert !IsSeparator(InNested, toks[0]);
      hide *;
      WordOver(InNested, toks);
      NotAName(toks[1]);
      NoNameNoVariable(toks);
    } else {
      assert !Accepts(LBrace, toks[0]);
    }
  }

  lemma NotAName(t: string)
    requires t == EOF || IsSeparator(InNested, t)
    ensures !IsIdentOrEmpty(t)
  {
  }

  lemma NoNameNoVariable(toks: seq<string>)
    requires Ends(toks) && toks[0] == "{" && Ends(toks[1..]) && !IsIdentOrEmpty(toks[1])
    ensures VariableOf(toks) == Fail
  {
    hide IsIdentOrEmpty;
    assert FieldPathOf(toks[1..]) == Fail;
  }

  lemma {:induction false} VariableSound(toks: seq<string>)
    requires Lexed(InSegments, toks) && Ends(toks)
    ensures match VariableOf(toks)
            case Fail => true
            case Got(one, rest) =>
              SegmentOk(one.segment) && HasMulti(one.segment) == one.multi && Sound(InSegments, toks, Show(one.segment), rest)
    decreases |toks|, 0
  {
    hide VariableOf, SegmentOk, Lexed, ExpandedTokens, FieldPathOf, BodyOf, Show, Clean;
    if VariableOf(toks).Got? {
      var path, mid, body, close := VariableParts(toks);
      BraceOver(toks);
      PathSound(toks[1..]);
      var st := BodySound(mid);
      CloseOver(st, close);
      VariableIsOk(path, body);
      GlueVariable(Join(path, "."), ShowAll(body.segments), ExpandedTokens(InSegments, close[1..]));
    }
  }

  lemma GlueVariable(a: string, b: string, c: string)
    ensures "{" + (a + ("=" + b + ("}" + c))) == "{" + a + "=" + b + "}" + c
  {
  }

  lemma VariableParts(toks: seq<string>)
    returns (path: seq<string>, mid: seq<string>, body: Run, close: seq<string>)
    requires Ends(toks) && VariableOf(toks).Got?
    ensures Ends(toks[1..]) && FieldPathOf(toks[1..]) == Got(path, mid)
    ensures BodyOf(mid) == Got(body, close)
    ensures toks[0] == "{" && close[0] == "}"
    ensures VariableOf(toks) == Got(One(Variable(path, body.segments), body.multi), close[1..])
  {
    hide FieldPathOf, BodyOf;
    var c := FieldPathOf(toks[1..]);
    path, mid := c.value, c.rest;
    var b := BodyOf(mid);
    body, close := b.value, b.rest;
  }

  lemma BraceOver(toks: seq<string>)
    requires Lexed(InSegments, toks) && Ends(toks) && toks[0] == "{"
    ensures Ends(toks[1..]) && Lexed(InField, toks[1..])
    ensures ExpandedTokens(InSegments, toks) == "{" + ExpandedTokens(InField, toks[1..])
    ensures Clean(toks) ==> Clean(toks[1..])
  {
    CleanTail(toks);
    hide Clean;
    assert IsSeparator(InSegments, toks[0]);
    LexedOver(InSegments, toks);
  }

  lemma VariableIsOk(path: seq<string>, body: Run)
    requires path != [] && forall k :: 0 <= k < |path| ==> IsIdent(path[k])
    requires OkIn(InNested, body.segments) && MultiLast(body.segments, body.multi)
    ensures var v := Variable(path, body.segments);
            SegmentOk(v) && HasMulti(v) == body.multi && Show(v) == "{" + Join(path, ".") + "=" + ShowAll(body.segments) + "}"
  {
    hide Join, ShowAll, IsIdent, IsPChars, FlatOk, HasMulti, MultiLast;
    VariableMulti(path, body);
  }

  lemma VariableMulti(path: seq<string>, body: Run)
    requires OkIn(InNested, body.segments) && MultiLast(body.segments, body.multi)
    ensures HasMulti(Variable(path, body.segments)) == body.multi
  {
    hide FlatOk;
    FlatMulti(body.segments[|body.segments| - 1]);
  }

  lemma FlatMulti(s: Segment)
    requires FlatOk(s)
    ensures HasMulti(s) == s.MultiWildcard?
  {
  }

  /** The closing "}": a variable without a body is closed in field state and written with "=*". */
  lemma CloseOver(st: LexState, toks: seq<string>)
    requires Lexed(st, toks) && Ends(toks) && st != InSegments && toks[0] == "}"
    ensures Lexed(InSegments, toks[1..])
    ensures ExpandedTokens(st, toks) == (if st == InField then "=*}" else "}") + ExpandedTokens(InSegments, toks[1..])
    ensures Clean(toks) ==> Clean(toks[1..])
  {
    CleanTail(toks);
    hide Clean;
    assert IsSeparator(st, "}");
    LexedOver(st, toks);
  }

  /** What stands between the field path and the closing "}". */
  lemma {:induction false} BodySound(toks: seq<string>) returns (st: LexState)
    requires Lexed(InField, toks) && Ends(toks)
    ensures st != InSegments
    ensures match BodyOf(toks)
            case Fail => true
            case Got(body, rest) =>
              Lexed(st, rest) && BodyShown(toks, body, rest)
    decreases |toks|, 3
  {
    var first := toks[0];
    hide *;
    if first == "=" {
      st := InNested;
      BodyWithEquals(toks);
    } else {
      st := InField;
      BodyWithoutEquals(toks);
    }
  }

  /** The body is followed by "}" and comes out as "=", its segments and "}". */
  predicate BodyShown(toks: seq<string>, body: Run, rest: seq<string>)
    requires rest != []
  {
    && OkIn(InNested, body.segments) && MultiLast(body.segments, body.multi) && (Clean(toks) ==> Clean(rest))
    && (rest[0] == "}" ==>
          ExpandedTokens(InField, toks) == "=" + ShowAll(body.segments) + ("}" + ExpandedTokens(InSegments, rest[1..])))
  }

  lemma BodyWithoutEquals(toks: seq<string>)
    requires Lexed(InField, toks) && Ends(toks) && toks[0] != "="
    ensures BodyOf(toks) == Got(Run([Wildcard], false), toks) && BodyShown(toks, Run([Wildcard], false), toks)
  {
    hide ShowAll, ExpandedTokens, Lexed, Clean, HasMulti, FlatOk;
    OneWildcard();
    if toks[0] == "}" {
      CloseOver(InField, toks);
      assert "=*}" + ExpandedTokens(InSegments, toks[1..]) == "=" + "*" + ("}" + ExpandedTokens(InSegments, toks[1..]));
    }
  }

  lemma OneWildcard()
    ensures ShowAll([Wildcard]) == "*" && FlatOk(Wildcard) && !HasMulti(Wildcard)
  {
  }

  lemma {:induction false} BodyWithEquals(toks: seq<string>)
    requires Lexed(InField, toks) && Ends(toks) && toks[0] == "="
    ensures match BodyOf(toks)
            case Fail => true
            case Got(body, rest) => Lexed(InNested, rest) && BodyShown(toks, body, rest)
    decreases |toks|, 2
  {
    EqualsOver(toks);
    hide BodyOf, Lexed, ExpandedTokens, SegmentsOf, ShowAll, Clean;
    BodyIsSegments(toks);
    SegmentsSound(InNested, toks[1..]);
    match SegmentsOf(toks[1..]) {
      case Fail =>
      case Got(body, rest) =>
        if rest[0] == "}" {
          CloseOver(InNested, rest);
          GlueBody(ShowAll(body.segments), "}" + ExpandedTokens(InSegments, rest[1..]));
        }
    }
  }

  lemma GlueBody(a: string, b: string)
    ensures "=" + (a + b) == "=" + a + b
  {
  }

  lemma BodyIsSegments(toks: seq<string>)
    requires Ends(toks) && toks[0] == "="
    ensures Ends(toks[1..]) && BodyOf(toks) == SegmentsOf(toks[1..])
  {
  }

  lemma EqualsOver(toks: seq<string>)
    requires Lexed(InField, toks) && Ends(toks) && toks[0] == "="
    ensures Ends(toks[1..]) && Lexed(InNested, toks[1..])
    ensures ExpandedTokens(InField, toks) == "=" + ExpandedTokens(InNested, toks[1..])
    ensures Clean(toks) ==> Clean(toks[1..])
  {
    CleanTail(toks);
    hide Clean;
    assert IsSeparator(InField, toks[0]);
    LexedOver(InField, toks);
  }

  lemma {:induction false} PathSound(toks: seq<string>)
    requires Lexed(InField, toks) && Ends(toks)
    ensures match FieldPathOf(toks)
            case Fail => true
            case Got(path, rest) =>
              && path != [] && (forall k :: 0 <= k < |path| ==> IsIdent(path[k]))
              && Sound(InField, toks, Join(path, "."), rest)
    decreases |toks|
  {
    if Accepts(Ident, toks[0]) {
      NameOver(toks);
      var name, rest := toks[0], toks[1..];
      hide FieldPathOf, Lexed, ExpandedTokens, IsIdent, Clean;
      PathStep(toks);
      if rest[0] == "." {
        DotOver(rest);
        PathSound(rest[1..]);
        match FieldPathOf(rest[1..]) {
          case Fail =>
          case Got(more, end) =>
            JoinMore(name, more);
            hide Join;
            GluePath(name, Join(more, "."), ExpandedTokens(InField, end));
        }
      }
    }
  }

  lemma JoinMore(name: string, more: seq<string>)
    requires more != []
    ensures Join([name] + more, ".") == name + "." + Join(more, ".")
  {
    assert ([name] + more)[1..] == more;
  }

  lemma GluePath(a: string, b: string, c: string)
    ensures a + ("." + (b + c)) == a + "." + b + c
  {
  }

  lemma PathStep(toks: seq<string>)
    requires Ends(toks) && IsIdent(toks[0]) && Ends(toks[1..])
    ensures FieldPathOf(toks) ==
              PrependNames([toks[0]], if toks[1] == "." then FieldPathOf(toks[1..][1..]) else Got([], toks[1..]))
  {
  }

  lemma NameOver(toks: seq<string>)
    requires Lexed(InField, toks) && Ends(toks) && IsIdentOrEmpty(toks[0])
    ensures IsIdent(toks[0]) && Ends(toks[1..]) && Lexed(InField, toks[1..])
    ensures ExpandedTokens(InField, toks) == toks[0] + ExpandedTokens(InField, toks[1..])
    ensures Clean(toks) ==> Clean(toks[1..])
  {
    CleanTail(toks);
    hide Clean;
    assert !IsSeparator(InField, toks[0]);
    WordOver(InField, toks);
  }

  lemma DotOver(toks: seq<string>)
    requires Lexed(InField, toks) && Ends(toks) && toks[0] == "."
    ensures Ends(toks[1..]) && Lexed(InField, toks[1..])
    ensures ExpandedTokens(InField, toks) == "." + ExpandedTokens(InField, toks[1..])
    ensures Clean(toks) ==> Clean(toks[1..])
  {
    CleanTail(toks);
    hide Clean;
    assert IsSeparator(InField, toks[0]);
    LexedOver(InField, toks);
  }

  // ---- templates -----------------------------------------------------------------------

  lemma {:induction false} ShowAllLast(ss: seq<Segment>, s: Segment, more: string)
    requires ss != [] && Show(ss[|ss| - 1]) == Show(s) + more
    ensures ShowAll(ss) == ShowAll(ss[|ss| - 1 := s]) + more
    decreases |ss|
  {
    var n := |ss| - 1;
    if n > 0 {
      ShowAllLast(ss[1..], s, more);
      assert ss[1..][n - 1 := s] == ss[n := s][1..];
      hide Show;
      Glue(Show(ss[0]), ShowAll(ss[n := s][1..]), more);
      assert "/" + (ShowAll(ss[n := s][1..]) + more) == "/" + ShowAll(ss[n := s][1..]) + more;
    }
  }

  lemma {:induction false} LastShown(ss: seq<Segment>)
    requires ss != [] && Show(ss[|ss| - 1]) != ""
    ensures ShowAll(ss) != "" && ShowAll(ss)[|ShowAll(ss)| - 1] == Show(ss[|ss| - 1])[|Show(ss[|ss| - 1])| - 1]
    decreases |ss|
  {
    if |ss| > 1 {
      LastShown(ss[1..]);
      hide Show;
      assert ShowAll(ss) == Show(ss[0]) + "/" + ShowAll(ss[1..]);
    }
  }

  lemma {:induction false} LastExpanded(st: LexState, path: string)
    requires path != ""
    ensures Expanded(st, path) != "" && Expanded(st, path)[|Expanded(st, path)| - 1] == path[|path| - 1]
    decreases |path|
  {
    if |path| > 1 {
      var c := path[0];
      LastExpanded(if st == InField && c == '}' then InSegments else if c in Separators(st) then Next(st, c) else st, path[1..]);
      hide Separators, Next;
    } else {
      assert path[1..] == "";
    }
  }

  predicate NoEnd(ts: seq<string>) {
    forall k :: 0 <= k < |ts| ==> ts[k] != EOF
  }

  lemma {:induction false} NoEndInside(st: LexState, path: string)
    requires '\0' !in path
    ensures NoEnd(Tokens(st, path))
    decreases |path|
  {
    assert NoEnd([]);
    hide *;
    TokensUnfold(st, path);
    if path != "" {
      var idx := IndexAny(path, Separators(st));
      if idx >= 0 {
        var rest := path[idx + 1..];
        TailNoEnd(path, idx + 1);
        NoEndInside(Next(st, path[idx]), rest);
        PieceNoEnd(path, idx);
        NoneOf(Piece(path, idx), Tokens(Next(st, path[idx]), rest));
      } else {
        WordNoEnd(path);
        OnlyWord(path);
      }
    }
  }

  lemma OnlyWord(w: string)
    requires w != EOF
    ensures NoEnd([w])
  {
  }

  lemma NoneOf(a: seq<string>, b: seq<string>)
    requires NoEnd(a) && NoEnd(b)
    ensures NoEnd(a + b)
  {
  }

  lemma TailNoEnd(path: string, k: nat)
    requires '\0' !in path && k <= |path|
    ensures '\0' !in path[k..]
  {
    assert path == path[..k] + path[k..];
  }

  lemma WordNoEnd(w: string)
    requires '\0' !in w
    ensures w != EOF
  {
    assert EOF[0] == '\0';
  }

  lemma PieceNoEnd(path: string, idx: nat)
    requires '\0' !in path && idx < |path|
    ensures NoEnd(Piece(path, idx))
  {
    PieceParts(path, idx);
    WordNoEnd(path[..idx]);
    WordNoEnd([path[idx]]);
    hide Piece;
  }

  /** The verb was cut off the last literal, or stood as a token of its own. */
  predicate VerbCut(ss: seq<Segment>, rest: seq<string>)
    requires ss != [] && rest != []
  {
    (ss[|ss| - 1].Literal? && ':' in ss[|ss| - 1].lit) || rest[0] != EOF
  }

  lemma CutSound(ss: seq<Segment>, rest: seq<string>)
    requires ss != [] && Lexed(InSegments, rest) && Ends(rest) && Clean(rest)
    requires CutVerb(ss, rest).Some? && CutVerb(ss, rest).value.left[0] == EOF
    ensures var cut := CutVerb(ss, rest).value;
            ShowAll(ss) + ExpandedTokens(InSegments, rest)
              == ShowAll(cut.segments) + if VerbCut(ss, rest) then ":" + cut.verb else ""
    ensures !VerbCut(ss, rest) ==> CutVerb(ss, rest).value.verb == "" && CutVerb(ss, rest).value.segments == ss
  {
    hide ExpandedTokens, ShowAll, Lexed, IsPChars;
    NothingLeft();
    if ss[|ss| - 1].Literal? {
      CutLiteralSound(ss, rest);
    } else if rest[0] != EOF {
      CutTokenSound(ss, rest);
    } else {
      assert rest == [EOF];
    }
  }

  lemma CutLiteralSound(ss: seq<Segment>, rest: seq<string>)
    requires ss != [] && Ends(rest) && Clean(rest) && ss[|ss| - 1].Literal?
    requires CutVerb(ss, rest).Some? && CutVerb(ss, rest).value.left[0] == EOF
    ensures var cut := CutVerb(ss, rest).value;
            ShowAll(ss) + ExpandedTokens(InSegments, rest)
              == ShowAll(cut.segments) + if VerbCut(ss, rest) then ":" + cut.verb else ""
    ensures !VerbCut(ss, rest) ==> CutVerb(ss, rest).value.verb == "" && CutVerb(ss, rest).value.segments == ss
  {
    hide *;
    CutAt(ss, rest);
    NothingBehind(rest);
    VerbCutAt(ss, rest);
    NoMore(ShowAll(ss));
    var idx := LastIndex(ss[|ss| - 1].lit, ':');
    if idx == -1 {
      assert CutVerb(ss, rest).value.segments == ss;
    } else {
      CutLiteral(ss, idx);
    }
  }

  lemma NothingBehind(rest: seq<string>)
    requires Ends(rest) && Clean(rest) && rest[0] == EOF
    ensures rest != [] && ExpandedTokens(InSegments, rest) == ""
  {
    assert rest == [EOF];
  }

  lemma NoMore(s: string)
    ensures s + "" == s
  {
  }

  lemma CutAt(ss: seq<Segment>, rest: seq<string>)
    requires ss != [] && Ends(rest) && ss[|ss| - 1].Literal?
    ensures var lit := ss[|ss| - 1].lit;
            var idx := LastIndex(lit, ':');
            && -1 <= idx < |lit| && (idx >= 0 ==> lit[idx] == ':')
            && CutVerb(ss, rest).Some? && CutVerb(ss, rest).value.left == rest
            && var cut := CutVerb(ss, rest).value;
               if idx == -1 then cut.segments == ss && cut.verb == ""
               else cut.segments == ss[|ss| - 1 := Literal(lit[..idx])] && cut.verb == lit[idx + 1..]
  {
  }

  lemma VerbCutAt(ss: seq<Segment>, rest: seq<string>)
    requires ss != [] && ss[|ss| - 1].Literal? && rest != [] && rest[0] == EOF
    ensures VerbCut(ss, rest) <==> LastIndex(ss[|ss| - 1].lit, ':') >= 0
  {
  }

  lemma CutTokenSound(ss: seq<Segment>, rest: seq<string>)
    requires ss != [] && Lexed(InSegments, rest) && Ends(rest) && Clean(rest) && !ss[|ss| - 1].Literal? && rest[0] != EOF
    requires CutVerb(ss, rest).Some? && CutVerb(ss, rest).value.left[0] == EOF
    ensures var cut := CutVerb(ss, rest).value;
            VerbCut(ss, rest) && ShowAll(ss) + ExpandedTokens(InSegments, rest) == ShowAll(cut.segments) + (":" + cut.verb)
  {
    hide ShowAll;
    assert ss[|ss| - 1].Variable? && Accepts(Verb, rest[0]);
    LiteralIsPlain(InSegments, rest[0]);
    WordOver(InSegments, rest);
    CleanTail(rest);
    assert rest[1..] == [EOF];
    NothingLeft();
    hide ExpandedTokens, Lexed, IsPChars;
    assert rest[0] == ":" + rest[0][1..];
  }

  lemma CutLiteral(ss: seq<Segment>, idx: nat)
    requires ss != [] && ss[|ss| - 1].Literal? && idx < |ss[|ss| - 1].lit| && ss[|ss| - 1].lit[idx] == ':'
    ensures var lit := ss[|ss| - 1].lit;
            ShowAll(ss) == ShowAll(ss[|ss| - 1 := Literal(lit[..idx])]) + (":" + lit[idx + 1..])
  {
    var lit := ss[|ss| - 1].lit;
    assert lit == lit[..idx] + (":" + lit[idx + 1..]);
    hide ShowAll;
    ShowAllLast(ss, Literal(lit[..idx]), ":" + lit[idx + 1..]);
  }

  lemma NothingLeft()
    ensures ExpandedTokens(InSegments, [EOF]) == ""
  {
  }

  /** What a template reads after its leading slash, with every {path} written as {path=*}. */
  function Input(tmpl: string): string
    requires tmpl != ""
  {
    "/" + Expanded(InSegments, tmpl[1..])
  }

  /** A closing colon with nothing behind it is dropped. */
  predicate ColonDropped(tmpl: string, t: Template)
    requires tmpl != ""
  {
    tmpl[|tmpl| - 1] == ':' && t.verb == ""
  }

  lemma RootRendered(path: string)
    requires '\0' !in path && (Tokens(InSegments, path) + [EOF])[0] == EOF
    ensures path == "" && Expanded(InSegments, path) == "" && ShowAll([Literal("")]) == ""
  {
    NoEndInside(InSegments, path);
    if path != "" { SomeToken(InSegments, path); }
  }

  lemma LastOfLast(ss: seq<Segment>)
    requires ss != [] && SegmentOk(ss[|ss| - 1])
    requires ss[|ss| - 1].Literal? ==> ':' !in ss[|ss| - 1].lit
    ensures ShowAll(ss) != "" && ShowAll(ss)[|ShowAll(ss)| - 1] != ':'
  {
    var s := ss[|ss| - 1];
    assert Show(s) != "" && Show(s)[|Show(s)| - 1] != ':' by {
      match s {
        case Variable(path, body) =>
          hide ShowAll, Join;
          var w := "{" + Join(path, ".") + "=" + ShowAll(body);
          assert Show(s) == w + "}" && (w + "}")[|w|] == '}';
        case _ =>
      }
    }
    LastShown(ss);
  }

  /** The input ends with a colon and the verb is empty just when a colon was cut off with nothing behind it. */
  lemma ClosingColon(path: string, ss: seq<Segment>, cut: seq<Segment>, verb: string, wasCut: bool)
    requires path != "" && ss != [] && SegmentOk(ss[|ss| - 1])
    requires Expanded(InSegments, path) == ShowAll(cut) + if wasCut then ":" + verb else ""
    requires !wasCut ==> cut == ss && verb == "" && (ss[|ss| - 1].Literal? ==> ':' !in ss[|ss| - 1].lit)
    ensures path[|path| - 1] == ':' && verb == "" <==> wasCut && verb == ""
  {
    LastExpanded(InSegments, path);
    hide Expanded, ShowAll;
    if !wasCut {
      LastOfLast(ss);
      assert ShowAll(cut) + "" == ShowAll(cut);
    } else if verb == "" {
      assert (ShowAll(cut) + (":" + verb))[|ShowAll(cut)|] == ':';
    }
  }

  /** A parsed template renders back as its input, less a closing colon without a verb. */
  lemma Rendered(tmpl: string)
    requires ParseOf(tmpl).Some? && '\0' !in tmpl
    ensures var t := ParseOf(tmpl).value;
            Input(tmpl) == ShowTemplate(t.segments, t.verb) + if ColonDropped(tmpl, t) then ":" else ""
  {
    var path := tmpl[1..];
    var toks := Tokens(InSegments, path) + [EOF];
    var t := ParseOf(tmpl).value;
    assert TemplateOf(tmpl, toks) == Some(t);
    hide *;
    TokensLexed(InSegments, path);
    NoEndInside(InSegments, path);
    ExpandedSame(InSegments, path);
    CleanTokens(Tokens(InSegments, path));
    if toks[0] == EOF {
      RootTemplate(tmpl, toks);
      RootRendered(path);
      assert tmpl == "/";
      RenderedParts(tmpl, t, false);
    } else {
      RestRendered(tmpl, path, toks);
    }
  }

  lemma CleanTokens(ts: seq<string>)
    requires NoEnd(ts)
    ensures Clean(ts + [EOF]) && Ends(ts + [EOF])
  {
  }

  lemma RootTemplate(tmpl: string, toks: seq<string>)
    requires Ends(toks) && toks[0] == EOF
    ensures TemplateOf(tmpl, toks) == Some(Template(tmpl, [Literal("")], ""))
  {
  }

  lemma TemplateParts(tmpl: string, toks: seq<string>) returns (run: Run, rest: seq<string>, cut: Cut)
    requires Ends(toks) && toks[0] != EOF && TemplateOf(tmpl, toks).Some?
    ensures SegmentsOf(toks) == Got(run, rest) && Ends(rest) && run.segments != []
    ensures CutVerb(run.segments, rest) == Some(cut) && Ends(cut.left) && cut.left[0] == EOF
    ensures TemplateOf(tmpl, toks) == Some(Template(tmpl, cut.segments, cut.verb))
  {
    hide SegmentsOf, CutVerb;
    run, rest := SegmentsOf(toks).value, SegmentsOf(toks).rest;
    cut := CutVerb(run.segments, rest).value;
  }

  lemma RestRendered(tmpl: string, path: string, toks: seq<string>)
    requires tmpl == "/" + path && Ends(toks) && Clean(toks) && Lexed(InSegments, toks) && toks[0] != EOF
    requires ExpandedTokens(InSegments, toks) == Expanded(InSegments, path)
    requires TemplateOf(tmpl, toks).Some?
    ensures var t := TemplateOf(tmpl, toks).value;
            Input(tmpl) == ShowTemplate(t.segments, t.verb) + if ColonDropped(tmpl, t) then ":" else ""
  {
    hide *;
    var t := TemplateOf(tmpl, toks).value;
    ExpandedNothing(InSegments);
    var run, rest, cut := TemplateParts(tmpl, toks);
    SegmentsSound(InSegments, toks);
    SoundParts(toks, ShowAll(run.segments), rest);
    LastOk(run);
    CutSound(run.segments, rest);
    var wasCut := VerbCut(run.segments, rest);
    if !wasCut { NotCutLiteral(run.segments, rest); }
    if path == "" {
      SomethingShown(run.segments);
    }
    ClosingColon(path, run.segments, cut.segments, cut.verb, wasCut);
    DroppedParts(tmpl, path, t);
    assert tmpl[1..] == path;
    RenderedParts(tmpl, t, wasCut);
  }

  lemma SomethingShown(ss: seq<Segment>)
    requires ss != [] && SegmentOk(ss[|ss| - 1])
    ensures ShowAll(ss) != ""
  {
    var s := ss[|ss| - 1];
    assert |Show(s)| > 0 by {
      match s {
        case Variable(path, body) => assert Show(s)[0] == '{';
        case _ =>
      }
    }
    LastShown(ss);
  }

  lemma SoundParts(toks: seq<string>, shown: string, rest: seq<string>)
    requires Sound(InSegments, toks, shown, rest) && Clean(toks)
    ensures Lexed(InSegments, rest) && Clean(rest)
    ensures ExpandedTokens(InSegments, toks) == shown + ExpandedTokens(InSegments, rest)
  {
  }

  lemma LastOk(run: Run)
    requires OkIn(InSegments, run.segments) && run.segments != []
    ensures SegmentOk(run.segments[|run.segments| - 1])
  {
  }

  lemma NotCutLiteral(ss: seq<Segment>, rest: seq<string>)
    requires ss != [] && rest != [] && !VerbCut(ss, rest)
    ensures ss[|ss| - 1].Literal? ==> ':' !in ss[|ss| - 1].lit
  {
  }

  lemma DroppedParts(tmpl: string, path: string, t: Template)
    requires path != "" && tmpl == "/" + path
    ensures ColonDropped(tmpl, t) <==> path[|path| - 1] == ':' && t.verb == ""
  {
  }

  lemma RenderedParts(tmpl: string, t: Template, wasCut: bool)
    requires tmpl != "" && (!wasCut ==> t.verb == "")
    requires Expanded(InSegments, tmpl[1..]) == ShowAll(t.segments) + if wasCut then ":" + t.verb else ""
    requires ColonDropped(tmpl, t) <==> wasCut && t.verb == ""
    ensures Input(tmpl) == ShowTemplate(t.segments, t.verb) + if ColonDropped(tmpl, t) then ":" else ""
  {
    hide Expanded, ShowAll, ColonDropped;
    var a := ShowAll(t.segments);
    if wasCut {
      assert "/" + (a + (":" + t.verb)) == "/" + a + (":" + t.verb);
      if t.verb == "" { assert "/" + a + (":" + "") == "/" + a + "" + ":"; }
    }
  }
}
