/** What some texts parse to: wildcards, then a literal or a variable, with a verb. They are the templates that lose
    their colon or mislead Find. */
module HttpRuleMade {
  import opened Text
  import opened PathChars
  import opened Lexing
  import opened HttpRule
  import opened HttpRuleSound
  import opened HttpRuleShape

  // ---- templates of wildcards and one literal ------------------------------------------

  function Stars(n: nat): string {
    if n == 0 then "" else "*/" + Stars(n - 1)
  }

  function StarTokens(n: nat): seq<string> {
    if n == 0 then [] else ["*", "/"] + StarTokens(n - 1)
  }

  function Wildcards(n: nat): seq<Segment> {
    if n == 0 then [] else [Wildcard] + Wildcards(n - 1)
  }

  lemma StarsUnfold(n: nat, rest: string, toks: seq<string>, ss: seq<Segment>)
    ensures n == 0 ==> Stars(n) + rest == rest && StarTokens(n) + toks == toks && Wildcards(n) + ss == ss
    ensures n > 0 ==>
              && Stars(n) + rest == "*" + ['/'] + (Stars(n - 1) + rest)
              && StarTokens(n) + toks == ["*", "/"] + (StarTokens(n - 1) + toks)
              && Wildcards(n) + ss == [Wildcard] + (Wildcards(n - 1) + ss)
  {
  }

  lemma {:induction false} StarsTokens(n: nat, rest: string)
    ensures Tokens(InSegments, Stars(n) + rest) == StarTokens(n) + Tokens(InSegments, rest)
    decreases n
  {
    hide *;
    StarsUnfold(n, rest, Tokens(InSegments, rest), []);
    if n > 0 {
      StarIsWord();
      TokensStep(InSegments, "*", '/', Stars(n - 1) + rest);
      StarsTokens(n - 1, rest);
    }
  }

  lemma StarIsWord()
    ensures !Has("*", Separators(InSegments)) && '/' in Separators(InSegments) && Next(InSegments, '/') == InSegments
  {
  }

  lemma {:induction false} StarsParse(n: nat, toks: seq<string>, ss: seq<Segment>, rest: seq<string>)
    requires Ends(toks) && SegmentsOf(toks) == Got(Run(ss, false), rest)
    ensures Ends(StarTokens(n) + toks) && SegmentsOf(StarTokens(n) + toks) == Got(Run(Wildcards(n) + ss, false), rest)
    decreases n
  {
    hide *;
    StarsUnfold(n, "", toks, ss);
    if n > 0 {
      StarsParse(n - 1, toks, ss, rest);
      OneStar(StarTokens(n - 1) + toks, Wildcards(n - 1) + ss, rest);
    }
  }

  lemma OneStar(toks: seq<string>, ss: seq<Segment>, rest: seq<string>)
    requires Ends(toks) && SegmentsOf(toks) == Got(Run(ss, false), rest)
    ensures Ends(["*", "/"] + toks) && SegmentsOf(["*", "/"] + toks) == Got(Run([Wildcard] + ss, false), rest)
  {
    var all := ["*", "/"] + toks;
    assert all[1..] == ["/"] + toks && all[1..][1..] == toks;
    hide SegmentsOf;
    assert SegmentOf(all) == Got(One(Wildcard, false), all[1..]);
    SegmentsStep(One(Wildcard, false), all, all[1..]);
  }

  /** A word of pchars that is no wildcard is a literal. */
  lemma LiteralParse(w: string, toks: seq<string>)
    requires IsPChars(w) && w != "*" && w != "**" && Ends(toks) && toks[0] != "/"
    ensures Ends([w] + toks) && SegmentsOf([w] + toks) == Got(Run([Literal(w)], false), toks)
  {
    var all := [w] + toks;
    assert all[1..] == toks;
    hide SegmentsOf, IsPChars;
    assert SegmentOf(all) == Got(One(Literal(w), false), toks);
    SegmentsStep(One(Literal(w), false), all, toks);
  }

  // ---- a literal and a verb -------------------------------------------------------------

  /** As many wildcards as components before the last, then a literal with a verb. */
  function LiteralText(n: nat, lit: string, verb: string): string {
    "/" + (Stars(n) + (lit + ":" + verb))
  }

  function LiteralDecoy(n: nat, lit: string, verb: string): Template {
    Template(LiteralText(n, lit, verb), Wildcards(n) + [Literal(lit)], verb)
  }

  lemma LiteralDecoyParses(n: nat, lit: string, verb: string)
    requires IsPChars(lit) && IsPChars(verb) && ':' !in verb
    ensures ParseOf(LiteralText(n, lit, verb)) == Some(LiteralDecoy(n, lit, verb))
  {
    hide *;
    var w := lit + ":" + verb;
    WordOfTwo(lit, verb);
    StarsTokens(n, w);
    TextParts(n, lit, verb);
    LiteralParse(w, [EOF]);
    StarsParse(n, [w] + [EOF], [Literal(w)], [EOF]);
    Regroup(StarTokens(n), [w], [EOF]);
    FirstToken(n, w);
    LastCut(Wildcards(n), lit, verb);
    ParseByTokens(LiteralText(n, lit, verb), Stars(n) + w, StarTokens(n) + ([w] + [EOF]), Wildcards(n) + [Literal(w)], [EOF]);
  }

  lemma WordOfTwo(lit: string, verb: string)
    requires IsPChars(lit) && IsPChars(verb)
    ensures var w := lit + ":" + verb;
            && IsPChars(w) && w != "*" && w != "**" && w != EOF && w != ""
            && Tokens(InSegments, w) == [w] && Ends([EOF]) && [EOF][0] != "/"
  {
    var w := lit + ":" + verb;
    PCharsCut(lit, verb);
    assert w[|lit|] == ':';
    PCharsAvoid(w, Separators(InSegments));
    LiteralIsPlain(InSegments, w);
    TokensLast(InSegments, w);
  }

  lemma TextParts(n: nat, lit: string, verb: string)
    ensures var text := LiteralText(n, lit, verb);
            && text != "" && text[0] == '/' && text[1..] == Stars(n) + (lit + ":" + verb)
            && LiteralDecoy(n, lit, verb) == Template(text, Wildcards(n) + [Literal(lit)], verb)
  {
  }

  lemma FirstToken(n: nat, w: string)
    requires w != EOF
    ensures (StarTokens(n) + ([w] + [EOF]))[0] != EOF
  {
  }

  lemma LastCut(ws: seq<Segment>, lit: string, verb: string)
    requires ':' !in verb
    ensures Ends([EOF])
    ensures CutVerb(ws + [Literal(lit + ":" + verb)], [EOF]) == Some(Cut(ws + [Literal(lit)], verb, [EOF]))
  {
    var w := lit + [':'] + verb;
    LastIndexAppend(lit, ':', verb);
    assert w[..|lit|] == lit && w[|lit| + 1..] == verb;
    assert (ws + [Literal(w)])[|ws| := Literal(lit)] == ws + [Literal(lit)];
  }

  /** A template is what its segments and its cut make it. */
  lemma ParseByTokens(tmpl: string, path: string, toks: seq<string>, ss: seq<Segment>, rest: seq<string>)
    requires tmpl != "" && tmpl[0] == '/' && tmpl[1..] == path && Tokens(InSegments, path) + [EOF] == toks
    requires Ends(toks) && toks[0] != EOF && SegmentsOf(toks).Got?
    requires SegmentsOf(toks).value.segments == ss && SegmentsOf(toks).rest == rest
    requires CutVerb(ss, rest).Some? && CutVerb(ss, rest).value.left[0] == EOF
    ensures ParseOf(tmpl) == Some(Template(tmpl, CutVerb(ss, rest).value.segments, CutVerb(ss, rest).value.verb))
  {
    hide Tokens, SegmentsOf, CutVerb;
  }

  // ---- a variable and a verb ------------------------------------------------------------

  function VariableWord(lit: string, verb: string): string {
    "{a=" + lit + "}" + (":" + verb)
  }

  function VariableText(n: nat, lit: string, verb: string): string {
    "/" + (Stars(n) + VariableWord(lit, verb))
  }

  /** As many wildcards as components before the last, then a variable holding a literal, with a verb. */
  function VariableDecoy(n: nat, lit: string, verb: string): Template {
    Template(VariableText(n, lit, verb), Wildcards(n) + [Variable(["a"], [Literal(lit)])], verb)
  }

  lemma VariableDecoyParses(n: nat, lit: string, verb: string)
    requires IsWordLit(lit) && IsPChars(verb)
    ensures ParseOf(VariableText(n, lit, verb)) == Some(VariableDecoy(n, lit, verb))
  {
    hide *;
    var word, v := VariableWord(lit, verb), Variable(["a"], [Literal(lit)]);
    var toks := ["{", "a", "=", lit, "}", ":" + verb];
    VariableTokens(lit, verb);
    StarsTokens(n, word);
    VariableTextParts(n, lit, verb);
    VariableParse(lit, verb);
    StarsParse(n, toks + [EOF], [v], [":" + verb, EOF]);
    Regroup(StarTokens(n), toks, [EOF]);
    FirstIsBrace(n, toks + [EOF]);
    VariableCut(Wildcards(n), v, verb);
    ParseByTokens(VariableText(n, lit, verb), Stars(n) + word, StarTokens(n) + (toks + [EOF]), Wildcards(n) + [v], [":" + verb, EOF]);
  }

  lemma VariableTextParts(n: nat, lit: string, verb: string)
    ensures var text := VariableText(n, lit, verb);
            && text != "" && text[0] == '/' && text[1..] == Stars(n) + VariableWord(lit, verb)
            && VariableDecoy(n, lit, verb) == Template(text, Wildcards(n) + [Variable(["a"], [Literal(lit)])], verb)
  {
  }

  lemma FirstIsBrace(n: nat, toks: seq<string>)
    requires toks != [] && toks[0] == "{"
    ensures StarTokens(n) + toks != [] && (StarTokens(n) + toks)[0] != EOF
  {
  }

  lemma VariableTokens(lit: string, verb: string)
    requires IsWordLit(lit) && IsPChars(verb)
    ensures Tokens(InSegments, VariableWord(lit, verb)) == ["{", "a", "=", lit, "}", ":" + verb]
  {
    WordsAvoid(lit, verb);
    TextOfVariable(lit, verb);
    hide *;
    var tail := ":" + verb;
    TokensLast(InSegments, tail);
    TokensStep(InNested, lit, '}', tail);
    TokensStep(InField, "a", '=', lit + ['}'] + tail);
    TokensStep(InSegments, "", '{', "a" + ['='] + (lit + ['}'] + tail));
    SixTokens(lit, tail);
  }

  lemma SixTokens(lit: string, tail: string)
    ensures [['{']] + (["a", ['=']] + ([lit, ['}']] + [tail])) == ["{", "a", "=", lit, "}", tail]
  {
  }

  lemma TextOfVariable(lit: string, verb: string)
    ensures VariableWord(lit, verb) == "" + ['{'] + ("a" + ['='] + (lit + ['}'] + (":" + verb)))
  {
  }

  lemma WordsAvoid(lit: string, verb: string)
    requires IsWordLit(lit) && IsPChars(verb)
    ensures !Has(lit, Separators(InNested)) && lit != "" && !Has(":" + verb, Separators(InSegments)) && ":" + verb != ""
    ensures !Has("a", Separators(InField)) && !Has("", Separators(InSegments))
    ensures '{' in Separators(InSegments) && '=' in Separators(InField) && '}' in Separators(InNested)
    ensures Next(InSegments, '{') == InField && Next(InField, '=') == InNested && Next(InNested, '}') == InSegments
  {
    PCharsAvoid(lit, Separators(InNested));
    ColonWord(verb);
    PCharsAvoid(":" + verb, Separators(InSegments));
  }

  lemma ColonWord(verb: string)
    ensures IsPChars(":" + verb) <==> IsPChars(verb)
  {
    assert (":" + verb)[1..] == verb;
  }

  lemma VariableParse(lit: string, verb: string)
    requires IsWordLit(lit) && IsPChars(verb)
    ensures var toks := ["{", "a", "=", lit, "}", ":" + verb] + [EOF];
            Ends(toks) && SegmentsOf(toks) == Got(Run([Variable(["a"], [Literal(lit)])], false), [":" + verb, EOF])
  {
    hide *;
    var v := ":" + verb;
    var rest := ["}", v, EOF];
    TailParts(lit, v);
    Wordy(lit, verb);
    LiteralParse(lit, rest);
    NameParse(["=", lit] + rest);
    BodyParse(lit, rest, [Literal(lit)]);
    BracesParse(["{", "a", "=", lit, "}", v] + [EOF], ["a"], ["=", lit] + rest, Run([Literal(lit)], false), rest);
    BracesAlone(["{", "a", "=", lit, "}", v] + [EOF], One(Variable(["a"], [Literal(lit)]), false), [v, EOF]);
  }

  lemma TailParts(lit: string, v: string)
    ensures var toks, rest := ["{", "a", "=", lit, "}", v] + [EOF], ["}", v, EOF];
            && Ends(toks) && toks[0] == "{" && toks[1..] == ["a"] + (["=", lit] + rest)
            && Ends(["=", lit] + rest) && (["=", lit] + rest)[0] == "="
            && Ends(rest) && rest[0] == "}" && rest[1..] == [v, EOF]
            && Ends([v, EOF]) && [v, EOF][0] == v
  {
  }

  lemma Wordy(lit: string, verb: string)
    requires IsWordLit(lit)
    ensures IsPChars(lit) && lit != "*" && lit != "**" && ":" + verb != "/" && "}" != "/"
  {
    assert (":" + verb)[0] == ':';
  }

  lemma BodyParse(lit: string, rest: seq<string>, ss: seq<Segment>)
    requires Ends([lit] + rest) && SegmentsOf([lit] + rest) == Got(Run(ss, false), rest)
    ensures Ends(["=", lit] + rest) && BodyOf(["=", lit] + rest) == Got(Run(ss, false), rest)
  {
    assert (["=", lit] + rest)[1..] == [lit] + rest;
    hide SegmentsOf;
  }

  lemma BracesParse(toks: seq<string>, path: seq<string>, mid: seq<string>, body: Run, close: seq<string>)
    requires Ends(toks) && toks[0] == "{" && Ends(toks[1..]) && FieldPathOf(toks[1..]) == Got(path, mid)
    requires Ends(mid) && BodyOf(mid) == Got(body, close) && close != [] && close[0] == "}"
    ensures VariableOf(toks) == Got(One(Variable(path, body.segments), body.multi), close[1..])
  {
    hide FieldPathOf, BodyOf;
  }

  lemma BracesAlone(toks: seq<string>, one: One, rest: seq<string>)
    requires Ends(toks) && toks[0] == "{" && VariableOf(toks) == Got(one, rest) && !one.multi && Ends(rest) && rest[0] != "/"
    ensures SegmentsOf(toks) == Got(Run([one.segment], false), rest)
  {
    hide SegmentsOf, VariableOf;
    BraceIsNoWord();
    assert SegmentOf(toks) == Got(one, rest);
    SegmentsStep(one, toks, rest);
  }

  lemma BraceIsNoWord()
    ensures !IsPChars("{")
  {
  }

  lemma NameParse(toks: seq<string>)
    requires Ends(toks) && toks[0] != "."
    ensures Ends(["a"] + toks) && FieldPathOf(["a"] + toks) == Got(["a"], toks)
  {
    assert (["a"] + toks)[1..] == toks && ["a"] + [] == ["a"];
    assert IsIdent("a");
    assert MoreComponents(toks) == Got([], toks);
  }

  lemma VariableCut(ws: seq<Segment>, v: Segment, verb: string)
    requires v.Variable? && IsPChars(verb)
    ensures Ends([":" + verb, EOF])
    ensures CutVerb(ws + [v], [":" + verb, EOF]) == Some(Cut(ws + [v], verb, [EOF])) && [EOF][0] == EOF
  {
    ColonWord(verb);
    assert [":" + verb, EOF][1..] == [EOF] && (":" + verb)[1..] == verb && ":" + verb != EOF;
  }

  // ---- a variable without a body --------------------------------------------------------

  const PLAIN_VARIABLE := "/{a}:"

  lemma PlainVariableParses()
    ensures ParseOf(PLAIN_VARIABLE) == Some(Template(PLAIN_VARIABLE, [Variable(["a"], [Wildcard])], ""))
  {
    hide *;
    var toks := ["{", "a", "}", ":"] + [EOF];
    PlainVariableTokens();
    PlainVariableTails();
    NameParse(["}", ":", EOF]);
    NoBody(["}", ":", EOF]);
    BracesParse(toks, ["a"], ["}", ":", EOF], Run([Wildcard], false), ["}", ":", EOF]);
    BracesAlone(toks, One(Variable(["a"], [Wildcard]), false), [":", EOF]);
    VariableCut([], Variable(["a"], [Wildcard]), "");
    NothingBefore([Variable(["a"], [Wildcard])]);
    ParseByTokens(PLAIN_VARIABLE, "{a}:", toks, [Variable(["a"], [Wildcard])], [":", EOF]);
  }

  lemma PlainVariableTokens()
    ensures Tokens(InSegments, "{a}:") == ["{", "a", "}", ":"] && PLAIN_VARIABLE != ""
    ensures PLAIN_VARIABLE[0] == '/' && PLAIN_VARIABLE[1..] == "{a}:" && IsPChars("")
  {
    hide Tokens;
    TokensLast(InSegments, ":");
    TokensStep(InField, "a", '}', ":");
    TokensStep(InSegments, "", '{', "a" + ['}'] + ":");
    assert "{a}:" == "" + ['{'] + ("a" + ['}'] + ":");
    assert [['{']] + (["a", ['}']] + [":"]) == ["{", "a", "}", ":"];
  }

  lemma PlainVariableTails()
    ensures var toks, mid := ["{", "a", "}", ":"] + [EOF], ["}", ":", EOF];
            && Ends(toks) && toks[0] == "{" != EOF && toks[1..] == ["a"] + mid
            && Ends(mid) && mid[0] == "}" && mid[1..] == [":", EOF] && Ends([":", EOF]) && [":", EOF][0] == ":"
            && ":" + "" == ":"
  {
  }

  lemma NoBody(toks: seq<string>)
    requires Ends(toks) && toks[0] != "="
    ensures BodyOf(toks) == Got(Run([Wildcard], false), toks)
  {
  }

  lemma NothingBefore(ss: seq<Segment>)
    ensures [] + ss == ss
  {
  }

  // ---- "**" alone ------------------------------------------------------------------------

  const ANY_PATH := Template("/**", [MultiWildcard], "")

  lemma AnyPathParses()
    ensures ParseOf(ANY_PATH.tmpl) == Some(ANY_PATH)
  {
    hide *;
    AnyPathTokens();
    AnyPathSegments();
    ParseByTokens("/**", "**", ["**", EOF], [MultiWildcard], [EOF]);
  }

  lemma AnyPathTokens()
    ensures ANY_PATH == Template("/**", [MultiWildcard], "") && "/**"[0] == '/' && "/**"[1..] == "**"
    ensures Tokens(InSegments, "**") + [EOF] == ["**", EOF]
  {
    TokensLast(InSegments, "**");
  }

  lemma AnyPathSegments()
    ensures var toks := ["**", EOF];
            && Ends(toks) && toks[0] != EOF && Ends([EOF]) && SegmentsOf(toks) == Got(Run([MultiWildcard], true), [EOF])
            && CutVerb([MultiWildcard], [EOF]) == Some(Cut([MultiWildcard], "", [EOF]))
  {
    hide SegmentsOf, VariableOf, IsPChars;
    var toks := ["**", EOF];
    assert toks[1..] == [EOF];
    assert SegmentOf(toks) == Got(One(MultiWildcard, true), [EOF]);
    SegmentsStep(One(MultiWildcard, true), toks, [EOF]);
  }
}
