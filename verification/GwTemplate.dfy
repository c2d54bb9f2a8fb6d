/** The path-template AST of internal/httprule/gwbased, its printer, and the grammar its parser follows. */
module GwTemplate {
  import opened Text
  import opened PathChars
  import opened Lexing

  datatype Segment =
    | Wildcard
    | DeepWildcard
    | Literal(lit: string)
    | Variable(path: string, segments: seq<Segment>)

  datatype Template = Template(segments: seq<Segment>, verb: string, template: string)

  function Show(s: Segment): string {
    match s
    case Wildcard => "*"
    case DeepWildcard => "**"
    case Literal(l) => l
    case Variable(p, body) => "{" + p + "=" + ShowAll(body) + "}"
  }

  /** The segments joined with "/". */
  function ShowAll(ss: seq<Segment>): string {
    if ss == [] then ""
    else if |ss| == 1 then Show(ss[0])
    else Show(ss[0]) + "/" + ShowAll(ss[1..])
  }

  function ShowTemplate(ss: seq<Segment>, verb: string): string {
    "/" + ShowAll(ss) + if verb == "" then "" else ":" + verb
  }

  // ---- tokens -------------------------------------------------------------------------

  /** Where the verb starts in the last token: at the first colon after a variable, else at the last colon. */
  function VerbIndex(tokens: seq<string>): (idx: int)
    requires |tokens| > 0
    ensures -1 <= idx < |tokens[|tokens| - 1]|
    ensures idx >= 0 ==> tokens[|tokens| - 1][idx] == ':'
  {
    var t := tokens[|tokens| - 1];
    if |tokens| >= 2 && tokens[|tokens| - 2] == "}" then IndexAny(t, ":") else LastIndex(t, ':')
  }

  function SplitVerb(tokens: seq<string>): (seq<string>, string)
    requires |tokens| > 0
  {
    var l := |tokens|;
    var t := tokens[l - 1];
    var idx := VerbIndex(tokens);
    if idx == 0 then (tokens[..l - 1], t[1..])
    else if idx > 0 then (tokens[l - 1 := t[..idx]], t[idx + 1..])
    else (tokens, "")
  }

  function Tokenize(path: string): (r: (seq<string>, string))
    ensures Ends(r.0)
  {
    if path == "" then ([EOF], "")
    else
      var (tokens, verb) := SplitVerb(Tokens(InSegments, path));
      (tokens + [EOF], verb)
  }

  // ---- grammar ------------------------------------------------------------------------

  datatype Term = Slash | Star | StarStar | Dot | Equals | LBrace | RBrace | Ident | Lit | End

  function Punctuation(term: Term): string {
    match term
    case Slash => "/"
    case Star => "*"
    case StarStar => "**"
    case Dot => "."
    case Equals => "="
    case LBrace => "{"
    case RBrace => "}"
    case _ => ""
  }

  /** Whether token `t` is taken for `term`. A "/" is taken for every punctuation term. */
  predicate Accepts(term: Term, t: string) {
    match term
    case End => t == EOF
    case Ident => IsIdent(t)
    case Lit => IsPChars(t)
    case _ => t == Punctuation(term) || t == "/"
  }

  datatype Parsed<+T> = Fail | Got(value: T, rest: seq<string>)

  function SegmentsOf(toks: seq<string>): (r: Parsed<seq<Segment>>)
    requires Ends(toks)
    ensures r.Got? ==> Ends(r.rest) && |r.rest| < |toks| && |r.value| > 0 && r.rest[0] != "/"
    decreases |toks|, 2
  {
    match SegmentOf(toks)
    case Fail => Fail
    case Got(s, rest) => Prepend([s], MoreSegments(rest))
  }

  function MoreSegments(toks: seq<string>): (r: Parsed<seq<Segment>>)
    requires Ends(toks)
    ensures r.Got? ==> Ends(r.rest) && |r.rest| <= |toks| && r.rest[0] != "/"
    decreases |toks|, 0
  {
    if Accepts(Slash, toks[0]) then SegmentsOf(toks[1..]) else Got([], toks)
  }

  function Prepend(ss: seq<Segment>, p: Parsed<seq<Segment>>): Parsed<seq<Segment>> {
    match p
    case Fail => Fail
    case Got(more, rest) => Got(ss + more, rest)
  }

  function SegmentOf(toks: seq<string>): (r: Parsed<Segment>)
    requires Ends(toks)
    ensures r.Got? ==> Ends(r.rest) && |r.rest| < |toks|
    decreases |toks|, 1
  {
    if Accepts(Star, toks[0]) then Got(Wildcard, toks[1..])
    else if Accepts(StarStar, toks[0]) then Got(DeepWildcard, toks[1..])
    else if Accepts(Lit, toks[0]) then Got(Literal(toks[0]), toks[1..])
    else VariableOf(toks)
  }

  function VariableOf(toks: seq<string>): (r: Parsed<Segment>)
    requires Ends(toks)
    ensures r.Got? ==> Ends(r.rest) && |r.rest| < |toks|
    decreases |toks|, 0
  {
    if !Accepts(LBrace, toks[0]) then Fail
    else
      match FieldPathOf(toks[1..])
      case Fail => Fail
      case Got(path, rest) =>
        match BodyOf(rest)
        case Fail => Fail
        case Got(body, rest) =>
          if Accepts(RBrace, rest[0]) then Got(Variable(path, body), rest[1..]) else Fail
  }

  /** The body of a variable; a variable without "=" has the body "*". */
  function BodyOf(toks: seq<string>): (r: Parsed<seq<Segment>>)
    requires Ends(toks)
    ensures r.Got? ==> Ends(r.rest) && |r.rest| <= |toks|
    decreases |toks|, 0
  {
    if Accepts(Equals, toks[0]) then SegmentsOf(toks[1..]) else Got([Wildcard], toks)
  }

  function FieldPathOf(toks: seq<string>): (r: Parsed<string>)
    requires Ends(toks)
    ensures r.Got? ==> Ends(r.rest) && |r.rest| < |toks|
  {
    match ComponentsOf(toks)
    case Fail => Fail
    case Got(comps, rest) => Got(Join(comps, "."), rest)
  }

  function ComponentsOf(toks: seq<string>): (r: Parsed<seq<string>>)
    requires Ends(toks)
    ensures r.Got? ==> Ends(r.rest) && |r.rest| < |toks| && |r.value| > 0
    decreases |toks|, 1
  {
    if !Accepts(Ident, toks[0]) then Fail
    else PrependNames([toks[0]], MoreComponents(toks[1..]))
  }

  function MoreComponents(toks: seq<string>): (r: Parsed<seq<string>>)
    requires Ends(toks)
    ensures r.Got? ==> Ends(r.rest) && |r.rest| <= |toks|
    decreases |toks|, 0
  {
    if Accepts(Dot, toks[0]) then ComponentsOf(toks[1..]) else Got([], toks)
  }

  function PrependNames(ns: seq<string>, p: Parsed<seq<string>>): Parsed<seq<string>> {
    match p
    case Fail => Fail
    case Got(more, rest) => Got(ns + more, rest)
  }

  function TopLevelOf(toks: seq<string>): Option<seq<Segment>>
    requires Ends(toks)
  {
    if Accepts(End, toks[0]) then Some([Literal(EOF)])
    else
      match SegmentsOf(toks)
      case Fail => None
      case Got(segs, rest) => if Accepts(End, rest[0]) then Some(segs) else None
  }

  function ParseOf(tmpl: string): Option<Template> {
    if tmpl == "" || tmpl[0] != '/' then None
    else
      var (tokens, verb) := Tokenize(tmpl[1..]);
      match TopLevelOf(tokens)
      case None => None
      case Some(segs) => Some(Template(segs, verb, tmpl))
  }
}
