/** The path-template front end of internal/httprule: AST, rendering, and the grammar its parser follows. */
module HttpRule {
  import opened Text
  import opened PathChars
  import opened Lexing

  datatype Segment =
    | Wildcard
    | MultiWildcard
    | Variable(fieldPath: seq<string>, segments: seq<Segment>)
    | Literal(lit: string)

  datatype Template = Template(tmpl: string, segments: seq<Segment>, verb: string)

  function Show(s: Segment): string {
    match s
    case Wildcard => "*"
    case MultiWildcard => "**"
    case Literal(l) => l
    case Variable(path, body) => "{" + Join(path, ".") + "=" + ShowAll(body) + "}"
  }

  function ShowAll(ss: seq<Segment>): string {
    if ss == [] then ""
    else if |ss| == 1 then Show(ss[0])
    else Show(ss[0]) + "/" + ShowAll(ss[1..])
  }

  /** The template written out. */
  function ShowTemplate(ss: seq<Segment>, verb: string): string {
    "/" + ShowAll(ss) + if verb == "" then "" else ":" + verb
  }

  // ---- grammar ------------------------------------------------------------------------

  datatype Lexeme = Slash | Star | StarStar | Dot | Equals | LBrace | RBrace | Ident | Lit | Verb | End

  function Punctuation(want: Lexeme): string {
    match want
    case Slash => "/"
    case Star => "*"
    case StarStar => "**"
    case Dot => "."
    case Equals => "="
    case LBrace => "{"
    case RBrace => "}"
    case _ => ""
  }

  /** checkIdent does not refuse the empty string. */
  predicate IsIdentOrEmpty(t: string) {
    t == "" || IsIdent(t)
  }

  predicate Accepts(want: Lexeme, got: string) {
    match want
    case End => got == EOF
    case Ident => IsIdentOrEmpty(got)
    case Lit => IsPChars(got)
    case Verb => IsPChars(got) && got != "" && got[0] == ':'
    case _ => got == Punctuation(want)
  }

  datatype Parsed<+T> = Fail | Got(value: T, rest: seq<string>)

  /** Segments with the information whether the last one is "**" or a variable ending in "**". */
  datatype Run = Run(segments: seq<Segment>, multi: bool)

  datatype One = One(segment: Segment, multi: bool)

  function SegmentsOf(toks: seq<string>): (r: Parsed<Run>)
    requires Ends(toks)
    ensures r.Got? ==> Ends(r.rest) && |r.rest| < |toks| && |r.value.segments| > 0
    decreases |toks|, 2
  {
    match SegmentOf(toks)
    case Fail => Fail
    case Got(one, rest) => Prepend([one.segment], MoreSegments(one.multi, rest))
  }

  /** What may follow a segment; nothing may follow "**". */
  function MoreSegments(multi: bool, toks: seq<string>): (r: Parsed<Run>)
    requires Ends(toks)
    ensures r.Got? ==> Ends(r.rest) && |r.rest| <= |toks|
    decreases |toks|, 0
  {
    if multi then Got(Run([], true), toks)
    else if Accepts(Slash, toks[0]) then SegmentsOf(toks[1..])
    else Got(Run([], false), toks)
  }

  function Prepend(ss: seq<Segment>, p: Parsed<Run>): Parsed<Run> {
    match p
    case Fail => Fail
    case Got(more, rest) => Got(Run(ss + more.segments, more.multi), rest)
  }

  function SegmentOf(toks: seq<string>): (r: Parsed<One>)
    requires Ends(toks)
    ensures r.Got? ==> Ends(r.rest) && |r.rest| < |toks|
    decreases |toks|, 1
  {
    if Accepts(Star, toks[0]) then Got(One(Wildcard, false), toks[1..])
    else if Accepts(StarStar, toks[0]) then Got(One(MultiWildcard, true), toks[1..])
    else if Accepts(Lit, toks[0]) then Got(One(Literal(toks[0]), false), toks[1..])
    else VariableOf(toks)
  }

  function VariableOf(toks: seq<string>): (r: Parsed<One>)
    requires Ends(toks)
    ensures r.Got? ==> Ends(r.rest) && |r.rest| < |toks|
    decreases |toks|, 0
  {
    if !Accepts(LBrace, toks[0]) then Fail
    else
      match FieldPathOf(toks[1..])
      case Fail => Fail
      case Got(path, rest) =>
        match BodyOf(rest)
        case Fail => Fail
        case Got(body, rest) =>
          if Accepts(RBrace, rest[0]) then Got(One(Variable(path, body.segments), body.multi), rest[1..]) else Fail
  }

  function BodyOf(toks: seq<string>): (r: Parsed<Run>)
    requires Ends(toks)
    ensures r.Got? ==> Ends(r.rest) && |r.rest| <= |toks|
    decreases |toks|, 0
  {
    if Accepts(Equals, toks[0]) then SegmentsOf(toks[1..]) else Got(Run([Wildcard], false), toks)
  }

  function FieldPathOf(toks: seq<string>): (r: Parsed<seq<string>>)
    requires Ends(toks)
    ensures r.Got? ==> Ends(r.rest) && |r.rest| < |toks| && |r.value| > 0
    decreases |toks|, 1
  {
    if !Accepts(Ident, toks[0]) then Fail
    else PrependNames([toks[0]], MoreComponents(toks[1..]))
  }

  function MoreComponents(toks: seq<string>): (r: Parsed<seq<string>>)
    requires Ends(toks)
    ensures r.Got? ==> Ends(r.rest) && |r.rest| <= |toks|
    decreases |toks|, 0
  {
    if Accepts(Dot, toks[0]) then FieldPathOf(toks[1..])
    else Got([], toks)
  }

  function PrependNames(ns: seq<string>, p: Parsed<seq<string>>): Parsed<seq<string>> {
    match p
    case Fail => Fail
    case Got(more, rest) => Got(ns + more, rest)
  }

  /** The segments and the verb once the verb is taken off the last segment or off the tokens. */
  datatype Cut = Cut(segments: seq<Segment>, verb: string, left: seq<string>)

  function CutVerb(ss: seq<Segment>, left: seq<string>): (r: Option<Cut>)
    requires |ss| > 0 && Ends(left)
    ensures r.Some? ==> Ends(r.value.left)
  {
    var last := ss[|ss| - 1];
    if last.Literal? then
      var idx := LastIndex(last.lit, ':');
      if idx == -1 then Some(Cut(ss, "", left))
      else Some(Cut(ss[|ss| - 1 := Literal(last.lit[..idx])], last.lit[idx + 1..], left))
    else if last.Variable? && left[0] != EOF then
      if Accepts(Verb, left[0]) then Some(Cut(ss, left[0][1..], left[1..])) else None
    else Some(Cut(ss, "", left))
  }

  function TemplateOf(tmpl: string, toks: seq<string>): Option<Template>
    requires Ends(toks)
  {
    if Accepts(End, toks[0]) then Some(Template(tmpl, [Literal("")], ""))
    else
      match SegmentsOf(toks)
      case Fail => None
      case Got(run, rest) =>
        match CutVerb(run.segments, rest)
        case None => None
        case Some(cut) =>
          if Accepts(End, cut.left[0]) then Some(Template(tmpl, cut.segments, cut.verb)) else None
  }

  function ParseOf(tmpl: string): Option<Template> {
    if tmpl == "" || tmpl[0] != '/' then None
    else TemplateOf(tmpl, Tokens(InSegments, tmpl[1..]) + [EOF])
  }
}
