/** The tokenizer, parser and printer of internal/httprule/gwbased in their own step-by-step form. */
module GwParser {
  import opened Text
  import opened PathChars
  import opened Lexing
  import opened GwTemplate

  /** The verb part of tokenize. */
  method TakeVerb(split: seq<string>) returns (tokens: seq<string>, verb: string)
    requires |split| > 0
    ensures (tokens, verb) == SplitVerb(split)
  {
    tokens, verb := split, "";
    var l := |tokens|;
    var t := tokens[l - 1];
    var penultimateTokenIsEndVar := l >= 2 && tokens[l - 2] == "}";
    var idx;
    if penultimateTokenIsEndVar {
      idx := IndexAny(t, ":");
    } else {
      idx := LastIndex(t, ':');
    }
    assert idx == VerbIndex(split);
    hide VerbIndex, IndexAny, LastIndex;
    if idx == 0 {
      tokens, verb := tokens[..l - 1], t[1..];
    } else if idx > 0 {
      tokens, verb := tokens[l - 1 := t[..idx]], t[idx + 1..];
    }
  }

  method TokenizePath(path: string) returns (tokens: seq<string>, verb: string)
    ensures (tokens, verb) == Tokenize(path)
  {
    if path == "" {
      return [EOF], "";
    }
    hide Tokens, SplitVerb;
    tokens := SplitPath(path);
    SomeToken(InSegments, path);
    tokens, verb := TakeVerb(tokens);
    tokens := tokens + [EOF];
  }

  datatype PctState = Plain | Pct1 | Pct2

  /** What is left to read of a pchar string from each state of the automaton. */
  predicate PCharsFrom(st: PctState, t: string) {
    match st
    case Plain => IsPChars(t)
    case Pct1 => |t| >= 2 && IsHex(t[0]) && IsHex(t[1]) && IsPChars(t[2..])
    case Pct2 => |t| >= 1 && IsHex(t[0]) && IsPChars(t[1..])
  }

  method ExpectPChars(t: string) returns (ok: bool)
    ensures ok <==> IsPChars(t)
  {
    var st := Plain;
    for i := 0 to |t|
      invariant IsPChars(t) <==> PCharsFrom(st, t[i..])
    {
      var r := t[i];
      assert t[i..][0] == r && t[i..][1..] == t[i + 1..];
      if st != Plain {
        if !IsHex(r) {
          return false;
        }
        st := if st == Pct1 then Pct2 else Plain;
      } else if IsPlainPChar(r) {
      } else if r == '%' {
        assert |t[i..]| >= 3 ==> t[i..][3..] == t[i + 1..][2..];
        st := Pct1;
      } else {
        return false;
      }
    }
    return st == Plain;
  }

  method ExpectIdent(ident: string) returns (ok: bool)
    ensures ok <==> IsIdent(ident)
  {
    if ident == "" {
      return false;
    }
    for pos := 0 to |ident|
      invariant forall k :: 0 <= k < pos ==> IsIdentChar(ident[k])
      invariant pos > 0 ==> !IsDigit(ident[0])
    {
      var r := ident[pos];
      if IsDigit(r) {
        if pos == 0 {
          return false;
        }
      } else if !IsAlpha(r) && r != '_' {
        return false;
      }
    }
    return true;
  }

  /** An outcome of a parser method agrees with the grammar function applied to the tokens it started on. */
  ghost predicate Agrees<T>(spec: Parsed<T>, r: Option<T>, left: seq<string>) {
    match spec
    case Fail => r.None?
    case Got(value, rest) => r == Some(value) && left == rest
  }

  class Parser {
    var tokens: seq<string>
    var accepted: seq<string>

    constructor (tokens: seq<string>)
      ensures this.tokens == tokens && accepted == []
    {
      this.tokens := tokens;
      accepted := [];
    }

    /** Takes the next token if it fits the term; otherwise takes nothing. */
    method Accept(term: Term) returns (r: Option<string>)
      requires |tokens| > 0
      modifies this
      ensures r.Some? <==> Accepts(term, old(tokens[0]))
      ensures r.Some? ==> r.value == old(tokens[0]) && tokens == old(tokens[1..])
                          && accepted == old(accepted) + [r.value]
      ensures r.None? ==> tokens == old(tokens) && accepted == old(accepted)
      ensures accepted + tokens == old(accepted + tokens)
    {
      var t := tokens[0];
      hide IsIdent, IsPChars;
      match term {
        case End =>
          if t != EOF { return None; }
        case Ident =>
          var ok := ExpectIdent(t);
          if !ok { return None; }
        case Lit =>
          var ok := ExpectPChars(t);
          if !ok { return None; }
        case _ =>
          if t != Punctuation(term) && t != "/" { return None; }
      }
      tokens := tokens[1..];
      accepted := accepted + [t];
      return Some(t);
    }

    method TopLevelSegments() returns (r: Option<seq<Segment>>)
      requires Ends(tokens)
      modifies this
      ensures r == TopLevelOf(old(tokens))
      ensures r.None? ==> accepted + tokens == old(accepted + tokens)
    {
      var e := Accept(End);
      if e.Some? {
        tokens := [];
        return Some([Literal(EOF)]);
      }
      var segs := Segments();
      if segs.None? {
        return None;
      }
      e := Accept(End);
      if e.None? {
        return None;
      }
      return segs;
    }

    method Segments() returns (r: Option<seq<Segment>>)
      requires Ends(tokens)
      modifies this
      ensures Agrees(SegmentsOf(old(tokens)), r, tokens)
      ensures Ends(tokens) && |tokens| <= |old(tokens)|
      ensures accepted + tokens == old(accepted + tokens)
      decreases |tokens|, 2
    {
      var s := SegmentM();
      if s.None? {
        return None;
      }
      var segs := [s.value];
      while true
        invariant Ends(tokens) && |tokens| < |old(tokens)|
        invariant accepted + tokens == old(accepted + tokens)
        invariant SegmentsOf(old(tokens)) == Prepend(segs, MoreSegments(tokens))
        decreases |tokens|
      {
        ghost var toks := tokens;
        var slash := Accept(Slash);
        if slash.None? {
          assert segs + [] == segs;
          return Some(segs);
        }
        s := SegmentM();
        if s.None? {
          return None;
        }
        PrependStep(segs, s.value, MoreSegments(tokens));
        segs := segs + [s.value];
      }
    }

    method SegmentM() returns (r: Option<Segment>)
      requires Ends(tokens)
      modifies this
      ensures Agrees(SegmentOf(old(tokens)), r, tokens)
      ensures Ends(tokens) && |tokens| <= |old(tokens)|
      ensures accepted + tokens == old(accepted + tokens)
      decreases |tokens|, 1
    {
      var t := Accept(Star);
      if t.Some? {
        return Some(Wildcard);
      }
      t := Accept(StarStar);
      if t.Some? {
        return Some(DeepWildcard);
      }
      t := Accept(Lit);
      if t.Some? {
        return Some(Literal(t.value));
      }
      r := VariableM();
    }

    method VariableM() returns (r: Option<Segment>)
      requires Ends(tokens)
      modifies this
      ensures Agrees(VariableOf(old(tokens)), r, tokens)
      ensures Ends(tokens) && |tokens| <= |old(tokens)|
      ensures accepted + tokens == old(accepted + tokens)
      decreases |tokens|, 0
    {
      var t := Accept(LBrace);
      if t.None? {
        return None;
      }
      ghost var names := tokens;
      var path := FieldPath();
      if path.None? {
        return None;
      }
      ghost var mid := tokens;
      var segs;
      t := Accept(Equals);
      if t.Some? {
        var body := Segments();
        if body.None? {
          return None;
        }
        segs := body.value;
      } else {
        segs := [Wildcard];
      }
      assert FieldPathOf(names) == Got(path.value, mid) && BodyOf(mid) == Got(segs, tokens);
      t := Accept(RBrace);
      if t.None? {
        return None;
      }
      return Some(Variable(path.value, segs));
    }

    method FieldPath() returns (r: Option<string>)
      requires Ends(tokens)
      modifies this
      ensures Agrees(FieldPathOf(old(tokens)), r, tokens)
      ensures Ends(tokens) && |tokens| <= |old(tokens)|
      ensures accepted + tokens == old(accepted + tokens)
    {
      var c := Accept(Ident);
      if c.None? {
        return None;
      }
      var components := [c.value];
      while true
        invariant Ends(tokens) && |tokens| < |old(tokens)|
        invariant accepted + tokens == old(accepted + tokens)
        invariant ComponentsOf(old(tokens)) == PrependNames(components, MoreComponents(tokens))
        decreases |tokens|
      {
        var dot := Accept(Dot);
        if dot.None? {
          assert components + [] == components;
          return Some(Join(components, "."));
        }
        c := Accept(Ident);
        if c.None? {
          assert ComponentsOf(old(tokens)) == PrependNames(components, Fail);
          return None;
        }
        PrependNamesStep(components, c.value, MoreComponents(tokens));
        components := components + [c.value];
      }
    }
  }

  lemma PrependStep(ss: seq<Segment>, s: Segment, p: Parsed<seq<Segment>>)
    ensures Prepend(ss, Prepend([s], p)) == Prepend(ss + [s], p)
  {
    if p.Got? { assert ss + ([s] + p.value) == ss + [s] + p.value; }
  }

  lemma PrependNamesStep(ns: seq<string>, n: string, p: Parsed<seq<string>>)
    ensures PrependNames(ns, PrependNames([n], p)) == PrependNames(ns + [n], p)
  {
    if p.Got? { assert ns + ([n] + p.value) == ns + [n] + p.value; }
  }

  method Parse(tmpl: string) returns (r: Option<Template>)
    ensures r == ParseOf(tmpl)
  {
    if tmpl == "" || tmpl[0] != '/' {
      return None;
    }
    var tokens, verb := TokenizePath(tmpl[1..]);
    var p := new Parser(tokens);
    var segs := p.TopLevelSegments();
    if segs.None? {
      return None;
    }
    return Some(Template(segs.value, verb, tmpl));
  }

  // ---- printer ------------------------------------------------------------------------

  function Shown(ss: seq<Segment>): seq<string> {
    if ss == [] then [] else [Show(ss[0])] + Shown(ss[1..])
  }

  lemma JoinShown(ss: seq<Segment>)
    ensures Join(Shown(ss), "/") == ShowAll(ss)
  {
    if |ss| >= 2 { JoinShown(ss[1..]); }
  }

  method SegmentString(s: Segment) returns (r: string)
    ensures r == Show(s)
    decreases s, 1
  {
    match s {
      case Wildcard => r := "*";
      case DeepWildcard => r := "**";
      case Literal(l) => r := l;
      case Variable(path, body) =>
        var segs := SegmentStrings(body);
        JoinShown(body);
        r := "{" + path + "=" + Join(segs, "/") + "}";
    }
  }

  method SegmentStrings(ss: seq<Segment>) returns (segs: seq<string>)
    ensures segs == Shown(ss)
    decreases ss, 0
  {
    segs := [];
    for i := 0 to |ss|
      invariant segs + Shown(ss[i..]) == Shown(ss)
    {
      var str := SegmentString(ss[i]);
      segs := segs + [str];
    }
  }

  method TemplateString(t: Template) returns (r: string)
    ensures r == ShowTemplate(t.segments, t.verb)
  {
    var segs := SegmentStrings(t.segments);
    JoinShown(t.segments);
    var str := Join(segs, "/");
    if t.verb != "" {
      str := str + ":" + t.verb;
    }
    r := "/" + str;
  }
}
