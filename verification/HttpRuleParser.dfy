/** The parser of internal/httprule in its own step-by-step form. */
module HttpRuleParser {
  import opened Text
  import opened PathChars
  import opened Lexing
  import opened HttpRule

  method CheckIdent(s: string) returns (ok: bool)
    ensures ok <==> IsIdentOrEmpty(s)
  {
    for i := 0 to |s|
      invariant forall k :: 0 <= k < i ==> IsIdentChar(s[k])
      invariant i > 0 ==> !IsDigit(s[0])
    {
      var c := s[i];
      if IsDigit(c) {
        if i == 0 {
          return false;
        }
      } else if !IsAlpha(c) && c != '_' {
        return false;
      }
    }
    return true;
  }

  /** One pchar off the front; None when there is none. */
  function ConsumePchar(s: string): (r: Option<string>)
    requires s != ""
    ensures r.Some? ==> |r.value| < |s|
    ensures IsPChars(s) <==> r.Some? && IsPChars(r.value)
  {
    if IsPlainPChar(s[0]) then
      assert s[0] != '%';
      Some(s[1..])
    else if s[0] != '%' || |s| < 3 || !IsHex(s[1]) || !IsHex(s[2]) then None
    else Some(s[3..])
  }

  method CheckLiteral(original: string) returns (ok: bool)
    ensures ok <==> IsPChars(original)
  {
    var s := original;
    while s != ""
      invariant IsPChars(original) <==> IsPChars(s)
      decreases |s|
    {
      var rest := ConsumePchar(s);
      if rest.None? {
        return false;
      }
      s := rest.value;
    }
    return true;
  }

  ghost predicate Agrees<T>(spec: Parsed<T>, r: Option<T>, left: seq<string>) {
    match spec
    case Fail => r.None?
    case Got(value, rest) => r == Some(value) && left == rest
  }

  class Parser {
    ghost const tokens: seq<string>
    var accepted: seq<string>
    var left: seq<string>

    /** Accepted and remaining tokens are the token list. */
    ghost predicate Valid()
      reads this
    {
      accepted + left == tokens
    }

    constructor (tokens: seq<string>)
      ensures this.tokens == tokens && left == tokens && Valid()
    {
      this.tokens := tokens;
      accepted, left := [], tokens;
    }

    /** Takes the next token if it fits; a verb is returned without its colon. */
    method Accept(want: Lexeme) returns (r: Option<string>)
      requires Valid() && |left| > 0
      modifies this
      ensures Valid()
      ensures r.Some? <==> Accepts(want, old(left[0]))
      ensures r.Some? ==> left == old(left[1..]) && r.value == if want == Verb then old(left[0])[1..] else old(left[0])
      ensures r.None? ==> left == old(left)
    {
      var got := left[0];
      hide IsPChars, IsIdent;
      match want {
        case End =>
          if got != EOF { return None; }
        case Ident =>
          var ok := CheckIdent(got);
          if !ok { return None; }
        case Lit =>
          var ok := CheckLiteral(got);
          if !ok { return None; }
        case Verb =>
          var ok := CheckLiteral(got);
          if !ok || got == "" || got[0] != ':' { return None; }
          got := got[1..];
        case _ =>
          if got != Punctuation(want) { return None; }
      }
      accepted := accepted + [left[0]];
      left := left[1..];
      return Some(got);
    }

    method ParseTemplate(tmpl: string) returns (r: Option<Template>)
      requires Valid() && Ends(left)
      modifies this
      ensures Valid() && r == TemplateOf(tmpl, old(left))
    {
      hide SegmentsOf, LastIndex, IsPChars, IsIdent;
      var e := Accept(End);
      if e.Some? {
        return Some(Template(tmpl, [Literal("")], ""));
      }
      var run := Segments();
      if run.None? {
        return None;
      }
      var segments := run.value.segments;
      var verb := "";
      var last := segments[|segments| - 1];
      if last.Literal? {
        var verbIdx := LastIndex(last.lit, ':');
        if verbIdx != -1 {
          verb := last.lit[verbIdx + 1..];
          segments := segments[|segments| - 1 := Literal(last.lit[..verbIdx])];
        }
      } else if last.Variable? && left[0] != EOF {
        var v := Accept(Verb);
        if v.None? {
          return None;
        }
        verb := v.value;
      }
      e := Accept(End);
      if e.None? {
        return None;
      }
      return Some(Template(tmpl, segments, verb));
    }

    method Segments() returns (r: Option<Run>)
      requires Valid() && Ends(left)
      modifies this
      ensures Valid() && Agrees(SegmentsOf(old(left)), r, left)
      ensures Ends(left) && |left| <= |old(left)|
      decreases |left|, 2
    {
      var segments: seq<Segment> := [];
      PrependNothing(SegmentsOf(left));
      while true
        invariant Valid() && Ends(left) && |left| <= |old(left)|
        invariant SegmentsOf(old(left)) == Prepend(segments, SegmentsOf(left))
        decreases |left|
      {
        var s := SegmentM();
        if s.None? {
          return None;
        }
        PrependStep(segments, s.value.segment, MoreSegments(s.value.multi, left));
        segments := segments + [s.value.segment];
        assert segments + [] == segments;
        if s.value.multi {
          return Some(Run(segments, true));
        }
        var slash := Accept(Slash);
        if slash.None? {
          return Some(Run(segments, false));
        }
      }
    }

    method SegmentM() returns (r: Option<One>)
      requires Valid() && Ends(left)
      modifies this
      ensures Valid() && Agrees(SegmentOf(old(left)), r, left)
      ensures Ends(left) && |left| <= |old(left)| && (r.Some? ==> |left| < |old(left)|)
      decreases |left|, 1
    {
      var t := Accept(Star);
      if t.Some? {
        return Some(One(Wildcard, false));
      }
      t := Accept(StarStar);
      if t.Some? {
        return Some(One(MultiWildcard, true));
      }
      t := Accept(Lit);
      if t.Some? {
        return Some(One(Literal(t.value), false));
      }
      r := VariableM();
    }

    method VariableM() returns (r: Option<One>)
      requires Valid() && Ends(left)
      modifies this
      ensures Valid() && Agrees(VariableOf(old(left)), r, left)
      ensures Ends(left) && |left| <= |old(left)| && (r.Some? ==> |left| < |old(left)|)
      decreases |left|, 0
    {
      var t := Accept(LBrace);
      if t.None? {
        return None;
      }
      ghost var names := left;
      var path := FieldPath();
      if path.None? {
        return None;
      }
      ghost var mid := left;
      var body;
      t := Accept(Equals);
      if t.Some? {
        var segments := Segments();
        if segments.None? {
          return None;
        }
        body := segments.value;
      } else {
        body := Run([Wildcard], false);
      }
      assert FieldPathOf(names) == Got(path.value, mid) && BodyOf(mid) == Got(body, left);
      t := Accept(RBrace);
      if t.None? {
        return None;
      }
      return Some(One(Variable(path.value, body.segments), body.multi));
    }

    method FieldPath() returns (r: Option<seq<string>>)
      requires Valid() && Ends(left)
      modifies this
      ensures Valid() && Agrees(FieldPathOf(old(left)), r, left)
      ensures Ends(left) && |left| <= |old(left)|
    {
      var component := Accept(Ident);
      if component.None? {
        return None;
      }
      var path := [component.value];
      while true
        invariant Valid() && Ends(left) && |left| < |old(left)|
        invariant FieldPathOf(old(left)) == PrependNames(path, MoreComponents(left))
        decreases |left|
      {
        var dot := Accept(Dot);
        if dot.None? {
          assert path + [] == path;
          return Some(path);
        }
        component := Accept(Ident);
        if component.None? {
          assert FieldPathOf(old(left)) == PrependNames(path, Fail);
          return None;
        }
        PrependNamesStep(path, component.value, MoreComponents(left));
        path := path + [component.value];
      }
    }
  }

  lemma PrependStep(ss: seq<Segment>, s: Segment, p: Parsed<Run>)
    ensures Prepend(ss, Prepend([s], p)) == Prepend(ss + [s], p)
  {
    if p.Got? { assert ss + ([s] + p.value.segments) == ss + [s] + p.value.segments; }
  }

  lemma PrependNothing(p: Parsed<Run>)
    ensures Prepend([], p) == p
  {
    if p.Got? { assert [] + p.value.segments == p.value.segments; }
  }

  lemma PrependNamesStep(ns: seq<string>, n: string, p: Parsed<seq<string>>)
    ensures PrependNames(ns, PrependNames([n], p)) == PrependNames(ns + [n], p)
  {
    if p.Got? { assert ns + ([n] + p.value) == ns + [n] + p.value; }
  }

  method Parse(tmpl: string) returns (r: Option<Template>)
    ensures r == ParseOf(tmpl)
  {
    if tmpl == "" || tmpl[0] != '/' {
      return None;
    }
    hide Tokens;
    var tokens := SplitPath(tmpl[1..]);
    var p := new Parser(tokens + [EOF]);
    r := p.ParseTemplate(tmpl);
  }
}
