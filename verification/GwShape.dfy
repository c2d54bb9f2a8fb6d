/** What every parse of internal/httprule/gwbased yields: tokenizer and parser taken together. */
module GwShape {
  import opened Text
  import opened PathChars
  import opened Lexing
  import opened GwTemplate

  /** A segment that may stand inside a variable. */
  predicate FlatOk(s: Segment) {
    match s
    case Wildcard => true
    case DeepWildcard => true
    case Literal(l) => l != "" && l != "*" && l != "**" && IsPChars(l)
    case Variable(_, _) => false
  }

  predicate AllFlat(ss: seq<Segment>) {
    forall k :: 0 <= k < |ss| ==> FlatOk(ss[k])
  }

  ghost predicate SegmentOk(s: Segment) {
    FlatOk(s) || (s.Variable? && IsFieldPath(s.path) && |s.segments| > 0 && AllFlat(s.segments))
  }

  /** What may stand at each nesting level: no variable inside a variable. */
  ghost predicate OkIn(st: LexState, ss: seq<Segment>) {
    forall k :: 0 <= k < |ss| ==> if st == InNested then FlatOk(ss[k]) else SegmentOk(ss[k])
  }

  // ---- the parser keeps the tokenizer's state ------------------------------------------

  lemma {:induction false} SegmentsShape(st: LexState, toks: seq<string>)
    requires Lexed(st, toks) && Ends(toks) && st != InField
    ensures SegmentsOf(toks).Got? ==> OkIn(st, SegmentsOf(toks).value) && Lexed(st, SegmentsOf(toks).rest)
    decreases |toks|, 2
  {
    hide SegmentsOf, SegmentOf, Lexed;
    SegmentShape(st, toks);
    match SegmentOf(toks) {
      case Fail => SegmentsFail(toks);
      case Got(s, rest) =>
        SegmentsStep(s, toks, rest);
        if rest[0] == "/" {
          SlashOver(st, rest);
          SegmentsShape(st, rest[1..]);
          match SegmentsOf(rest[1..]) {
            case Fail =>
            case Got(more, _) => OkAppend(st, s, more);
          }
        }
    }
  }

  lemma SegmentsFail(toks: seq<string>)
    requires Ends(toks) && SegmentOf(toks) == Fail
    ensures SegmentsOf(toks) == Fail
  {
  }

  lemma OkAppend(st: LexState, s: Segment, more: seq<Segment>)
    requires OkIn(st, [s]) && OkIn(st, more)
    ensures OkIn(st, [s] + more)
  {
    assert [s][0] == s;
  }

  lemma SlashOver(st: LexState, toks: seq<string>)
    requires Lexed(st, toks) && Ends(toks) && st != InField && toks[0] == "/"
    ensures Ends(toks[1..]) && Lexed(st, toks[1..])
  {
    assert IsSeparator(st, "/");
    LexedOver(st, toks);
  }

  lemma SegmentsStep(s: Segment, toks: seq<string>, rest: seq<string>)
    requires Ends(toks) && SegmentOf(toks) == Got(s, rest)
    ensures Ends(rest)
    ensures SegmentsOf(toks) == if rest[0] == "/" then Prepend([s], SegmentsOf(rest[1..])) else Got([s], rest)
  {
    hide SegmentOf;
    assert [s] + [] == [s];
  }

  lemma {:induction false} SegmentShape(st: LexState, toks: seq<string>)
    requires Lexed(st, toks) && Ends(toks) && st != InField
    ensures SegmentOf(toks).Got? ==>
              && OkIn(st, [SegmentOf(toks).value])
              && Lexed(st, SegmentOf(toks).rest)
    decreases |toks|, 1
  {
    if Accepts(Star, toks[0]) || Accepts(StarStar, toks[0]) {
      if toks[0] == "/" { SlashOver(st, toks); } else { LexedOver(st, toks); }
    } else if Accepts(Lit, toks[0]) {
      LiteralIsPlain(st, toks[0]);
      LexedOver(st, toks);
    } else if st == InNested {
      NoVariableInVariable(toks);
    } else {
      VariableShape(toks);
    }
  }

  /** Inside a variable a "{" token is never followed by a name, so no variable starts there. */
  lemma NoVariableInVariable(toks: seq<string>)
    requires Lexed(InNested, toks) && Ends(toks) && toks[0] != "/"
    ensures VariableOf(toks) == Fail
  {
    if toks[0] == "{" {
      assert !IsSeparator(InNested, toks[0]);
      LexedOver(InNested, toks);
      assert !IsIdent(toks[1]);
    }
  }

  lemma {:induction false} VariableShape(toks: seq<string>)
    requires Lexed(InSegments, toks) && Ends(toks) && toks[0] != "/"
    ensures VariableOf(toks).Got? ==>
              && SegmentOk(VariableOf(toks).value)
              && Lexed(InSegments, VariableOf(toks).rest)
    decreases |toks|, 0
  {
    hide VariableOf, SegmentOk, Lexed, ComponentsOf, BodyOf;
    if VariableOf(toks).Got? {
      var comps, mid, body, close := VariableParts(toks);
      BraceOver(toks);
      ComponentsShape(toks[1..]);
      var st := BodyShape(mid);
      VariableIsOk(comps, body);
      CloseOver(st, close);
    }
  }

  lemma VariableParts(toks: seq<string>)
    returns (comps: seq<string>, mid: seq<string>, body: seq<Segment>, close: seq<string>)
    requires Ends(toks) && VariableOf(toks).Got?
    ensures Ends(toks[1..]) && ComponentsOf(toks[1..]) == Got(comps, mid)
    ensures BodyOf(mid) == Got(body, close)
    ensures toks[0] in ["{", "/"] && close[0] in ["}", "/"]
    ensures VariableOf(toks) == Got(Variable(Join(comps, "."), body), close[1..])
  {
    hide ComponentsOf, BodyOf;
    var c := ComponentsOf(toks[1..]);
    comps, mid := c.value, c.rest;
    var b := BodyOf(mid);
    body, close := b.value, b.rest;
  }

  lemma BraceOver(toks: seq<string>)
    requires Lexed(InSegments, toks) && Ends(toks) && toks[0] == "{"
    ensures Ends(toks[1..]) && Lexed(InField, toks[1..])
  {
    assert IsSeparator(InSegments, toks[0]);
    LexedOver(InSegments, toks);
  }

  lemma VariableIsOk(comps: seq<string>, body: seq<Segment>)
    requires |comps| > 0 && forall k :: 0 <= k < |comps| ==> IsIdent(comps[k])
    requires |body| > 0 && AllFlat(body)
    ensures SegmentOk(Variable(Join(comps, "."), body))
  {
    assert IsPathOf(comps, Join(comps, "."));
  }

  lemma CloseOver(st: LexState, toks: seq<string>)
    requires Lexed(st, toks) && Ends(toks) && st != InSegments && toks[0] == "}"
    ensures Lexed(InSegments, toks[1..])
  {
    assert IsSeparator(st, "}");
    LexedOver(st, toks);
  }

  lemma {:induction false} BodyShape(toks: seq<string>) returns (st: LexState)
    requires Lexed(InField, toks) && Ends(toks) && toks[0] != "/"
    ensures st != InSegments
    ensures BodyOf(toks).Got? ==>
              && |BodyOf(toks).value| > 0 && AllFlat(BodyOf(toks).value)
              && Lexed(st, BodyOf(toks).rest)
              && BodyOf(toks).rest[0] != "/"
    decreases |toks|, 3
  {
    if toks[0] == "=" {
      assert IsSeparator(InField, "=");
      LexedOver(InField, toks);
      st := InNested;
      SegmentsShape(InNested, toks[1..]);
    } else {
      st := InField;
    }
  }

  lemma {:induction false} ComponentsShape(toks: seq<string>)
    requires Lexed(InField, toks) && Ends(toks)
    ensures ComponentsOf(toks).Got? ==>
              && (forall k :: 0 <= k < |ComponentsOf(toks).value| ==> IsIdent(ComponentsOf(toks).value[k]))
              && Lexed(InField, ComponentsOf(toks).rest)
              && ComponentsOf(toks).rest[0] != "/"
    decreases |toks|
  {
    if Accepts(Ident, toks[0]) {
      var rest := toks[1..];
      NameOver(toks);
      hide ComponentsOf, Lexed, IsIdent;
      ComponentStep(toks[0], rest);
      assert toks == [toks[0]] + rest;
      if rest[0] == "." {
        DotOver(rest);
        ComponentsShape(rest[1..]);
      }
    }
  }

  lemma NameOver(toks: seq<string>)
    requires Lexed(InField, toks) && Ends(toks) && IsIdent(toks[0])
    ensures Ends(toks[1..]) && toks[1] != "/"
    ensures Lexed(InField, toks[1..])
  {
    assert !IsSeparator(InField, toks[0]);
    LexedOver(InField, toks);
    assert !IsSeparator(InField, "/");
  }

  lemma DotOver(toks: seq<string>)
    requires Lexed(InField, toks) && Ends(toks) && toks[0] == "."
    ensures Ends(toks[1..]) && Lexed(InField, toks[1..])
  {
    assert IsSeparator(InField, toks[0]);
    LexedOver(InField, toks);
  }

  lemma ComponentStep(name: string, rest: seq<string>)
    requires IsIdent(name) && Ends(rest) && rest[0] != "/"
    ensures ComponentsOf([name] + rest)
         == PrependNames([name], if rest[0] == "." then ComponentsOf(rest[1..]) else Got([], rest))
  {
    assert ([name] + rest)[1..] == rest;
  }
}
