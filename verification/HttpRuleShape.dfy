/** The shape of what the parser of internal/httprule makes. */
module HttpRuleShape {
  import opened Text
  import opened PathChars
  import opened Lexing
  import opened HttpRule
  import opened HttpRuleSound

  predicate FlatShape(s: Segment) {
    !s.Variable? && (s.Literal? ==> IsPChars(s.lit))
  }

  predicate AllFlat(ss: seq<Segment>) {
    forall k :: 0 <= k < |ss| ==> FlatShape(ss[k])
  }

  predicate AllIdents(names: seq<string>) {
    forall k :: 0 <= k < |names| ==> IsIdent(names[k])
  }

  /** No variable inside a variable, pchars only inside a literal, and identifiers only in a field path. */
  predicate Shape(s: Segment) {
    || FlatShape(s)
    || (s.Variable? && AllIdents(s.fieldPath) && MultiLast(s.segments, HasMulti(s)) && AllFlat(s.segments))
  }

  predicate AllShape(ss: seq<Segment>) {
    forall k :: 0 <= k < |ss| ==> Shape(ss[k])
  }

  lemma NoSlashInPChars(t: string)
    requires IsPChars(t)
    ensures '/' !in t
  {
    PCharsAvoid(t, "/");
    assert forall k :: 0 <= k < |t| && t[k] == '/' ==> t[k] in "/";
  }

  /** Cut at a colon, a string of pchars falls into two. */
  lemma {:induction false} PCharsCut(a: string, b: string)
    ensures IsPChars(a + [':'] + b) <==> IsPChars(a) && IsPChars(b)
    decreases |a|
  {
    var s := a + [':'] + b;
    if a == "" {
      assert s[1..] == b;
    } else {
      assert s[1..] == a[1..] + [':'] + b;
      PCharsCut(a[1..], b);
      if |a| >= 3 {
        assert s[3..] == a[3..] + [':'] + b;
        PCharsCut(a[3..], b);
      }
    }
  }

  lemma OkIsShape(s: Segment)
    requires SegmentOk(s)
    ensures Shape(s)
  {
    hide IsPChars, IsIdent, MultiLast;
  }

  /** The verb comes off without changing the shape. */
  lemma CutShape(ss: seq<Segment>, multi: bool, rest: seq<string>)
    requires ss != [] && Ends(rest) && AllShape(ss) && MultiLast(ss, multi) && CutVerb(ss, rest).Some?
    ensures var cut := CutVerb(ss, rest).value;
            AllShape(cut.segments) && MultiLast(cut.segments, multi) && IsPChars(cut.verb)
  {
    hide *;
    EmptyIsPChars();
    if ss[|ss| - 1].Literal? {
      CutAt(ss, rest);
      LastShape(ss, multi);
      var lit := ss[|ss| - 1].lit;
      var idx := LastIndex(lit, ':');
      CutOff(lit);
      if idx != -1 { OtherLast(ss, multi, Literal(lit[..idx])); }
    } else {
      CutToken(ss, rest);
    }
  }

  lemma CutToken(ss: seq<Segment>, rest: seq<string>)
    requires ss != [] && Ends(rest) && !ss[|ss| - 1].Literal? && CutVerb(ss, rest).Some?
    ensures CutVerb(ss, rest).value.segments == ss && IsPChars(CutVerb(ss, rest).value.verb)
  {
    hide IsPChars;
    EmptyIsPChars();
    if ss[|ss| - 1].Variable? && rest[0] != EOF {
      BehindColon(rest[0]);
    }
  }

  lemma LastShape(ss: seq<Segment>, multi: bool)
    requires AllShape(ss) && MultiLast(ss, multi) && ss[|ss| - 1].Literal?
    ensures IsPChars(ss[|ss| - 1].lit) && !multi
  {
    hide IsPChars;
    assert Shape(ss[|ss| - 1]);
  }

  lemma OtherLast(ss: seq<Segment>, multi: bool, s: Segment)
    requires AllShape(ss) && MultiLast(ss, multi) && !multi && s.Literal? && IsPChars(s.lit)
    ensures var cut := ss[|ss| - 1 := s]; AllShape(cut) && MultiLast(cut, multi)
  {
    hide IsPChars;
  }

  lemma EmptyIsPChars()
    ensures IsPChars("")
  {
  }

  lemma CutOff(lit: string)
    requires IsPChars(lit)
    ensures var idx := LastIndex(lit, ':'); idx >= 0 ==> IsPChars(lit[..idx]) && IsPChars(lit[idx + 1..])
  {
    hide IsPChars;
    var idx := LastIndex(lit, ':');
    if idx >= 0 {
      assert lit == lit[..idx] + [':'] + lit[idx + 1..];
      PCharsCut(lit[..idx], lit[idx + 1..]);
    }
  }

  lemma BehindColon(t: string)
    requires IsPChars(t) && t != "" && t[0] == ':'
    ensures IsPChars(t[1..])
  {
  }

  /** The verb has no colon unless a variable stands before it. */
  predicate VerbBehind(ss: seq<Segment>, verb: string) {
    ss != [] && IsPChars(verb) && (!ss[|ss| - 1].Variable? ==> ':' !in verb)
  }

  lemma CutBehind(ss: seq<Segment>, rest: seq<string>)
    requires ss != [] && Ends(rest) && CutVerb(ss, rest).Some? && IsPChars(CutVerb(ss, rest).value.verb)
    ensures VerbBehind(CutVerb(ss, rest).value.segments, CutVerb(ss, rest).value.verb)
  {
    hide IsPChars;
  }

  /** Parsed templates have no variable inside a variable, take more than one component at their very end only, and
      have only pchars in literals and verb. */
  lemma ParsedSegments(tmpl: string) returns (multi: bool)
    requires ParseOf(tmpl).Some?
    ensures var t := ParseOf(tmpl).value;
            AllShape(t.segments) && MultiLast(t.segments, multi) && VerbBehind(t.segments, t.verb) && IsPChars(t.verb)
  {
    var toks := Tokens(InSegments, tmpl[1..]) + [EOF];
    TokensLexed(InSegments, tmpl[1..]);
    hide Tokens, Lexed, SegmentsOf, CutVerb, MultiLast, Shape, SegmentOk, Sound, ShowAll, VerbBehind, IsPChars;
    if toks[0] == EOF {
      RootTemplate(tmpl, toks);
      RootShape();
      multi := false;
    } else {
      var run, rest, cut := TemplateParts(tmpl, toks);
      SegmentsSound(InSegments, toks);
      forall k | 0 <= k < |run.segments| ensures Shape(run.segments[k]) {
        OkIsShape(run.segments[k]);
      }
      CutShape(run.segments, run.multi, rest);
      CutBehind(run.segments, rest);
      multi := run.multi;
    }
  }

  lemma RootShape()
    ensures IsPChars("") && AllShape([Literal("")]) && MultiLast([Literal("")], false) && VerbBehind([Literal("")], "")
  {
  }
}
