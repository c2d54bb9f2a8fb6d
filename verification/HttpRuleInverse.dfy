/** Exactly when rendering what internal/httprule parsed gives the input back. */
module HttpRuleInverse {
  import opened Text
  import opened PathChars
  import opened Lexing
  import opened HttpRule
  import opened HttpRuleSound
  import opened HttpRuleShape
  import opened HttpRuleMade

  // ---- the last word of a template -------------------------------------------------------

  /** A character behind which the last segment or the verb starts. */
  predicate Opens(c: char) {
    c == '/' || c == '}'
  }

  predicate NoneOpens(w: string) {
    '/' !in w && '}' !in w
  }

  /** The position of the last "/" or "}". */
  function LastOpen(s: string): (k: int)
    ensures -1 <= k < |s|
    ensures k >= 0 ==> Opens(s[k])
  {
    if s == "" then -1
    else if Opens(s[|s| - 1]) then |s| - 1
    else LastOpen(s[..|s| - 1])
  }

  lemma {:induction false} LastOpenTail(s: string)
    ensures NoneOpens(s[LastOpen(s) + 1..])
    decreases |s|
  {
    if s != "" && !Opens(s[|s| - 1]) {
      LastOpenTail(s[..|s| - 1]);
      NoneOpensMore(s, LastOpen(s) + 1);
    }
  }

  lemma NoneOpensMore(s: string, k: nat)
    requires k < |s| && NoneOpens(s[..|s| - 1][k..]) && !Opens(s[|s| - 1])
    ensures NoneOpens(s[k..])
  {
    assert s[k..] == s[..|s| - 1][k..] + [s[|s| - 1]];
  }

  /** The input alone tells that a closing colon gets lost: it ends with one, and behind "}" it has nothing else. */
  predicate DropsColon(tmpl: string) {
    var k := LastOpen(tmpl);
    tmpl != "" && tmpl[|tmpl| - 1] == ':' && k >= 0 && (tmpl[k] == '}' ==> k + 2 == |tmpl|)
  }

  /** There is one way only to cut a string at its last "/" or "}". */
  lemma LastOpenUnique(a: string, c: char, w: string, b: string, d: char, v: string)
    requires Opens(c) && Opens(d) && NoneOpens(w) && NoneOpens(v) && a + [c] + w == b + [d] + v
    ensures c == d && w == v
  {
    NotBehind(a, c, w, b, d, v);
    NotBehind(b, d, v, a, c, w);
    assert (a + [c] + w)[|a|] == c && (b + [d] + v)[|a|] == d;
    assert (a + [c] + w)[|a| + 1..] == w && (b + [d] + v)[|a| + 1..] == v;
  }

  lemma NotBehind(a: string, c: char, w: string, b: string, d: char, v: string)
    requires Opens(d) && NoneOpens(w) && a + [c] + w == b + [d] + v
    ensures |b| <= |a|
  {
    var s := a + [c] + w;
    assert forall k :: |a| < k < |s| ==> s[k] == w[k - |a| - 1] && !Opens(s[k]);
    assert (b + [d] + v)[|b|] == d;
  }

  // ---- it is the same in the expanded input ---------------------------------------------

  lemma {:induction false} ExpandedTail(st: LexState, w: string)
    requires NoneOpens(w)
    ensures Expanded(st, w) == w
    decreases |w|
  {
    if w != "" {
      assert w == [w[0]] + w[1..];
      hide Separators, Next;
      ExpandedTail(if w[0] in Separators(st) then Next(st, w[0]) else st, w[1..]);
    }
  }

  lemma {:induction false} ExpandedEnd(st: LexState, a: string, c: char, w: string) returns (x: string)
    requires Opens(c) && NoneOpens(w)
    ensures Expanded(st, a + ([c] + w)) == x + [c] + w
    decreases |a|
  {
    hide *;
    var path := a + ([c] + w);
    ExpandedUnfold(st, path);
    if a == "" {
      assert path == [c] + w && path[1..] == w;
      x := ExpandedFirst(st, c, w);
    } else {
      assert path[0] == a[0] && path[1..] == a[1..] + ([c] + w);
      var st' := if st == InField && path[0] == '}' then InSegments else if path[0] in Separators(st) then Next(st, path[0]) else st;
      var y := ExpandedEnd(st', a[1..], c, w);
      var head := if st == InField && path[0] == '}' then "=*}" else [path[0]];
      x := head + y;
      assert head + (y + [c] + w) == x + [c] + w;
    }
  }

  lemma ExpandedFirst(st: LexState, c: char, w: string) returns (x: string)
    requires Opens(c) && NoneOpens(w)
    ensures Expanded(st, [c] + w) == x + [c] + w
  {
    hide *;
    var path := [c] + w;
    assert path[0] == c && path[1..] == w;
    ExpandedUnfold(st, path);
    var close := st == InField && c == '}';
    ExpandedTail(if close then InSegments else if c in Separators(st) then Next(st, c) else st, w);
    x := if close then "=*" else "";
    assert "=*}" + w == "=*" + ['}'] + w && [c] + w == "" + [c] + w;
  }

  lemma InputEnd(tmpl: string, k: nat) returns (x: string)
    requires tmpl != "" && tmpl[0] == '/' && k == LastOpen(tmpl)
    ensures Input(tmpl) == x + [tmpl[k]] + tmpl[k + 1..]
  {
    hide Expanded, LastOpen;
    LastOpenTail(tmpl);
    var path := tmpl[1..];
    if k == 0 {
      ExpandedTail(InSegments, path);
      x := "";
    } else {
      var y := ExpandedEnd(InSegments, tmpl[1..k], tmpl[k], tmpl[k + 1..]);
      assert path == tmpl[1..k] + ([tmpl[k]] + tmpl[k + 1..]);
      x := "/" + y;
    }
  }

  // ---- and in the rendered template -----------------------------------------------------

  /** What the last segment shows behind the last "/" or "}". */
  function LastWord(s: Segment): string {
    if s.Variable? then "" else Show(s)
  }

  function LastOpener(s: Segment): char {
    if s.Variable? then '}' else '/'
  }

  lemma {:induction false} ShownEnd(ss: seq<Segment>) returns (x: string)
    requires ss != []
    ensures var s := ss[|ss| - 1]; "/" + ShowAll(ss) == x + [LastOpener(s)] + LastWord(s)
    decreases |ss|
  {
    hide *;
    ShowRest(ss);
    if |ss| == 1 {
      x := SegmentEnd(ss[0]);
    } else {
      var s := ss[|ss| - 1];
      var y := ShownEnd(ss[1..]);
      x := "/" + Show(ss[0]) + y;
      assert "/" + (Show(ss[0]) + "/" + ShowAll(ss[1..])) == "/" + Show(ss[0]) + ("/" + ShowAll(ss[1..]));
      Regrouped("/" + Show(ss[0]), y, [LastOpener(s)], LastWord(s));
    }
  }

  lemma Regrouped(a: string, b: string, c: string, d: string)
    ensures a + (b + c + d) == a + b + c + d
  {
  }

  lemma ShowRest(ss: seq<Segment>)
    requires ss != []
    ensures |ss| == 1 ==> ShowAll(ss) == Show(ss[0])
    ensures |ss| > 1 ==> ShowAll(ss) == Show(ss[0]) + "/" + ShowAll(ss[1..])
  {
    hide Show;
  }

  lemma SegmentEnd(s: Segment) returns (x: string)
    ensures "/" + Show(s) == x + [LastOpener(s)] + LastWord(s)
  {
    if s.Variable? {
      hide ShowAll, Join;
      var body := "{" + Join(s.fieldPath, ".") + "=" + ShowAll(s.segments);
      x := "/" + body;
      assert "/" + (body + "}") == x + ['}'] + "";
    } else {
      x := "";
    }
  }

  lemma LastWordNoneOpens(s: Segment)
    requires Shape(s)
    ensures NoneOpens(LastWord(s))
  {
    if s.Literal? { PCharsNoneOpens(s.lit); }
  }

  lemma PCharsNoneOpens(t: string)
    requires IsPChars(t)
    ensures NoneOpens(t)
  {
    PCharsAvoid(t, "/}");
    assert forall k :: 0 <= k < |t| && Opens(t[k]) ==> t[k] in "/}";
  }

  // ---- the condition --------------------------------------------------------------------

  /** What stands behind the rendered segments. */
  function Behind(verb: string, dropped: bool): string {
    if verb == "" then (if dropped then ":" else "") else ":" + verb
  }

  /** The input and the rendered template end alike. */
  lemma SameEnd(tmpl: string)
    requires ParseOf(tmpl).Some? && '\0' !in tmpl
    ensures var t := ParseOf(tmpl).value;
            var k := LastOpen(tmpl);
            && k >= 0 && t.segments != [] && VerbBehind(t.segments, t.verb)
            && var last := t.segments[|t.segments| - 1];
               tmpl[k] == LastOpener(last) && tmpl[k + 1..] == LastWord(last) + Behind(t.verb, ColonDropped(tmpl, t))
  {
    hide *;
    var t := ParseOf(tmpl).value;
    Slashed(tmpl);
    LastOpenTail(tmpl);
    var k := LastOpen(tmpl);
    var _ := ParsedSegments(tmpl);
    LastShaped(t.segments, t.verb);
    var last := t.segments[|t.segments| - 1];
    var tail := Behind(t.verb, ColonDropped(tmpl, t));
    Rendered(tmpl);
    DroppedNoVerb(tmpl, t);
    ShownParts(t.segments, t.verb, ColonDropped(tmpl, t));
    var x := InputEnd(tmpl, k);
    var y := ShownEnd(t.segments);
    LastWordNoneOpens(last);
    TailNoneOpens(t.verb, LastWord(last), ColonDropped(tmpl, t));
    assert y + [LastOpener(last)] + LastWord(last) + tail == y + [LastOpener(last)] + (LastWord(last) + tail);
    OpenerOpens(last);
    LastOpenUnique(x, tmpl[k], tmpl[k + 1..], y, LastOpener(last), LastWord(last) + tail);
  }

  lemma Slashed(tmpl: string)
    requires ParseOf(tmpl).Some?
    ensures tmpl != "" && tmpl[0] == '/' && LastOpen(tmpl) >= 0
  {
    hide TemplateOf, Tokens, LastOpen;
    LastOpenTail(tmpl);
    assert tmpl[0..] == tmpl;
  }

  lemma LastShaped(ss: seq<Segment>, verb: string)
    requires AllShape(ss) && VerbBehind(ss, verb)
    ensures ss != [] && Shape(ss[|ss| - 1]) && IsPChars(verb)
  {
    hide Shape, IsPChars;
  }

  lemma DroppedNoVerb(tmpl: string, t: Template)
    requires tmpl != ""
    ensures ColonDropped(tmpl, t) ==> t.verb == ""
  {
  }

  lemma ShownParts(ss: seq<Segment>, verb: string, dropped: bool)
    requires dropped ==> verb == ""
    ensures ShowTemplate(ss, verb) + (if dropped then ":" else "") == "/" + ShowAll(ss) + Behind(verb, dropped)
  {
    hide ShowAll;
  }

  lemma TailNoneOpens(verb: string, w: string, dropped: bool)
    requires IsPChars(verb) && NoneOpens(w)
    ensures NoneOpens(w + Behind(verb, dropped))
  {
    PCharsNoneOpens(verb);
    hide IsPChars;
  }

  lemma OpenerOpens(s: Segment)
    ensures Opens(LastOpener(s))
  {
  }

  /** A closing colon is dropped just when the input alone says so. */
  lemma DroppedIff(tmpl: string)
    requires ParseOf(tmpl).Some? && '\0' !in tmpl
    ensures ColonDropped(tmpl, ParseOf(tmpl).value) <==> DropsColon(tmpl)
  {
    hide *;
    var t := ParseOf(tmpl).value;
    SameEnd(tmpl);
    var k := LastOpen(tmpl);
    var last := t.segments[|t.segments| - 1];
    DropsParts(tmpl, k);
    EndDecides(tmpl, t, k, last);
  }

  lemma DropsParts(tmpl: string, k: int)
    requires k == LastOpen(tmpl) >= 0
    ensures DropsColon(tmpl) <==> tmpl[|tmpl| - 1] == ':' && (tmpl[k] == '}' ==> k + 2 == |tmpl|)
  {
    hide LastOpen;
  }

  lemma EndDecides(tmpl: string, t: Template, k: nat, last: Segment)
    requires k < |tmpl| && t.segments != [] && last == t.segments[|t.segments| - 1] && VerbBehind(t.segments, t.verb)
    requires tmpl[k] == LastOpener(last) && tmpl[k + 1..] == LastWord(last) + Behind(t.verb, ColonDropped(tmpl, t))
    ensures ColonDropped(tmpl, t) <==> tmpl[|tmpl| - 1] == ':' && (tmpl[k] == '}' ==> k + 2 == |tmpl|)
  {
    hide IsPChars, Show, ShowAll;
    var w := tmpl[k + 1..];
    assert w != "" ==> tmpl[|tmpl| - 1] == w[|w| - 1];
    if last.Variable? {
      assert w == Behind(t.verb, ColonDropped(tmpl, t));
    } else if t.verb != "" {
      assert w[|w| - 1] == t.verb[|t.verb| - 1];
    }
  }

  // ---- NUL -------------------------------------------------------------------------------

  /** Expanding drops no character. */
  lemma {:induction false} ExpandedKeeps(st: LexState, path: string, c: char)
    requires c in path
    ensures c in Expanded(st, path)
    decreases |path|
  {
    hide *;
    ExpandedUnfold(st, path);
    var st' := if st == InField && path[0] == '}' then InSegments else if path[0] in Separators(st) then Next(st, path[0]) else st;
    assert path == [path[0]] + path[1..];
    if c in path[1..] {
      ExpandedKeeps(st', path[1..], c);
    } else if st == InField && path[0] == '}' {
      assert "=*}"[2] == '}' && c == '}';
    }
  }

  lemma FlatNoNul(s: Segment)
    requires FlatShape(s)
    ensures '\0' !in Show(s)
  {
    if s.Literal? { PCharsNoNul(s.lit); }
  }

  lemma PCharsNoNul(t: string)
    requires IsPChars(t)
    ensures '\0' !in t
  {
    PCharsAvoid(t, "\0");
    assert forall k :: 0 <= k < |t| && t[k] == '\0' ==> t[k] in "\0";
  }

  lemma {:induction false} JoinNoNul(names: seq<string>)
    requires AllIdents(names)
    ensures '\0' !in Join(names, ".")
    decreases |names|
  {
    if names != [] {
      IdentNoNul(names[0]);
      assert AllIdents(names[1..]);
      hide IsIdent;
      JoinNoNul(names[1..]);
    }
  }

  lemma IdentNoNul(t: string)
    requires IsIdent(t)
    ensures '\0' !in t
  {
    assert forall k :: 0 <= k < |t| ==> IsIdentChar(t[k]);
  }

  lemma {:induction false} FlatsNoNul(ss: seq<Segment>)
    requires AllFlat(ss)
    ensures '\0' !in ShowAll(ss)
    decreases |ss|
  {
    if ss != [] {
      FlatNoNul(ss[0]);
      assert AllFlat(ss[1..]);
      hide FlatShape, Show;
      FlatsNoNul(ss[1..]);
    }
  }

  lemma SegmentNoNul(s: Segment)
    requires Shape(s)
    ensures '\0' !in Show(s)
  {
    if s.Variable? {
      JoinNoNul(s.fieldPath);
      FlatsNoNul(s.segments);
      hide Shape, ShowAll, Join;
      assert Show(s) == "{" + Join(s.fieldPath, ".") + "=" + ShowAll(s.segments) + "}";
    } else {
      FlatNoNul(s);
    }
  }

  lemma {:induction false} ShownNoNul(ss: seq<Segment>)
    requires AllShape(ss)
    ensures '\0' !in ShowAll(ss)
    decreases |ss|
  {
    if ss != [] {
      SegmentNoNul(ss[0]);
      assert AllShape(ss[1..]);
      hide Shape, Show;
      ShownNoNul(ss[1..]);
    }
  }

  /** No parsed template is rendered with a NUL. */
  lemma RenderedNoNul(tmpl: string)
    requires ParseOf(tmpl).Some?
    ensures var t := ParseOf(tmpl).value; '\0' !in ShowTemplate(t.segments, t.verb)
  {
    hide *;
    var t := ParseOf(tmpl).value;
    var _ := ParsedSegments(tmpl);
    ShownNoNul(t.segments);
    PCharsNoNul(t.verb);
    TemplateNoNul(t.segments, t.verb);
  }

  lemma TemplateNoNul(ss: seq<Segment>, verb: string)
    requires '\0' !in ShowAll(ss) && '\0' !in verb
    ensures '\0' !in ShowTemplate(ss, verb)
  {
    hide ShowAll;
  }

  lemma InputKeepsNul(tmpl: string)
    requires tmpl != "" && tmpl[0] == '/' && '\0' in tmpl
    ensures '\0' in Input(tmpl)
  {
    hide Expanded;
    assert tmpl == ['/'] + tmpl[1..];
    ExpandedKeeps(InSegments, tmpl[1..], '\0');
  }

  /** The parser takes NUL for its end marker: a parsed template, with a dropped colon put back, renders as its input if
      and only if the input has no NUL. */
  lemma RenderedUpToColon(tmpl: string)
    requires ParseOf(tmpl).Some?
    ensures var t := ParseOf(tmpl).value;
            Input(tmpl) == ShowTemplate(t.segments, t.verb) + (if ColonDropped(tmpl, t) then ":" else "") <==> '\0' !in tmpl
  {
    hide *;
    Slashed(tmpl);
    if '\0' in tmpl {
      InputKeepsNul(tmpl);
      RenderedNoNul(tmpl);
    } else {
      Rendered(tmpl);
    }
  }

  /** For every input that parses: rendering gives the input back if and only if it has no NUL and does not end with a
      colon that gets lost; behind a literal any closing colon is lost, behind a variable only one that stands alone. */
  lemma RenderedIff(tmpl: string)
    requires ParseOf(tmpl).Some?
    ensures var t := ParseOf(tmpl).value;
            Input(tmpl) == ShowTemplate(t.segments, t.verb) <==> '\0' !in tmpl && !DropsColon(tmpl)
  {
    hide *;
    Slashed(tmpl);
    var t := ParseOf(tmpl).value;
    var shown := ShowTemplate(t.segments, t.verb);
    if '\0' in tmpl {
      InputKeepsNul(tmpl);
      RenderedNoNul(tmpl);
    } else {
      Rendered(tmpl);
      DroppedIff(tmpl);
      assert shown + "" == shown;
      assert |shown + ":"| == |shown| + 1;
    }
  }

  /** "/\0" is the root template. */
  lemma NulIsRoot()
    ensures ParseOf("/\0") == Some(Template("/\0", [Literal("")], "")) && ShowTemplate([Literal("")], "") == "/"
    ensures Input("/\0") == "/\0"
  {
    hide Tokens;
    assert "/\0"[1..] == EOF;
    TokensLast(InSegments, EOF);
    assert [EOF] + [EOF] == [EOF, EOF];
    ExpandedTail(InSegments, EOF);
  }

  // ---- inputs that lose their colon -----------------------------------------------------

  /** "/a:" is rendered "/a", and "/{a}:", read as "/{a=*}:", is rendered "/{a=*}". */
  lemma ColonsLost()
    ensures ParseOf("/a:") == Some(Template("/a:", [Literal("a")], "")) && Input("/a:") == "/a:"
    ensures ShowTemplate([Literal("a")], "") == "/a" && DropsColon("/a:")
    ensures ParseOf("/{a}:") == Some(Template("/{a}:", [Variable(["a"], [Wildcard])], "")) && Input("/{a}:") == "/{a=*}:"
    ensures ShowTemplate([Variable(["a"], [Wildcard])], "") == "/{a=*}" && DropsColon("/{a}:")
  {
    hide *;
    LiteralColon();
    LiteralDecoyParses(0, "a", "");
    PlainVariableParses();
    VariableColon();
  }

  lemma LiteralColon()
    ensures IsPChars("a") && IsPChars("") && ':' !in "" && LiteralText(0, "a", "") == "/a:"
    ensures LiteralDecoy(0, "a", "") == Template("/a:", [Literal("a")], "")
    ensures Input("/a:") == "/a:" && ShowTemplate([Literal("a")], "") == "/a" && DropsColon("/a:")
  {
    hide Expanded, IsPChars;
    SmallPChars();
    assert "/a:"[1..] == "a:" && "/a:"[..2] == "/a" && "/a"[..1] == "/";
    assert LastOpen("/a:") == 0;
    ExpandedTail(InSegments, "a:");
  }

  lemma SmallPChars()
    ensures IsPChars("a") && IsPChars("")
  {
  }

  lemma VariableColon()
    ensures PLAIN_VARIABLE == "/{a}:" && Input("/{a}:") == "/{a=*}:"
    ensures ShowTemplate([Variable(["a"], [Wildcard])], "") == "/{a=*}" && DropsColon("/{a}:")
  {
    hide Expanded;
    assert "/{a}:"[1..] == "{a}:";
    VariableExpanded();
  }

  lemma VariableExpanded()
    ensures Expanded(InSegments, "{a}:") == "{a=*}:"
  {
    hide *;
    Separates();
    ExpandedSeparator(InSegments, '{', "a}:");
    ExpandedSeparator(InField, '}', ":");
    ExpandedWord(InField, "a", "}:");
    ExpandedTail(InSegments, ":");
    assert ['{'] + "a}:" == "{a}:" && ['}'] + ":" == "}:" && "a" + "}:" == "a}:";
    assert ['{'] + ("a" + ("=*}" + ":")) == "{a=*}:";
  }

  lemma Separates()
    ensures '{' in Separators(InSegments) && '}' in Separators(InField) && !Has("a", Separators(InField)) && NoneOpens(":")
    ensures Next(InSegments, '{') == InField && Next(InField, '}') == InSegments
  {
  }
}
