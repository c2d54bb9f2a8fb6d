/** The dotted field path of a variable, split into its tokens. Both path-template front ends split it alike. */
module FieldPaths {
  import opened Text
  import opened PathChars
  import opened Lexing

  function PathTokens(comps: seq<string>): seq<string> {
    if |comps| <= 1 then comps else [comps[0], "."] + PathTokens(comps[1..])
  }

  lemma IdentIsWord(t: string)
    requires IsIdent(t)
    ensures !Has(t, Separators(InField))
  {
  }

  lemma FirstComponent(comps: seq<string>, path: string)
    requires IsPathOf(comps, path)
    ensures |comps| > 0 && comps[0] != "" && !Has(comps[0], Separators(InField))
    ensures '=' in Separators(InField) && '.' in Separators(InField) && Next(InField, '=') == InNested && Next(InField, '.') == InField
    ensures |comps| == 1 ==> path == comps[0] && PathTokens(comps) == [comps[0]]
    ensures |comps| > 1 ==>
              var path' := Join(comps[1..], ".");
              && IsPathOf(comps[1..], path') && path == comps[0] + "." + path'
              && PathTokens(comps) == [comps[0], "."] + PathTokens(comps[1..])
  {
    hide *;
    PathParts(comps, path);
    IdentIsWord(comps[0]);
    IdentNotEmpty(comps[0]);
    FieldSeparators();
    TokensParts(comps);
  }

  lemma PathParts(comps: seq<string>, path: string)
    requires IsPathOf(comps, path)
    ensures |comps| > 0 && IsIdent(comps[0]) && (|comps| == 1 ==> path == comps[0])
    ensures |comps| > 1 ==> var path' := Join(comps[1..], "."); IsPathOf(comps[1..], path') && path == comps[0] + "." + path'
  {
    hide IsIdent;
  }

  lemma FieldSeparators()
    ensures '=' in Separators(InField) && '.' in Separators(InField) && Next(InField, '=') == InNested && Next(InField, '.') == InField
  {
  }

  lemma TokensParts(comps: seq<string>)
    requires |comps| > 0
    ensures |comps| == 1 ==> PathTokens(comps) == [comps[0]]
    ensures |comps| > 1 ==> PathTokens(comps) == [comps[0], "."] + PathTokens(comps[1..])
  {
  }

  lemma IdentNotEmpty(t: string)
    requires IsIdent(t)
    ensures t != ""
  {
  }

  /** A path before the "=" or the "}" that ends it. */
  lemma {:induction false} LexPath(comps: seq<string>, path: string, end: char, rest: string)
    requires IsPathOf(comps, path) && end in "=}"
    ensures Tokens(InField, path + [end] + rest) == PathTokens(comps) + [[end]] + Tokens(Next(InField, end), rest)
    decreases |comps|
  {
    hide *;
    FirstComponent(comps, path);
    FieldEnd(end);
    if |comps| == 1 {
      TokensStep(InField, comps[0], end, rest);
    } else {
      var path' := Join(comps[1..], ".");
      var left := path' + [end] + rest;
      LexPath(comps[1..], path', end, rest);
      assert path + [end] + rest == comps[0] + ['.'] + left;
      RegroupWord(comps[0], ".", PathTokens(comps[1..]), [[end]] + Tokens(Next(InField, end), rest));
      TokensStep(InField, comps[0], '.', left);
      assert Tokens(InField, path + [end] + rest) == [comps[0], "."] + Tokens(InField, left);
    }
  }

  lemma FieldEnd(end: char)
    requires end in "=}"
    ensures end in Separators(InField)
  {
  }

  lemma RegroupWord(a: string, sep: string, b: seq<string>, c: seq<string>)
    ensures [a, sep] + b + c == [a] + ([sep] + (b + c))
    ensures [a, sep] + (b + c) == [a, sep] + b + c
  {
  }
}
