/** The three-state splitter shared by both path-template front ends. */
module Lexing {
  import opened Text
  import opened PathChars

  const EOF := "\0"

  datatype LexState = InSegments | InField | InNested

  /** The separators looked for in each state. */
  function Separators(st: LexState): string {
    match st
    case InSegments => "/{"
    case InField => ".=}"
    case InNested => "/}"
  }

  function Next(st: LexState, c: char): LexState {
    match c
    case '{' => InField
    case '=' => InNested
    case '}' => InSegments
    case _ => st
  }

  /** The tokens of `path`, without the final end marker. */
  function Tokens(st: LexState, path: string): seq<string>
    decreases |path|
  {
    if path == "" then []
    else
      var idx := IndexAny(path, Separators(st));
      if idx < 0 then [path]
      else Piece(path, idx) + Tokens(Next(st, path[idx]), path[idx + 1..])
  }

  /** What one iteration of either tokenizer appends for a separator at `idx`. */
  function Piece(path: string, idx: nat): seq<string>
    requires idx < |path|
  {
    if idx == 0 then [path[..1]] else [path[..idx], path[idx..idx + 1]]
  }

  /** A token that is one separator of the state. */
  predicate IsSeparator(st: LexState, t: string) {
    |t| == 1 && t[0] in Separators(st)
  }

  /** A non-empty token without separators of the state. */
  predicate IsPlain(st: LexState, t: string) {
    t != "" && !Has(t, Separators(st))
  }

  /** The shape of every token list: plain tokens are followed by a separator or by the end marker. */
  predicate Lexed(st: LexState, toks: seq<string>)
    decreases |toks|
  {
    && |toks| >= 1
    && if |toks| == 1 then toks[0] == EOF
       else if IsSeparator(st, toks[0]) then Lexed(Next(st, toks[0][0]), toks[1..])
       else
         && IsPlain(st, toks[0])
         && Lexed(st, toks[1..])
         && (|toks| == 2 || IsSeparator(st, toks[1]))
  }

  /** The tail of a token list is a token list of the next state. */
  lemma LexedOver(st: LexState, toks: seq<string>)
    requires Lexed(st, toks) && |toks| > 1
    ensures Lexed(if IsSeparator(st, toks[0]) then Next(st, toks[0][0]) else st, toks[1..])
    ensures !IsSeparator(st, toks[0]) ==> (toks[1] == EOF && |toks| == 2) || IsSeparator(st, toks[1])
  {
    if |toks| == 2 && !IsSeparator(st, toks[0]) {
      assert toks[1..] == [toks[1]];
    }
  }

  /** A pchar string holds no separator of the two segment states, nor the end marker. */
  lemma LiteralIsPlain(st: LexState, t: string)
    requires IsPChars(t) && st != InField
    ensures !IsSeparator(st, t)
    ensures t != EOF
  {
    PCharsAvoid(t, Separators(st));
    PCharsAvoid(t, EOF);
    assert IsSeparator(st, t) ==> Has(t, Separators(st));
    assert t == EOF ==> Has(t, EOF);
  }

  /** A token list ready for a parser: the end marker is last. */
  predicate Ends(toks: seq<string>) {
    |toks| > 0 && toks[|toks| - 1] == EOF
  }

  lemma LexedEnds(st: LexState, toks: seq<string>)
    requires Lexed(st, toks)
    ensures Ends(toks)
    decreases |toks|
  {
    if |toks| > 1 {
      LexedEnds(if IsSeparator(st, toks[0]) then Next(st, toks[0][0]) else st, toks[1..]);
      assert toks[|toks| - 1] == toks[1..][|toks| - 2];
    }
  }

  /** Splitting loses nothing. */
  lemma {:induction false} TokensConcat(st: LexState, path: string)
    ensures Concat(Tokens(st, path)) == path
    decreases |path|
  {
    if path != "" {
      var idx := IndexAny(path, Separators(st));
      if idx < 0 {
        assert Concat([path]) == path + Concat([]);
      } else {
        var rest := Tokens(Next(st, path[idx]), path[idx + 1..]);
        TokensConcat(Next(st, path[idx]), path[idx + 1..]);
        PieceConcat(path, idx);
        assert Tokens(st, path) == Piece(path, idx) + rest;
        hide Tokens, Piece;
        ConcatAppend(Piece(path, idx), rest);
      }
    }
  }

  predicate NoneEmpty(toks: seq<string>) {
    forall k :: 0 <= k < |toks| ==> toks[k] != ""
  }

  /** No token is empty. */
  lemma {:induction false} TokensNonEmpty(st: LexState, path: string)
    ensures NoneEmpty(Tokens(st, path))
    decreases |path|
  {
    hide *;
    TokensUnfold(st, path);
    if path == "" {
      NoneEmptyLast(path);
    } else {
      var idx := IndexAny(path, Separators(st));
      if idx >= 0 {
        TokensNonEmpty(Next(st, path[idx]), path[idx + 1..]);
        PieceNonEmpty(path, idx, Tokens(Next(st, path[idx]), path[idx + 1..]));
      } else {
        NoneEmptyLast(path);
      }
    }
  }

  lemma NoneEmptyLast(path: string)
    ensures NoneEmpty([]) && (path != "" ==> NoneEmpty([path]))
  {
  }

  lemma PieceNonEmpty(path: string, idx: nat, rest: seq<string>)
    requires idx < |path| && NoneEmpty(rest)
    ensures NoneEmpty(Piece(path, idx) + rest)
  {
  }

  /** Every token list has the shape `Lexed` describes. */
  lemma {:induction false} TokensLexed(st: LexState, path: string)
    ensures Lexed(st, Tokens(st, path) + [EOF])
    decreases |path|
  {
    hide *;
    TokensUnfold(st, path);
    if path == "" {
      EndLexed(st);
    } else {
      var idx := IndexAny(path, Separators(st));
      if idx < 0 {
        WordLexed(st, path);
      } else {
        var rest := Tokens(Next(st, path[idx]), path[idx + 1..]);
        TokensLexed(Next(st, path[idx]), path[idx + 1..]);
        PieceLexed(st, path, idx, rest + [EOF]);
        assert Piece(path, idx) + rest + [EOF] == Piece(path, idx) + (rest + [EOF]);
      }
    }
  }

  lemma EndLexed(st: LexState)
    ensures Lexed(st, [] + [EOF])
  {
    assert [] + [EOF] == [EOF];
  }

  lemma WordLexed(st: LexState, w: string)
    requires w != "" && !Has(w, Separators(st))
    ensures Lexed(st, [w] + [EOF])
  {
    PlainIsNoSeparator(st, w);
    hide Has, Separators;
    assert [w] + [EOF] == [w, EOF];
    assert [w, EOF][1..] == [EOF];
  }

  lemma PlainIsNoSeparator(st: LexState, w: string)
    requires IsPlain(st, w)
    ensures !IsSeparator(st, w)
  {
    assert |w| == 1 && w[0] in Separators(st) ==> Has(w, Separators(st));
  }

  lemma PieceConcat(path: string, idx: nat)
    requires idx < |path|
    ensures Concat(Piece(path, idx)) + path[idx + 1..] == path
  {
    var sep := path[idx..idx + 1];
    assert Concat([sep]) == sep + Concat([]) == sep;
    if idx > 0 {
      assert [path[..idx], sep][1..] == [sep];
      assert Concat([path[..idx], sep]) == path[..idx] + sep;
    }
  }

  lemma PieceLexed(st: LexState, path: string, idx: nat, rest: seq<string>)
    requires idx < |path| && path[idx] in Separators(st) && !Has(path[..idx], Separators(st))
    requires Lexed(Next(st, path[idx]), rest)
    ensures Lexed(st, Piece(path, idx) + rest)
  {
    var tail := [path[idx..idx + 1]] + rest;
    assert tail[1..] == rest;
    assert Lexed(st, tail);
    if idx == 0 {
      assert Piece(path, idx) + rest == tail;
    } else {
      PlainIsNoSeparator(st, path[..idx]);
      assert ([path[..idx]] + tail)[1..] == tail;
      assert Piece(path, idx) + rest == [path[..idx]] + tail;
    }
  }

  /** How one word and its separator are split off the front of a path. */
  lemma TokensStep(st: LexState, w: string, c: char, rest: string)
    requires !Has(w, Separators(st)) && c in Separators(st)
    ensures Tokens(st, w + [c] + rest)
         == (if w == "" then [[c]] else [w, [c]]) + Tokens(Next(st, c), rest)
  {
    var path := w + [c] + rest;
    assert path[..|w|] == w && path[|w|] == c && path[|w| + 1..] == rest;
    assert path[|w|..|w| + 1] == [c];
    IndexAnyAt(path, Separators(st), |w|);
    if w == "" { assert path[..1] == [c]; }
  }

  lemma TokensLast(st: LexState, w: string)
    requires !Has(w, Separators(st))
    ensures Tokens(st, w) == if w == "" then [] else [w]
  {
  }

  lemma SomeToken(st: LexState, path: string)
    requires path != ""
    ensures |Tokens(st, path)| > 0
  {
  }

  /** One iteration of the splitting loop. */
  lemma TokensUnfold(st: LexState, path: string)
    ensures path == "" ==> Tokens(st, path) == []
    ensures path != "" ==>
              var idx := IndexAny(path, Separators(st));
              Tokens(st, path) ==
                if idx < 0 then [path] else Piece(path, idx) + Tokens(Next(st, path[idx]), path[idx + 1..])
  {
  }

  /** The splitting loop, the same in both tokenizers. */
  method SplitPath(path: string) returns (tokens: seq<string>)
    ensures tokens == Tokens(InSegments, path)
  {
    hide *;
    tokens := [];
    var left := path;
    var st := InSegments;
    while left != ""
      invariant Tokens(InSegments, path) == tokens + Tokens(st, left)
      decreases |left|
    {
      TokensUnfold(st, left);
      var idx := IndexAny(left, Separators(st));
      if idx < 0 {
        tokens := tokens + [left];
        return;
      }
      ghost var was, more := tokens, Tokens(Next(st, left[idx]), left[idx + 1..]);
      PieceOf(left, idx);
      if idx == 0 {
        tokens := tokens + [left[..1]];
      } else {
        tokens := tokens + [left[..idx], left[idx..idx + 1]];
      }
      Regroup(was, Piece(left, idx), more);
      NextOf(st, left[idx]);
      match left[idx] {
        case '{' => st := InField;
        case '=' => st := InNested;
        case '}' => st := InSegments;
        case _ =>
      }
      left := left[idx + 1..];
    }
    TokensUnfold(st, left);
  }

  lemma PieceOf(path: string, idx: nat)
    requires idx < |path|
    ensures Piece(path, idx) == if idx == 0 then [path[..1]] else [path[..idx], path[idx..idx + 1]]
  {
  }

  lemma NextOf(st: LexState, c: char)
    ensures Next(st, c) ==
              if c == '{' then InField else if c == '=' then InNested else if c == '}' then InSegments else st
  {
  }

  lemma Regroup(a: seq<string>, b: seq<string>, c: seq<string>)
    ensures a + (b + c) == a + b + c
  {
  }
}
