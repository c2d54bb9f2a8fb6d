/** The string operations of Go's `strings` package that the modelled code calls.
    A string is a sequence of bytes or code points: every test the code makes is on
    ASCII characters, so the two readings agree. */
module Text {

  datatype Option<+T> = None | Some(value: T)

  predicate Has(s: string, chars: string) {
    exists k :: 0 <= k < |s| && s[k] in chars
  }

  /** strings.IndexAny: the first position holding a character of `chars`, or -1. */
  function IndexAny(s: string, chars: string): (r: int)
    ensures -1 <= r < |s|
    ensures r == -1 <==> !Has(s, chars)
    ensures r >= 0 ==> s[r] in chars && !Has(s[..r], chars)
  {
    if s == "" then -1
    else if s[0] in chars then 0
    else
      var r := IndexAny(s[1..], chars);
      assert s == [s[0]] + s[1..];
      if r < 0 then -1 else
        assert s[..r + 1] == [s[0]] + s[1..][..r];
        r + 1
  }

  /** strings.LastIndex of a one-character needle. */
  function LastIndex(s: string, c: char): (r: int)
    ensures -1 <= r < |s|
    ensures r == -1 <==> c !in s
    ensures r >= 0 ==> s[r] == c && c !in s[r + 1..]
  {
    if s == "" then -1
    else if s[|s| - 1] == c then |s| - 1
    else
      var r := LastIndex(s[..|s| - 1], c);
      assert s == s[..|s| - 1] + [s[|s| - 1]];
      assert r >= 0 ==> s[r + 1..] == s[..|s| - 1][r + 1..] + [s[|s| - 1]];
      r
  }

  /** strings.HasSuffix. */
  predicate HasSuffix(s: string, suffix: string) {
    |suffix| <= |s| && s[|s| - |suffix|..] == suffix
  }

  function Elements(names: seq<string>): set<string> {
    set n | n in names
  }

  /** Concatenation of a list of strings. */
  function Concat(parts: seq<string>): string {
    if parts == [] then "" else parts[0] + Concat(parts[1..])
  }

  lemma ConcatAppend(a: seq<string>, b: seq<string>)
    ensures Concat(a + b) == Concat(a) + Concat(b)
  {
    if a == [] {
      assert a + b == b;
    } else {
      assert (a + b)[1..] == a[1..] + b;
      ConcatAppend(a[1..], b);
    }
  }

  /** strings.Join. */
  function Join(parts: seq<string>, sep: string): string {
    if parts == [] then ""
    else if |parts| == 1 then parts[0]
    else parts[0] + sep + Join(parts[1..], sep)
  }

  /** A cut at the first separator is the only cut whose left part has none. */
  lemma IndexAnyAt(s: string, chars: string, k: nat)
    requires k < |s| && s[k] in chars && !Has(s[..k], chars)
    ensures IndexAny(s, chars) == k
  {
    assert Has(s, chars);
    var r := IndexAny(s, chars);
  }

  lemma LastIndexAt(s: string, c: char, k: nat)
    requires k < |s| && s[k] == c && c !in s[k + 1..]
    ensures LastIndex(s, c) == k
  {
    var r := LastIndex(s, c);
  }

  lemma LastIndexAppend(w: string, c: char, v: string)
    requires c !in v
    ensures LastIndex(w + [c] + v, c) == |w|
  {
    var s := w + [c] + v;
    assert s[|w| + 1..] == v;
    LastIndexAt(s, c, |w|);
  }

  /** strings.Split on one character: never empty, and no part holds the character. */
  function Split(s: string, c: char): (parts: seq<string>)
    ensures |parts| > 0 && forall k :: 0 <= k < |parts| ==> c !in parts[k]
  {
    if s == "" then [""]
    else
      var rest := Split(s[1..], c);
      if s[0] == c then [""] + rest else [[s[0]] + rest[0]] + rest[1..]
  }

  /** Splitting loses nothing. */
  lemma {:induction false} JoinSplit(s: string, c: char)
    ensures Join(Split(s, c), [c]) == s
  {
    if s != "" {
      var rest := Split(s[1..], c);
      JoinSplit(s[1..], c);
      if s[0] == c {
        assert ([""] + rest)[1..] == rest;
        assert "" + [c] + s[1..] == s;
      } else {
        var parts := [[s[0]] + rest[0]] + rest[1..];
        assert parts[1..] == rest[1..];
        if |rest| > 1 {
          assert [s[0]] + rest[0] + [c] + Join(rest[1..], [c]) == [s[0]] + s[1..];
        }
        assert [s[0]] + s[1..] == s;
      }
    }
  }
}
