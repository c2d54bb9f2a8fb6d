/** Character classes of the path-template grammar: `pchar` of section 3.3 of RFC 3986 and
    protobuf identifiers. */
module PathChars {
  import opened Text

  predicate IsDigit(c: char) { '0' <= c <= '9' }

  predicate IsAlpha(c: char) { 'A' <= c <= 'Z' || 'a' <= c <= 'z' }

  predicate IsHex(c: char) { IsDigit(c) || 'A' <= c <= 'F' || 'a' <= c <= 'f' }

  /** A pchar written as itself: unreserved, sub-delims, ":" and "@". */
  predicate IsPlainPChar(c: char) {
    IsDigit(c) || IsAlpha(c) || c in "-._~!$&'()*+,;=:@"
  }

  /** The whole string is a sequence of pchars. */
  predicate IsPChars(t: string) {
    || t == ""
    || (IsPlainPChar(t[0]) && IsPChars(t[1..]))
    || (|t| >= 3 && t[0] == '%' && IsHex(t[1]) && IsHex(t[2]) && IsPChars(t[3..]))
  }

  predicate IsIdentChar(c: char) { IsDigit(c) || IsAlpha(c) || c == '_' }

  /** IDENT of the template grammar. */
  predicate IsIdent(t: string) {
    t != "" && !IsDigit(t[0]) && forall k :: 0 <= k < |t| ==> IsIdentChar(t[k])
  }

  /** No pchar string holds one of the characters that structure a template. */
  lemma {:induction false} PCharsAvoid(t: string, chars: string)
    requires IsPChars(t)
    requires forall c :: c in chars ==> !IsPlainPChar(c) && c != '%' && !IsHex(c)
    ensures !Has(t, chars)
  {
    if t == "" {
    } else if IsPlainPChar(t[0]) {
      PCharsAvoid(t[1..], chars);
      assert t == [t[0]] + t[1..];
    } else {
      PCharsAvoid(t[3..], chars);
      assert t == [t[0], t[1], t[2]] + t[3..];
    }
  }

  /** A dotted path and the identifiers it joins. */
  predicate IsPathOf(comps: seq<string>, path: string) {
    |comps| > 0 && (forall k :: 0 <= k < |comps| ==> IsIdent(comps[k])) && path == Join(comps, ".")
  }

  ghost predicate IsFieldPath(path: string) {
    exists comps :: IsPathOf(comps, path)
  }
}
