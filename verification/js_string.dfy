/** `String.prototype.trim` and the blank-term test `!term.trim()`. */
module JsString {

  /** The characters ECMAScript's `trim` removes: the WhiteSpace and
      LineTerminator productions (tab, vertical tab, form feed, space,
      no-break space, byte-order mark, the Unicode space separators, and
      line feed, carriage return, line and paragraph separators). */
  predicate IsWhitespace(c: char) {
    || c == '\t' || c == '\n' || c == '\U{B}' || c == '\U{C}' || c == '\r'
    || c == ' ' || c == '\U{A0}' || c == '\U{1680}'
    || ('\U{2000}' <= c <= '\U{200A}')
    || c == '\U{2028}' || c == '\U{2029}' || c == '\U{202F}' || c == '\U{205F}'
    || c == '\U{3000}' || c == '\U{FEFF}'
  }

  predicate AllWhitespace(s: string) {
    forall i :: 0 <= i < |s| ==> IsWhitespace(s[i])
  }

  /** Drops leading whitespace: the result is a suffix of `s` that starts
      with a non-whitespace character, and everything dropped is whitespace. */
  function TrimStart(s: string): (r: string)
    ensures |r| <= |s| && r == s[|s| - |r|..]
    ensures forall i :: 0 <= i < |s| - |r| ==> IsWhitespace(s[i])
    ensures |r| > 0 ==> !IsWhitespace(r[0])
  {
    if |s| > 0 && IsWhitespace(s[0]) then TrimStart(s[1..]) else s
  }

  /** Drops trailing whitespace: the result is a prefix of `s` that ends
      with a non-whitespace character, and everything dropped is whitespace. */
  function TrimEnd(s: string): (r: string)
    ensures |r| <= |s| && r == s[..|r|]
    ensures forall i :: |r| <= i < |s| ==> IsWhitespace(s[i])
    ensures |r| > 0 ==> !IsWhitespace(r[|r| - 1])
  {
    if |s| > 0 && IsWhitespace(s[|s| - 1]) then TrimEnd(s[..|s| - 1]) else s
  }

  function Trim(s: string): string {
    TrimEnd(TrimStart(s))
  }

  /** `!term.trim()`: the trimmed term is the empty string. */
  predicate IsBlank(term: string) {
    |Trim(term)| == 0
  }

  /** A term is blank exactly when every one of its characters is whitespace;
      in particular the empty term is blank. */
  lemma BlankIffAllWhitespace(term: string)
    ensures IsBlank(term) <==> AllWhitespace(term)
  {
  }
}
