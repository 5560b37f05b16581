/** White space as strings.TrimSpace sees it. */
module Text {

  predicate IsSpace(c: char) {
    c in {'\t', '\n', '\U{0b}', '\U{0c}', '\r', ' ', '\U{85}', '\U{a0}', '\U{1680}', '\U{2028}', '\U{2029}', '\U{202f}',
          '\U{205f}', '\U{3000}'} || '\U{2000}' <= c <= '\U{200a}'
  }

  /** Nothing is left once white space is trimmed. */
  predicate Blank(s: string) {
    forall i :: 0 <= i < |s| ==> IsSpace(s[i])
  }
}
