/** White space as Go's `strings.TrimSpace` takes it. */
module Whitespace {
  predicate IsSpace(c: char) {
    || '\t' <= c <= '\r' || c == ' ' || c == '\U{0085}' || c == '\U{00A0}' || c == '\U{1680}'
    || '\U{2000}' <= c <= '\U{200A}' || c == '\U{2028}' || c == '\U{2029}' || c == '\U{202F}'
    || c == '\U{205F}' || c == '\U{3000}'
  }

  /** Trimming leaves nothing. */
  predicate Blank(s: string) {
    forall i :: 0 <= i < |s| ==> IsSpace(s[i])
  }

  /** Nothing is left exactly when every character has the White_Space property, by code point. */
  lemma BlankIff(s: string)
    ensures Blank(s) <==> forall i :: 0 <= i < |s| ==>
      var c := s[i] as int;
      || 9 <= c <= 13 || c in {32, 133, 160, 5760} || 8192 <= c <= 8202 || c in {8232, 8233, 8239, 8287, 12288}
  {
  }
}
