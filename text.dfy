/** Blank strings as PHP's `trim` sees them, shared by the validator and the query filters. */
module Text {

  /** The characters PHP's `trim` strips. */
  predicate IsTrimmed(c: char) {
    c == ' ' || c == '\t' || c == '\n' || c == '\r' || c == '\0' || c == '\U{0B}'
  }

  /** A string that is empty once trimmed: `required` rejects it and `filled` treats it as missing. */
  predicate Blank(s: string)
    ensures |s| > 0 && !IsTrimmed(s[0]) ==> !Blank(s)
  {
    forall i :: 0 <= i < |s| ==> IsTrimmed(s[i])
  }
}
