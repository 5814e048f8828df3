/** Character classes of the C library in the "C" locale. */
module CType {

  /** `isspace`. */
  predicate IsSpace(c: char) {
    c == ' ' || '\t' <= c <= '\r'
  }
}
