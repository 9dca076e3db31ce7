/** What the codecs take for a space (lib/abseil-cpp-master/absl/strings/ascii.h). */
module Ascii {

  // ascii_isspace
  predicate IsSpace(c: char) {
    c == ' ' || 9 <= c as int <= 13
  }

  lemma SpaceMeaning(c: char)
    ensures IsSpace(c) <==> c in [' ', '\t', '\n', '\U{0B}', '\U{0C}', '\r']
  {
  }
}
