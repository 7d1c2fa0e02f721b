/** The classes of characters that the preprocessor and the C library distinguish. */
module Characters {
  predicate IsIdStart(c: char) { 'a' <= c <= 'z' || 'A' <= c <= 'Z' || c == '_' || c == '$' }

  predicate IsIdChar(c: char) { IsIdStart(c) || '0' <= c <= '9' }

  predicate IsSpace(c: char) { c in " \t\n\r" || c as int == 11 || c as int == 12 }
}
