/** Character classes of the lexer's rules (Go regexp's ASCII-only \d, \w and the
    explicit sets written in the rules). */
module Chars {

  predicate IsLetter(c: char) {
    'a' <= c <= 'z' || 'A' <= c <= 'Z'
  }

  /** \w: letters, digits and underscore. */
  predicate IsWordChar(c: char) {
    IsLetter(c) || '0' <= c <= '9' || c == '_'
  }

  /** The Whitespace rule's set: space, tab, newline, carriage return. */
  predicate IsSpace(c: char) {
    c == ' ' || c == '\t' || c == '\n' || c == '\r'
  }

  /** The Punct rule's set. */
  predicate IsPunct(c: char) {
    c == '-' || c == '[' || c == '!' || c == '@' || c == '#' || c == '$' || c == '%' || c == '^' ||
    c == '&' || c == '*' || c == '(' || c == ')' || c == '+' || c == '_' || c == '=' || c == '{' ||
    c == '}' || c == '|' || c == ':' || c == ';' || c == '"' || c == '\'' || c == '<' || c == ',' ||
    c == '>' || c == '.' || c == '?' || c == '/' || c == ']'
  }

  /** A word the Ident rule reads whole: [a-zA-Z]\w*. */
  predicate IsIdent(s: string) {
    |s| > 0 && IsLetter(s[0]) && forall i :: 1 <= i < |s| ==> IsWordChar(s[i])
  }
}
