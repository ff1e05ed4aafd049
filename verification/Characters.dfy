/** The fixed character sets the parser, the annotators and the mask agree on. */
module Characters {

  /** The set the lexer skips between tokens. */
  predicate IsParserWhitespace(c: char) {
    match c
    case ' ' | '\t' | '\r' | '\n' => true
    case '\U{000C}' | '\U{00A0}' | '\U{1680}' | '\U{202F}' | '\U{205F}' | '\U{3000}' => true
    case _ => 0x2000 <= c as int <= 0x200A
  }

  /** The Unicode White_Space property. */
  predicate IsWhitespace(c: char) {
    match c
    case '\U{000B}' | '\U{0085}' | '\U{2028}' | '\U{2029}' => true
    case _ => IsParserWhitespace(c)
  }

  predicate IsTerminator(c: char) {
    match c
    case '.' | '!' | '?' => true
    case _ => false
  }

  predicate IsQuoteMark(c: char) {
    match c
    case '\"' | '\'' | '\U{201C}' | '\U{201D}' | '\U{2018}' | '\U{2019}' | '\U{00AB}' | '\U{00BB}' => true
    case _ => false
  }

  predicate IsPunctMark(c: char) {
    match c
    case ',' | ';' | ':' | '\U{2026}' | '\U{2014}' | '\U{2013}' => true
    case '(' | ')' | '[' | ']' | '{' | '}' | '<' | '>' => true
    case '/' | '\\' | '@' | '#' | '$' | '%' | '^' | '&' | '*' | '+' | '=' | '~' | '|' | '_' | '-' => true
    case _ => false
  }

  /** Letters and digits of a word may be joined by one of these. */
  predicate IsWordJoiner(c: char) {
    c == '\'' || c == '\U{2019}' || c == '-'
  }

  predicate IsClosingBracket(c: char) {
    c == ')' || c == ']' || c == '}'
  }
}
