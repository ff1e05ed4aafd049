/** The Unicode tables the parser and annotators consult, as values. */
module Unicode {
  import opened Characters

  /**
    `letter` and `number` are the lexer's `\p{L}` and `\p{N}`; the others are the
    standard library's classes of the same names. Nothing makes the two number
    tables agree.
   */
  datatype Tables = Tables(
    letter: char -> bool,
    number: char -> bool,
    numeric: char -> bool,
    alphabetic: char -> bool,
    uppercase: char -> bool)
  {
    function WordBody(): char -> bool {
      c => letter(c) || number(c)
    }

    /** The disjointness of Unicode general categories that the lexer's rules rely on. */
    ghost predicate Valid() {
      && (forall c :: letter(c) ==>
                        !IsParserWhitespace(c) && !IsTerminator(c) && !IsQuoteMark(c) && !IsPunctMark(c) && !numeric(c))
      && (forall c :: number(c) || numeric(c) ==> !IsParserWhitespace(c))
      && (forall c :: numeric(c) ==> !IsTerminator(c) && !IsQuoteMark(c) && !IsPunctMark(c))
    }
  }
}
