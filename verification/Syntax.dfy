/** The vocabulary shared by the parser, the annotators and every consumer. */
module Syntax {

  /** Bytes `start..end` of a source; a malformed producer may reverse them. */
  datatype Span = Span(start: nat, end: nat)

  datatype FunctionKind =
    | Article
    | Preposition
    | Conjunction
    | Pronoun
    | Auxiliary
    | Determiner
    | Negator

  datatype OpenClassKind = Noun | Verb | Adjective | Adverb

  datatype PosClass =
    | Function(function_: FunctionKind)
    | Content
    | Open(open: OpenClassKind)
    | ProperNoun
    | Number
    | Punctuation
    | Quote

  datatype Node =
    | Document(sentences: seq<Node>)
    | Sentence(span: Span, parts: seq<Node>)
    | Word(span: Span)
    | Punct(span: Span)

  datatype Tree = Tree(root: Node)

  datatype Token = Token(span: Span, pos: PosClass)
}
