/** The vocabulary shared by the tokenizer and the parser. */
module Tokens {

  /** The closed set of token categories. */
  datatype TokenKind =
    | Keyword
    | Identifier
    | Integer
    | Real
    | Operator
    | Separator
    | Unknown
    | Eof

  /** An immutable token: its category, the exact text matched and the line it is reported on. */
  datatype Token = Token(kind: TokenKind, lexeme: string, line: nat)

  /** The lower-case name of a kind, as used in the parser's messages. */
  function KindName(k: TokenKind): string {
    match k
    case Keyword => "keyword"
    case Identifier => "identifier"
    case Integer => "integer"
    case Real => "real"
    case Operator => "operator"
    case Separator => "separator"
    case Unknown => "unknown"
    case Eof => "eof"
  }

  /** The qualifiers of rule R8: `integer`, `boolean` or `real`, compared exactly. */
  predicate IsQualifier(lexeme: string) {
    lexeme == "integer" || lexeme == "boolean" || lexeme == "real"
  }

  /** The relational operators of rule R24. */
  predicate IsRelationalOperator(lexeme: string) {
    lexeme == "==" || lexeme == "!=" || lexeme == "<" || lexeme == ">" || lexeme == "<=" || lexeme == "=>"
  }
}
