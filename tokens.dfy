/** Tokens as the scanner hands them to the parser. */
module Tokens {

  /** The token kinds the parser distinguishes. */
  datatype TokenType =
    // single-character tokens
    | LeftParen | RightParen | LeftBrace | RightBrace
    | Comma | Dot | Minus | Plus | Semicolon | Slash | Star
    | Question | Colon
    // one- or two-character tokens
    | Bang | BangEqual | Equal | EqualEqual
    | Greater | GreaterEqual | Less | LessEqual
    // literals
    | Identifier | String | Number
    // keywords
    | And | Class | Else | False | Fun | For | If | Nil | Or
    | Print | Return | Super | This | True | Var | While
    | Eof

  /** The literal value a scanner attaches to a NUMBER or STRING token.
      The parser only copies it into a literal expression, so it stays opaque. */
  datatype Payload = NoPayload | Payload(text: string)

  datatype Token = Token(kind: TokenType, lexeme: string, literal: Payload, line: int)
}
