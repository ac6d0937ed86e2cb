/** The syntax trees the parser builds. */
module Syntax {
  import opened Tokens

  /** A reference that may be absent (`null` in the source). */
  datatype Option<T> = None | Some(value: T)

  /** What a literal expression holds: `false`, `true`, `nil` or a scanned literal. */
  datatype LiteralValue = BoolValue(b: bool) | NilValue | TokenValue(payload: Payload)

  datatype Expr =
    | Binary(left: Expr, operator: Token, right: Expr)
    | Unary(operator: Token, right: Expr)
    | Literal(value: LiteralValue)
    | Variable(name: Token)
    | Assign(name: Token, newValue: Expr)
    | Grouping(expression: Expr)
    | Ternary(condition: Expr, thenBranch: Expr, elseBranch: Expr)

  /** Statements; a block keeps `None` for every declaration that failed to parse. */
  datatype Stmt =
    | Expression(expression: Expr)
    | Print(expression: Expr)
    | Var(name: Token, initializer: Option<Expr>)
    | Block(statements: seq<Option<Stmt>>)
}
