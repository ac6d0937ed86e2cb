/** The recursive-descent parser: a cursor over an EOF-terminated token list.
    Every parsing method is proved to return exactly what the matching
    function of ParserSpec returns, and to leave the cursor and the reported
    diagnostics where that function says.  `errors` stands for the calls made
    to the external diagnostic sink. */
module Parsing {
  import opened Tokens
  import opened Syntax
  import opened ParserSpec

  class Parser {
    const tokens: seq<Token>
    var current: nat
    var errors: seq<Diagnostic>

    predicate Valid()
      reads this
    {
      InRange(tokens, current)
    }

    function State(): Cursor
      reads this
    {
      Cursor(current, errors)
    }

    constructor (tokens: seq<Token>)
      requires Terminated(tokens)
      ensures Valid() && this.tokens == tokens && current == 0 && errors == []
    {
      this.tokens := tokens;
      current := 0;
      errors := [];
    }

    /** program -> declaration* EOF, one entry per declaration (`None` for a failed one). */
    method Parse() returns (statements: seq<Option<Stmt>>)
      requires Valid()
      modifies this
      ensures Valid()
      ensures Reply(Done(statements), State()) == ParseProgram(tokens, old(State()), [])
    {
      statements := [];
      while !IsAtEnd()
        invariant Valid()
        invariant ParseProgram(tokens, State(), statements) == ParseProgram(tokens, old(State()), [])
        decreases |tokens| - current
      {
        var s := Declaration();
        statements := statements + [s];
      }
    }

    method Statement() returns (out: Outcome<Stmt>)
      requires Valid()
      modifies this
      ensures Valid() && Reply(out, State()) == ParseStatement(tokens, old(State()))
      decreases |tokens| - current, 14
    {
      var m := Match({TokenType.Print});
      if m {
        out := PrintStatement();
        return;
      }
      m := Match({LeftBrace});
      if m {
        var b := Block();
        if b.Thrown? {
          return Thrown;
        }
        return Done(Stmt.Block(b.value));
      }
      out := ExpressionStatement();
    }

    method PrintStatement() returns (out: Outcome<Stmt>)
      requires Valid()
      modifies this
      ensures Valid() && Reply(out, State()) == ParsePrintStatement(tokens, old(State()))
      decreases |tokens| - current, 13
    {
      var value := Expression();
      if value.Thrown? {
        return Thrown;
      }
      var semi := Consume(Semicolon, ExpectSemicolonAfterValue);
      if semi.Thrown? {
        return Thrown;
      }
      return Done(Stmt.Print(value.value));
    }

    method VarDeclaration() returns (out: Outcome<Stmt>)
      requires Valid()
      modifies this
      ensures Valid() && Reply(out, State()) == ParseVarDeclaration(tokens, old(State()))
      decreases |tokens| - current, 13
    {
      var name := Consume(Identifier, ExpectVariableName);
      if name.Thrown? {
        return Thrown;
      }
      var initializer: Option<Expr> := None;
      var m := Match({Equal});
      if m {
        var e := Expression();
        if e.Thrown? {
          return Thrown;
        }
        initializer := Some(e.value);
      }
      var semi := Consume(Semicolon, ExpectSemicolonAfterDeclaration);
      if semi.Thrown? {
        return Thrown;
      }
      return Done(Stmt.Var(name.value, initializer));
    }

    method ExpressionStatement() returns (out: Outcome<Stmt>)
      requires Valid()
      modifies this
      ensures Valid() && Reply(out, State()) == ParseExpressionStatement(tokens, old(State()))
      decreases |tokens| - current, 13
    {
      var expr := Expression();
      if expr.Thrown? {
        return Thrown;
      }
      var semi := Consume(Semicolon, ExpectSemicolonAfterExpression);
      if semi.Thrown? {
        return Thrown;
      }
      return Done(Stmt.Expression(expr.value));
    }

    /** The statements of a block whose `{` has been consumed, and its `}`. */
    method Block() returns (out: Outcome<seq<Option<Stmt>>>)
      requires Valid()
      modifies this
      ensures Valid() && Reply(out, State()) == ParseBlock(tokens, old(State()))
      decreases |tokens| - current, 17
    {
      var statements: seq<Option<Stmt>> := [];
      while !Check(RightBrace) && !IsAtEnd()
        invariant Valid() && old(current) <= current
        invariant ParseBlockBody(tokens, State(), statements) == ParseBlockBody(tokens, old(State()), [])
        decreases |tokens| - current
      {
        var s := Declaration();
        statements := statements + [s];
      }
      var close := Consume(RightBrace, ExpectRightBrace);
      if close.Thrown? {
        return Thrown;
      }
      return Done(statements);
    }

    method Assignment() returns (out: Outcome<Expr>)
      requires Valid()
      modifies this
      ensures Valid() && Reply(out, State()) == ParseAssignment(tokens, old(State()))
      decreases |tokens| - current, 11
    {
      ghost var start := State();
      var expr := Equality();
      ghost var target := Reply(expr, State());
      AssignmentTarget(tokens, start, target);
      if expr.Thrown? {
        return expr;
      }
      var m := Match({Equal});
      if m {
        var equals := Previous();
        ghost var mid := State();
        var value := Assignment();
        AssignmentValue(tokens, start, target, mid, Reply(value, State()));
        if value.Thrown? {
          return value;
        }
        if expr.value.Variable? {
          var name := expr.value.name;
          return Done(Expr.Assign(name, value.value));
        }
        Error(equals, InvalidTarget);
      }
      return expr;
    }

    method Expression() returns (out: Outcome<Expr>)
      requires Valid()
      modifies this
      ensures Valid() && Reply(out, State()) == ParseExpression(tokens, old(State()))
      decreases |tokens| - current, 12
    {
      out := Assignment();
    }

    /** A declaration that fails is recovered here: the cursor is moved to the
        next statement boundary and `None` stands for the failed declaration. */
    method Declaration() returns (s: Option<Stmt>)
      requires Valid() && !IsAtEnd()
      modifies this
      ensures Valid() && Reply(Done(s), State()) == ParseDeclaration(tokens, old(State()))
      decreases |tokens| - current, 15
    {
      ghost var start := State();
      var m := Match({TokenType.Var});
      var out: Outcome<Stmt>;
      if m {
        out := VarDeclaration();
      } else {
        out := Statement();
      }
      ghost var attempt := if MatchAt(tokens, start.pos, {TokenType.Var})
                           then ParseVarDeclaration(tokens, Skip(tokens, start))
                           else ParseStatement(tokens, start);
      assert Reply(out, State()) == attempt;
      if out.Thrown? {
        assert current > 0 || !IsAtEnd();
        Synchronize();
        return None;
      }
      return Some(out.value);
    }

    /** comma -> ternary ( "," ternary )*; no production calls it. */
    method Comma() returns (out: Outcome<Expr>)
      requires Valid()
      modifies this
      ensures Valid() && Reply(out, State()) == ParseComma(tokens, old(State()))
    {
      ghost var start := State();
      var first := Ternary();
      assert Reply(first, State()) == ParseTernaryOperand(tokens, start);
      if first.Thrown? {
        return first;
      }
      var expr := first.value;
      ghost var goal := ParseCommaRest(tokens, State(), expr);
      while true
        invariant Valid() && ParseCommaRest(tokens, State(), expr) == goal
        decreases |tokens| - current
      {
        ghost var before := State();
        var m := Match({TokenType.Comma});
        if !m {
          CommaStop(tokens, before, expr);
          break;
        }
        var operator := Previous();
        ghost var mid := State();
        var right := Ternary();
        assert Reply(right, State()) == ParseTernaryOperand(tokens, mid);
        CommaStep(tokens, before, mid, expr, Reply(right, State()));
        if right.Thrown? {
          return Thrown;
        }
        expr := Expr.Binary(expr, operator, right.value);
      }
      return Done(expr);
    }

    /** ternary -> equality ( "?" expression ":" ternary )?; only `comma` calls it. */
    method Ternary() returns (out: Outcome<Expr>)
      requires Valid()
      modifies this
      ensures Valid() && Reply(out, State()) == ParseTernaryOperand(tokens, old(State()))
      decreases |tokens| - current
    {
      var expr := Equality();
      if expr.Thrown? {
        return expr;
      }
      var m := Match({Question});
      if m {
        var thenBranch := Expression();
        if thenBranch.Thrown? {
          return thenBranch;
        }
        var colon := Consume(Colon, ExpectColon);
        if colon.Thrown? {
          return Thrown;
        }
        var elseBranch := Ternary();
        if elseBranch.Thrown? {
          return elseBranch;
        }
        return Done(Expr.Ternary(expr.value, thenBranch.value, elseBranch.value));
      }
      return expr;
    }

    /** Consumes the current token if its kind is one of `types`. */
    method Match(types: set<TokenType>) returns (matched: bool)
      requires Valid()
      modifies this
      ensures Valid() && errors == old(errors)
      ensures matched == MatchAt(tokens, old(current), types)
      ensures current == if matched then old(current) + 1 else old(current)
    {
      var remaining := types;
      while remaining != {}
        invariant remaining <= types && current == old(current) && errors == old(errors)
        invariant !MatchAt(tokens, current, types - remaining)
        decreases remaining
      {
        var kind :| kind in remaining;
        if Check(kind) {
          var consumed := Advance();
          return true;
        }
        remaining := remaining - {kind};
      }
      return false;
    }


    /** Returns the expected token and moves past it, or reports `message` at
        the current token and throws without moving. */
    method Consume(kind: TokenType, message: Message) returns (out: Outcome<Token>)
      requires Valid()
      modifies this
      ensures Valid()
      ensures out.Done? <==> CheckAt(tokens, old(current), kind)
      ensures out.Done? ==> out.value == tokens[old(current)] && out.value.kind == kind
                            && current == old(current) + 1 && errors == old(errors)
      ensures out.Thrown? ==> current == old(current)
                              && errors == old(errors) + [Diagnostic(tokens[old(current)], message)]
      ensures Reply(out, State()) == ConsumeAt(tokens, old(State()), kind, message)
    {
      if Check(kind) {
        var t := Advance();
        return Done(t);
      }
      Error(Peek(), message);
      return Thrown;
    }

    /** Does the current token have kind `kind`?  Never at EOF. */
    function Check(kind: TokenType): (r: bool)
      reads this
      requires Valid()
      ensures IsAtEnd() ==> !r
      ensures r <==> CheckAt(tokens, current, kind)
    {
      if IsAtEnd() then false else Peek().kind == kind
    }

    /** Consumes the current token and returns it; at EOF the cursor stays. */
    method Advance() returns (t: Token)
      requires Valid() && (current > 0 || !IsAtEnd())
      modifies this
      ensures Valid() && errors == old(errors)
      ensures current == Next(tokens, old(current))
      ensures t == tokens[current - 1]
    {
      if !IsAtEnd() {
        current := current + 1;
      }
      return Previous();
    }

    /** True exactly when the current token is EOF. */
    function IsAtEnd(): (b: bool)
      reads this
      requires Valid()
      ensures b <==> AtEnd(tokens, current)
    {
      Peek().kind == Eof
    }

    /** The current token, always defined: the cursor stays on the list. */
    function Peek(): (t: Token)
      reads this
      requires Valid()
      ensures t == tokens[current] && (t.kind == Eof <==> AtEnd(tokens, current))
    {
      tokens[current]
    }

    /** The most recently consumed token. */
    function Previous(): (t: Token)
      reads this
      requires Valid() && current > 0
      ensures t == tokens[current - 1]
    {
      tokens[current - 1]
    }

    /** Reports a diagnostic through the sink; the caller decides whether to throw. */
    method Error(token: Token, message: Message)
      modifies this
      ensures current == old(current) && errors == old(errors) + [Diagnostic(token, message)]
    {
      errors := errors + [Diagnostic(token, message)];
    }

    /** Panic-mode recovery: discards tokens up to the next statement boundary. */
    method Synchronize()
      requires Valid() && (current > 0 || !IsAtEnd())
      modifies this
      ensures Valid() && errors == old(errors)
      ensures current == SyncTarget(tokens, old(current))
    {
      var skipped := Advance();
      while !IsAtEnd()
        invariant Valid() && 0 < current && errors == old(errors)
        invariant SyncLoop(tokens, current) == SyncTarget(tokens, old(current))
        decreases |tokens| - current
      {
        if Previous().kind == Semicolon {
          return;
        }
        if StartsDeclaration(Peek().kind) {
          return;
        }
        skipped := Advance();
      }
    }

    /** equality -> comparison ( ( "!=" | "==" ) comparison )* */
    method Equality() returns (out: Outcome<Expr>)
      requires Valid()
      modifies this
      ensures Valid() && Reply(out, State()) == ParseBinary(EqualityLevel, tokens, old(State()))
      decreases |tokens| - current, 10
    {
      ghost var start := State();
      var m := Match({BangEqual, EqualEqual});
      if m {
        var operator := Previous();
        ghost var mid := State();
        var right := Comparison();
        BinaryLeading(EqualityLevel, tokens, start, mid, Reply(right, State()));
        if right.Thrown? {
          return right;
        }
        Error(operator, MissingLeftOperand(operator.lexeme));
        return right;
      }
      var first := Comparison();
      BinaryOperand(EqualityLevel, tokens, start, Reply(first, State()));
      if first.Thrown? {
        return first;
      }
      var expr := first.value;
      ghost var goal := ParseBinaryRest(EqualityLevel, tokens, State(), expr);
      while true
        invariant Valid() && ParseBinaryRest(EqualityLevel, tokens, State(), expr) == goal
        decreases |tokens| - current
      {
        ghost var before := State();
        m := Match({BangEqual, EqualEqual});
        if !m {
          RestStop(EqualityLevel, tokens, before, expr);
          break;
        }
        var operator := Previous();
        ghost var mid := State();
        var right := Comparison();
        RestStep(EqualityLevel, tokens, before, mid, expr, Reply(right, State()));
        if right.Thrown? {
          return Thrown;
        }
        expr := Expr.Binary(expr, operator, right.value);
      }
      return Done(expr);
    }

    /** comparison -> term ( ( ">" | ">=" | "<" | "<=" ) term )* */
    method Comparison() returns (out: Outcome<Expr>)
      requires Valid()
      modifies this
      ensures Valid() && Reply(out, State()) == ParseOperand(EqualityLevel, tokens, old(State()))
      decreases |tokens| - current, 8
    {
      ghost var start := State();
      var m := Match({Greater, GreaterEqual, Less, LessEqual});
      if m {
        var operator := Previous();
        ghost var mid := State();
        var right := Term();
        BinaryLeading(ComparisonLevel, tokens, start, mid, Reply(right, State()));
        if right.Thrown? {
          return right;
        }
        Error(operator, MissingLeftOperand(operator.lexeme));
        return right;
      }
      var first := Term();
      BinaryOperand(ComparisonLevel, tokens, start, Reply(first, State()));
      if first.Thrown? {
        return first;
      }
      var expr := first.value;
      ghost var goal := ParseBinaryRest(ComparisonLevel, tokens, State(), expr);
      while true
        invariant Valid() && ParseBinaryRest(ComparisonLevel, tokens, State(), expr) == goal
        decreases |tokens| - current
      {
        ghost var before := State();
        m := Match({Greater, GreaterEqual, Less, LessEqual});
        if !m {
          RestStop(ComparisonLevel, tokens, before, expr);
          break;
        }
        var operator := Previous();
        ghost var mid := State();
        var right := Term();
        RestStep(ComparisonLevel, tokens, before, mid, expr, Reply(right, State()));
        if right.Thrown? {
          return Thrown;
        }
        expr := Expr.Binary(expr, operator, right.value);
      }
      return Done(expr);
    }

    /** term -> factor ( ( "-" | "+" ) factor )*, where a leading `-` negates. */
    method Term() returns (out: Outcome<Expr>)
      requires Valid()
      modifies this
      ensures Valid() && Reply(out, State()) == ParseOperand(ComparisonLevel, tokens, old(State()))
      decreases |tokens| - current, 6
    {
      ghost var start := State();
      var m := Match({Minus, Plus});
      if m {
        var operator := Previous();
        ghost var mid := State();
        var right := Factor();
        BinaryLeading(TermLevel, tokens, start, mid, Reply(right, State()));
        if right.Thrown? {
          return right;
        }
        if operator.kind == Plus {
          Error(operator, MissingLeftOperand("+"));
        } else {
          return Done(Expr.Unary(operator, right.value));
        }
        return right;
      }
      var first := Factor();
      BinaryOperand(TermLevel, tokens, start, Reply(first, State()));
      if first.Thrown? {
        return first;
      }
      var expr := first.value;
      ghost var goal := ParseBinaryRest(TermLevel, tokens, State(), expr);
      while true
        invariant Valid() && ParseBinaryRest(TermLevel, tokens, State(), expr) == goal
        decreases |tokens| - current
      {
        ghost var before := State();
        m := Match({Minus, Plus});
        if !m {
          RestStop(TermLevel, tokens, before, expr);
          break;
        }
        var operator := Previous();
        ghost var mid := State();
        var right := Factor();
        RestStep(TermLevel, tokens, before, mid, expr, Reply(right, State()));
        if right.Thrown? {
          return Thrown;
        }
        expr := Expr.Binary(expr, operator, right.value);
      }
      return Done(expr);
    }

    /** factor -> unary ( ( "/" | "*" ) unary )* */
    method Factor() returns (out: Outcome<Expr>)
      requires Valid()
      modifies this
      ensures Valid() && Reply(out, State()) == ParseOperand(TermLevel, tokens, old(State()))
      decreases |tokens| - current, 4
    {
      ghost var start := State();
      var m := Match({Slash, Star});
      if m {
        var operator := Previous();
        ghost var mid := State();
        var right := Unary();
        BinaryLeading(FactorLevel, tokens, start, mid, Reply(right, State()));
        if right.Thrown? {
          return right;
        }
        Error(operator, MissingLeftOperand(operator.lexeme));
        return right;
      }
      var first := Unary();
      BinaryOperand(FactorLevel, tokens, start, Reply(first, State()));
      if first.Thrown? {
        return first;
      }
      var expr := first.value;
      ghost var goal := ParseBinaryRest(FactorLevel, tokens, State(), expr);
      while true
        invariant Valid() && ParseBinaryRest(FactorLevel, tokens, State(), expr) == goal
        decreases |tokens| - current
      {
        ghost var before := State();
        m := Match({Slash, Star});
        if !m {
          RestStop(FactorLevel, tokens, before, expr);
          break;
        }
        var operator := Previous();
        ghost var mid := State();
        var right := Unary();
        RestStep(FactorLevel, tokens, before, mid, expr, Reply(right, State()));
        if right.Thrown? {
          return Thrown;
        }
        expr := Expr.Binary(expr, operator, right.value);
      }
      return Done(expr);
    }

    /** unary -> ( "!" | "-" ) unary | primary */
    method Unary() returns (out: Outcome<Expr>)
      requires Valid()
      modifies this
      ensures Valid() && Reply(out, State()) == ParseOperand(FactorLevel, tokens, old(State()))
      decreases |tokens| - current, 1
    {
      var m := Match({Bang, Minus});
      if m {
        var operator := Previous();
        var right := Unary();
        if right.Thrown? {
          return right;
        }
        return Done(Expr.Unary(operator, right.value));
      }
      out := Primary();
    }

    method Primary() returns (out: Outcome<Expr>)
      requires Valid()
      modifies this
      ensures Valid() && Reply(out, State()) == ParsePrimary(tokens, old(State()))
      decreases |tokens| - current, 0
    {
      var m := Match({False});
      if m {
        return Done(Literal(BoolValue(false)));
      }
      m := Match({True});
      if m {
        return Done(Literal(BoolValue(true)));
      }
      m := Match({Nil});
      if m {
        return Done(Literal(NilValue));
      }
      m := Match({Number, String});
      if m {
        return Done(Literal(TokenValue(Previous().literal)));
      }
      m := Match({Identifier});
      if m {
        return Done(Variable(Previous()));
      }
      m := Match({LeftParen});
      if m {
        var expr := Expression();
        if expr.Thrown? {
          return expr;
        }
        var close := Consume(RightParen, ExpectRightParen);
        if close.Thrown? {
          return Thrown;
        }
        return Done(Grouping(expr.value));
      }
      Error(Peek(), ExpectExpression);
      return Thrown;
    }
  }
  /** Assignment when no `=` follows the target, or the target throws. */
  lemma AssignmentTarget(ts: seq<Token>, c: Cursor, e: Reply<Expr>)
    requires InRange(ts, c.pos) && e == ParseBinary(EqualityLevel, ts, c)
    ensures e.out.Thrown? ==> ParseAssignment(ts, c) == e
    ensures e.out.Done? && !MatchAt(ts, e.at.pos, {Equal}) ==> ParseAssignment(ts, c) == e
  {
  }

  /** Assignment once the `=` after the target has been consumed. */
  lemma AssignmentValue(ts: seq<Token>, c: Cursor, e: Reply<Expr>, d: Cursor, v: Reply<Expr>)
    requires InRange(ts, c.pos) && e == ParseBinary(EqualityLevel, ts, c)
    requires e.out.Done? && MatchAt(ts, e.at.pos, {Equal})
    requires d == Skip(ts, e.at) && v == ParseAssignment(ts, d)
    ensures v.out.Thrown? ==> ParseAssignment(ts, c) == v
    ensures v.out.Done? && e.out.value.Variable? ==>
              ParseAssignment(ts, c) == Reply(Done(Assign(e.out.value.name, v.out.value)), v.at)
    ensures v.out.Done? && !e.out.value.Variable? ==>
              ParseAssignment(ts, c) == Reply(e.out, Report(v.at, ts[e.at.pos], InvalidTarget))
  {
  }

  /** One turn of the comma loop. */
  lemma CommaStep(ts: seq<Token>, c: Cursor, d: Cursor, left: Expr, right: Reply<Expr>)
    requires InRange(ts, c.pos) && MatchAt(ts, c.pos, {Comma})
    requires d == Skip(ts, c) && right == ParseTernaryOperand(ts, d)
    ensures right.out.Thrown? ==> ParseCommaRest(ts, c, left) == Reply(Thrown, right.at)
    ensures right.out.Done? ==>
              ParseCommaRest(ts, c, left) == ParseCommaRest(ts, right.at, Binary(left, ts[c.pos], right.out.value))
  {
  }

  /** The comma loop ends at a token other than `,`. */
  lemma CommaStop(ts: seq<Token>, c: Cursor, left: Expr)
    requires InRange(ts, c.pos) && !MatchAt(ts, c.pos, {Comma})
    ensures ParseCommaRest(ts, c, left) == Reply(Done(left), c)
  {
  }

  /** A level whose first token is one of its operators: there is no left operand. */
  lemma BinaryLeading(lv: Level, ts: seq<Token>, c: Cursor, d: Cursor, right: Reply<Expr>)
    requires InRange(ts, c.pos) && MatchAt(ts, c.pos, Operators(lv))
    requires d == Skip(ts, c) && right == ParseOperand(lv, ts, d)
    ensures right.out.Thrown? ==> ParseBinary(lv, ts, c) == right
    ensures right.out.Done? && lv != TermLevel ==>
              ParseBinary(lv, ts, c) == Reply(right.out, Report(right.at, ts[c.pos], MissingLeftOperand(ts[c.pos].lexeme)))
    ensures right.out.Done? && lv == TermLevel && ts[c.pos].kind == Plus ==>
              ParseBinary(lv, ts, c) == Reply(right.out, Report(right.at, ts[c.pos], MissingLeftOperand("+")))
    ensures right.out.Done? && lv == TermLevel && ts[c.pos].kind != Plus ==>
              ParseBinary(lv, ts, c) == Reply(Done(Unary(ts[c.pos], right.out.value)), right.at)
  {
  }

  /** A level that starts with its first operand, followed by the operator loop. */
  lemma BinaryOperand(lv: Level, ts: seq<Token>, c: Cursor, left: Reply<Expr>)
    requires InRange(ts, c.pos) && !MatchAt(ts, c.pos, Operators(lv))
    requires left == ParseOperand(lv, ts, c)
    ensures left.out.Thrown? ==> ParseBinary(lv, ts, c) == left
    ensures left.out.Done? ==> ParseBinary(lv, ts, c) == ParseBinaryRest(lv, ts, left.at, left.out.value)
  {
  }

  /** One turn of a binary level's operator loop. */
  lemma RestStep(lv: Level, ts: seq<Token>, c: Cursor, d: Cursor, left: Expr, right: Reply<Expr>)
    requires InRange(ts, c.pos) && MatchAt(ts, c.pos, Operators(lv))
    requires d == Skip(ts, c) && right == ParseOperand(lv, ts, d)
    ensures right.out.Thrown? ==> ParseBinaryRest(lv, ts, c, left) == Reply(Thrown, right.at)
    ensures right.out.Done? ==>
              ParseBinaryRest(lv, ts, c, left) == ParseBinaryRest(lv, ts, right.at, Binary(left, ts[c.pos], right.out.value))
  {
  }

  /** The operator loop ends at a token that is not one of the level's operators. */
  lemma RestStop(lv: Level, ts: seq<Token>, c: Cursor, left: Expr)
    requires InRange(ts, c.pos) && !MatchAt(ts, c.pos, Operators(lv))
    ensures ParseBinaryRest(lv, ts, c, left) == Reply(Done(left), c)
  {
  }
}
