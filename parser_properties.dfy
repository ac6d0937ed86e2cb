/** Properties of the reference parser: associativity, the shape of the
    trees it builds, its error replies, and what a whole parse returns. */
module ParserProperties {
  import opened Tokens
  import opened Syntax
  import opened ParserSpec

  /** `e` is reached from `tree` by following left operands of binary nodes. */
  predicate OnLeftSpine(e: Expr, tree: Expr) {
    tree == e || (tree.Binary? && OnLeftSpine(e, tree.left))
  }

  /** The loop of a binary level only ever wraps what it has built so far as
      the LEFT operand of a new node, so the first operand stays on the left
      spine of the result. */
  lemma {:induction false} RestKeepsLeftSpine(lv: Level, ts: seq<Token>, c: Cursor, left: Expr)
    requires InRange(ts, c.pos)
    ensures ParseBinaryRest(lv, ts, c, left).out.Done? ==>
              OnLeftSpine(left, ParseBinaryRest(lv, ts, c, left).out.value)
    decreases |ts| - c.pos
  {
    if MatchAt(ts, c.pos, Operators(lv)) {
      var right := ParseOperand(lv, ts, Skip(ts, c));
      if right.out.Done? {
        var node := Binary(left, ts[c.pos], right.out.value);
        RestKeepsLeftSpine(lv, ts, right.at, node);
        var r := ParseBinaryRest(lv, ts, right.at, node);
        if r.out.Done? {
          SpineTransitive(left, node, r.out.value);
        }
      }
    }
  }

  lemma {:induction false} SpineTransitive(a: Expr, b: Expr, tree: Expr)
    requires b.Binary? && b.left == a && OnLeftSpine(b, tree)
    ensures OnLeftSpine(a, tree)
  {
    if tree != b {
      SpineTransitive(a, b, tree.left);
    }
  }

  /** Left associativity: `x op1 y op2 z` parses as `(x op1 y) op2 z` at
      every binary level. */
  lemma LeftAssociative(lv: Level, ts: seq<Token>, c: Cursor,
                        x: Expr, c1: Cursor, y: Expr, c2: Cursor, z: Expr, c3: Cursor)
    requires InRange(ts, c.pos) && !MatchAt(ts, c.pos, Operators(lv))
    requires ParseOperand(lv, ts, c) == Reply(Done(x), c1)
    requires MatchAt(ts, c1.pos, Operators(lv))
    requires ParseOperand(lv, ts, Skip(ts, c1)) == Reply(Done(y), c2)
    requires MatchAt(ts, c2.pos, Operators(lv))
    requires ParseOperand(lv, ts, Skip(ts, c2)) == Reply(Done(z), c3)
    requires !MatchAt(ts, c3.pos, Operators(lv))
    ensures ParseBinary(lv, ts, c) == Reply(Done(Binary(Binary(x, ts[c1.pos], y), ts[c2.pos], z)), c3)
  {
    var xy := Binary(x, ts[c1.pos], y);
    assert ParseBinaryRest(lv, ts, c3, Binary(xy, ts[c2.pos], z)) == Reply(Done(Binary(xy, ts[c2.pos], z)), c3);
    assert ParseBinaryRest(lv, ts, c2, xy) == Reply(Done(Binary(xy, ts[c2.pos], z)), c3);
  }

  /** A leading operator with no left operand: the right operand is returned
      with a diagnostic, except that a leading `-` at the term level builds a
      negation. */
  lemma LeadingOperator(lv: Level, ts: seq<Token>, c: Cursor, y: Expr, c1: Cursor)
    requires InRange(ts, c.pos) && MatchAt(ts, c.pos, Operators(lv))
    requires ParseOperand(lv, ts, Skip(ts, c)) == Reply(Done(y), c1)
    ensures lv == TermLevel && ts[c.pos].kind == Minus ==>
              ParseBinary(lv, ts, c) == Reply(Done(Unary(ts[c.pos], y)), c1)
    ensures lv != TermLevel ==>
              ParseBinary(lv, ts, c) == Reply(Done(y), Report(c1, ts[c.pos], MissingLeftOperand(ts[c.pos].lexeme)))
    ensures lv == TermLevel && ts[c.pos].kind == Plus ==>
              ParseBinary(lv, ts, c) == Reply(Done(y), Report(c1, ts[c.pos], MissingLeftOperand("+")))
  {
  }

  /** No binary level starts a node when the next token is not one of its operators. */
  predicate EndsOperand(k: TokenType) {
    forall lv: Level :: k !in Operators(lv)
  }

  /** An identifier followed by a token that continues no binary level
      parses, at any level, as just that variable. */
  lemma {:induction false} IdentifierOperand(lv: Level, ts: seq<Token>, c: Cursor)
    requires InRange(ts, c.pos) && ts[c.pos].kind == Identifier
    requires c.pos + 1 < |ts| && EndsOperand(ts[c.pos + 1].kind)
    ensures ParseBinary(lv, ts, c) == Reply(Done(Variable(ts[c.pos])), Skip(ts, c))
    ensures ParseOperand(lv, ts, c) == Reply(Done(Variable(ts[c.pos])), Skip(ts, c))
    decreases Height(lv)
  {
    var v := Reply(Done(Variable(ts[c.pos])), Skip(ts, c));
    assert !MatchAt(ts, c.pos, Operators(lv));
    assert !MatchAt(ts, c.pos + 1, Operators(lv));
    match lv {
      case EqualityLevel =>
        IdentifierOperand(ComparisonLevel, ts, c);
      case ComparisonLevel =>
        IdentifierOperand(TermLevel, ts, c);
      case TermLevel =>
        IdentifierOperand(FactorLevel, ts, c);
      case FactorLevel =>
        assert ParsePrimary(ts, c) == v;
        assert ParseUnary(ts, c) == v;
    }
    assert ParseBinaryRest(lv, ts, Skip(ts, c), Variable(ts[c.pos])) == v;
  }

  /** Right associativity of assignment: `a = b = v` parses as `a = (b = v)`. */
  lemma AssignmentRightAssociative(ts: seq<Token>, c: Cursor, v: Expr, d: Cursor)
    requires InRange(ts, c.pos) && c.pos + 4 < |ts|
    requires ts[c.pos].kind == Identifier && ts[c.pos + 1].kind == Equal
    requires ts[c.pos + 2].kind == Identifier && ts[c.pos + 3].kind == Equal
    requires ParseAssignment(ts, Cursor(c.pos + 4, c.diags)) == Reply(Done(v), d)
    ensures ParseAssignment(ts, c) == Reply(Done(Assign(ts[c.pos], Assign(ts[c.pos + 2], v))), d)
  {
    var c2 := Cursor(c.pos + 2, c.diags);
    IdentifierOperand(EqualityLevel, ts, c);
    IdentifierOperand(EqualityLevel, ts, c2);
    assert ParseAssignment(ts, c2) == Reply(Done(Assign(ts[c.pos + 2], v)), d);
  }

  /** Right associativity of the conditional: the else branch is a whole
      conditional, so in `x ? y : z ? u : w` everything after the first `:`
      becomes the else branch, giving `Ternary(x, y, Ternary(z, u, w))`. */
  lemma TernaryRightAssociative(ts: seq<Token>, c: Cursor, x: Expr, c1: Cursor, y: Expr, c2: Cursor, e: Expr, c3: Cursor)
    requires InRange(ts, c.pos)
    requires ParseBinary(EqualityLevel, ts, c) == Reply(Done(x), c1) && MatchAt(ts, c1.pos, {Question})
    requires ParseExpression(ts, Skip(ts, c1)) == Reply(Done(y), c2) && CheckAt(ts, c2.pos, Colon)
    requires ParseTernary(ts, Skip(ts, c2)) == Reply(Done(e), c3)
    ensures ParseTernary(ts, c) == Reply(Done(Ternary(x, y, e)), c3)
  {
  }

  /** A target other than a variable is reported without throwing, and the
      left-hand expression is returned unchanged. */
  lemma InvalidAssignmentTarget(ts: seq<Token>, c: Cursor, x: Expr, c1: Cursor, v: Expr, c2: Cursor)
    requires InRange(ts, c.pos)
    requires ParseBinary(EqualityLevel, ts, c) == Reply(Done(x), c1) && !x.Variable?
    requires MatchAt(ts, c1.pos, {Equal})
    requires ParseAssignment(ts, Skip(ts, c1)) == Reply(Done(v), c2)
    ensures ParseAssignment(ts, c) == Reply(Done(x), Report(c2, ts[c1.pos], InvalidTarget))
  {
  }

  /** Only a variable target ever becomes an assignment node. */
  lemma AssignNeedsVariable(ts: seq<Token>, c: Cursor)
    requires InRange(ts, c.pos)
    requires ParseAssignment(ts, c).out.Done? && ParseAssignment(ts, c).out.value.Assign?
    ensures var e := ParseBinary(EqualityLevel, ts, c);
            e.out.Done? && e.out.value.Variable?
            && ParseAssignment(ts, c).out.value.name == e.out.value.name
            && MatchAt(ts, e.at.pos, {Equal})
  {
    BinaryNeverAssigns(EqualityLevel, ts, c);
  }

  /** Below assignment no production builds an assignment node at the top. */
  lemma {:induction false} BinaryNeverAssigns(lv: Level, ts: seq<Token>, c: Cursor)
    requires InRange(ts, c.pos)
    ensures ParseBinary(lv, ts, c).out.Done? ==> !ParseBinary(lv, ts, c).out.value.Assign?
    ensures ParseOperand(lv, ts, c).out.Done? ==> !ParseOperand(lv, ts, c).out.value.Assign?
    decreases |ts| - c.pos, Height(lv)
  {
    match lv {
      case EqualityLevel => BinaryNeverAssigns(ComparisonLevel, ts, c);
      case ComparisonLevel => BinaryNeverAssigns(TermLevel, ts, c);
      case TermLevel => BinaryNeverAssigns(FactorLevel, ts, c);
      case FactorLevel => UnaryNeverAssigns(ts, c);
    }
    if MatchAt(ts, c.pos, Operators(lv)) {
      BinaryNeverAssigns(lv, ts, Skip(ts, c));
    } else {
      var left := ParseOperand(lv, ts, c);
      if left.out.Done? {
        RestKeepsLeftSpine(lv, ts, left.at, left.out.value);
        SpineNotAssign(left.out.value, ParseBinaryRest(lv, ts, left.at, left.out.value));
      }
    }
  }

  lemma {:induction false} SpineNotAssign(left: Expr, r: Reply<Expr>)
    requires !left.Assign?
    requires r.out.Done? ==> OnLeftSpine(left, r.out.value)
    ensures r.out.Done? ==> !r.out.value.Assign?
  {
  }

  lemma UnaryNeverAssigns(ts: seq<Token>, c: Cursor)
    requires InRange(ts, c.pos)
    ensures ParseUnary(ts, c).out.Done? ==> !ParseUnary(ts, c).out.value.Assign?
  {
  }

  /** Every entry of a parse that reported nothing is a statement. */
  lemma {:induction false} NoFailuresMeansAllParsed(ss: seq<Option<Stmt>>)
    requires Failures(ss) == 0
    ensures forall i :: 0 <= i < |ss| ==> ss[i].Some?
  {
    if ss != [] {
      NoFailuresMeansAllParsed(ss[..|ss| - 1]);
      assert forall i :: 0 <= i < |ss| - 1 ==> ss[..|ss| - 1][i] == ss[i];
    }
  }

  /** A whole parse stops at EOF with at most one entry per token before it,
      and a program whose parse reported no diagnostic has no failed entry. */
  lemma CleanProgram(ts: seq<Token>)
    requires Terminated(ts)
    ensures var r := ParseProgram(ts, Cursor(0, []), []);
            AtEnd(ts, r.at.pos) && |r.out.value| < |ts|
            && (r.at.diags == [] ==> forall i :: 0 <= i < |r.out.value| ==> r.out.value[i].Some?)
  {
    var r := ParseProgram(ts, Cursor(0, []), []);
    if r.at.diags == [] {
      NoFailuresMeansAllParsed(r.out.value);
    }
  }
}
