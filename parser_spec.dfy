/** A pure reference semantics of the recursive-descent parser.

    Each function takes the token list and a cursor (the index of the current
    token plus every diagnostic reported so far) and returns what the
    corresponding parser method returns together with the cursor it leaves
    behind.  A method that throws a ParseError returns `Thrown`; the cursor is
    kept because recovery continues from wherever the exception left it. */
module ParserSpec {
  import opened Tokens
  import opened Syntax

  /** The parser's error messages.  Diagnostics carry the `Message` value;
      `Text` records the wording the source passes to the sink, for the
      reader, and no contract depends on it. */
  datatype Message =
    | InvalidTarget
    | ExpectExpression
    | ExpectRightParen
    | ExpectColon
    | ExpectSemicolonAfterExpression
    | ExpectSemicolonAfterValue
    | ExpectVariableName
    | ExpectSemicolonAfterDeclaration
    | ExpectRightBrace
    | MissingLeftOperand(lexeme: string)

  function Text(m: Message): string {
    match m
    case InvalidTarget => "Invalid assignment target."
    case ExpectExpression => "Expect expression."
    case ExpectRightParen => "Expect ')' after expression."
    case ExpectColon => "Expect ':' after then branch of ternary expression."
    case ExpectSemicolonAfterExpression => "Expect ';' after expression."
    case ExpectSemicolonAfterValue => "Expect ';' after value."
    case ExpectVariableName => "Expect variable name."
    case ExpectSemicolonAfterDeclaration => "Expect ';' after variable declaration."
    case ExpectRightBrace => "Expect '}' after block."
    case MissingLeftOperand(lexeme) => "Binary operator '" + lexeme + "' missing left-hand operand."
  }

  /** One call of the diagnostic sink: the offending token and the message. */
  datatype Diagnostic = Diagnostic(token: Token, message: Message)

  datatype Cursor = Cursor(pos: nat, diags: seq<Diagnostic>)

  /** Normal return with a value, or a ParseError on its way up. */
  datatype Outcome<T> = Done(value: T) | Thrown

  datatype Reply<T> = Reply(out: Outcome<T>, at: Cursor)

  /** The scanner's output: a non-empty list whose last token is EOF. */
  predicate Terminated(ts: seq<Token>) {
    |ts| > 0 && ts[|ts| - 1].kind == Eof
  }

  predicate InRange(ts: seq<Token>, p: nat) {
    Terminated(ts) && p < |ts|
  }

  predicate AtEnd(ts: seq<Token>, p: nat)
    requires p < |ts|
  {
    ts[p].kind == Eof
  }

  predicate CheckAt(ts: seq<Token>, p: nat, kind: TokenType)
    requires p < |ts|
  {
    !AtEnd(ts, p) && ts[p].kind == kind
  }

  predicate MatchAt(ts: seq<Token>, p: nat, kinds: set<TokenType>)
    requires p < |ts|
  {
    !AtEnd(ts, p) && ts[p].kind in kinds
  }

  /** Where `advance` leaves the cursor. */
  function Next(ts: seq<Token>, p: nat): (q: nat)
    requires InRange(ts, p)
    ensures InRange(ts, q)
    ensures AtEnd(ts, p) ==> q == p
    ensures !AtEnd(ts, p) ==> q == p + 1
  {
    if AtEnd(ts, p) then p else p + 1
  }

  /** The cursor after consuming the current (non-EOF) token. */
  function Skip(ts: seq<Token>, c: Cursor): (d: Cursor)
    requires InRange(ts, c.pos) && !AtEnd(ts, c.pos)
    ensures InRange(ts, d.pos) && d.pos == c.pos + 1 && d.diags == c.diags
  {
    Cursor(c.pos + 1, c.diags)
  }

  /** The cursor after reporting `message` at `token`: the position stays and
      exactly that one diagnostic is appended. */
  function Report(c: Cursor, token: Token, message: Message): (d: Cursor)
    ensures d.pos == c.pos && c.diags <= d.diags && |d.diags| == |c.diags| + 1
    ensures d.diags[|c.diags|] == Diagnostic(token, message)
  {
    Cursor(c.pos, c.diags + [Diagnostic(token, message)])
  }

  /** The cursor only moves forward, stays on a token, and diagnostics are only appended. */
  predicate Moves(ts: seq<Token>, c: Cursor, d: Cursor) {
    c.pos <= d.pos < |ts| && c.diags <= d.diags
  }

  /** A reply keeps the cursor moving forward, and a ParseError is never
      thrown without a diagnostic having been reported first. */
  predicate Sound<T>(ts: seq<Token>, c: Cursor, r: Reply<T>) {
    Moves(ts, c, r.at) && (r.out.Thrown? ==> |r.at.diags| > |c.diags|)
  }


  /** The kinds that begin a statement or declaration, where recovery stops. */
  predicate StartsDeclaration(k: TokenType) {
    k.Class? || k.Fun? || k.Var? || k.For? || k.If? || k.While? || k.Print? || k.Return?
  }

  // ---------------------------------------------------------------- consume

  function ConsumeAt(ts: seq<Token>, c: Cursor, kind: TokenType, message: Message): (r: Reply<Token>)
    requires InRange(ts, c.pos)
    ensures Sound(ts, c, r)
    ensures r.out.Done? <==> CheckAt(ts, c.pos, kind)
    ensures r.out.Done? ==> r == Reply(Done(ts[c.pos]), Skip(ts, c))
    ensures r.out.Thrown? ==> r.at == Report(c, ts[c.pos], message)
  {
    if CheckAt(ts, c.pos, kind) then Reply(Done(ts[c.pos]), Skip(ts, c))
    else Reply(Thrown, Report(c, ts[c.pos], message))
  }

  // ---------------------------------------------------------- synchronize

  /** Recovery may stop at position `q`: at EOF, just after a semicolon, or
      just before a token that begins a declaration or statement. */
  predicate SyncStop(ts: seq<Token>, q: nat)
    requires 0 < q < |ts|
  {
    AtEnd(ts, q) || ts[q - 1].kind == Semicolon || StartsDeclaration(ts[q].kind)
  }

  function SyncLoop(ts: seq<Token>, q: nat): (r: nat)
    requires InRange(ts, q) && q > 0
    ensures q <= r < |ts| && SyncStop(ts, r)
    ensures forall k :: q <= k < r ==> !SyncStop(ts, k)
    decreases |ts| - q
  {
    if SyncStop(ts, q) then q else SyncLoop(ts, q + 1)
  }

  /** Where `synchronize` leaves the cursor: one `advance`, then the first
      position where recovery may stop.  `advance` reads the previous token, so
      position 0 must not be EOF. */
  function SyncTarget(ts: seq<Token>, p: nat): (r: nat)
    requires InRange(ts, p) && (p > 0 || !AtEnd(ts, p))
    ensures p <= r < |ts| && 0 < r && SyncStop(ts, r)
    ensures !AtEnd(ts, p) ==> r > p
    ensures forall k :: Next(ts, p) <= k < r ==> !SyncStop(ts, k)
  {
    SyncLoop(ts, Next(ts, p))
  }

  // ---------------------------------------------------------- expressions

  /** The four left-associative binary precedence levels, loosest first. */
  datatype Level = EqualityLevel | ComparisonLevel | TermLevel | FactorLevel

  function Operators(lv: Level): set<TokenType> {
    match lv
    case EqualityLevel => {BangEqual, EqualEqual}
    case ComparisonLevel => {Greater, GreaterEqual, Less, LessEqual}
    case TermLevel => {Minus, Plus}
    case FactorLevel => {Slash, Star}
  }

  function Height(lv: Level): nat {
    match lv
    case EqualityLevel => 4
    case ComparisonLevel => 3
    case TermLevel => 2
    case FactorLevel => 1
  }

  /** expression -> assignment */
  function ParseExpression(ts: seq<Token>, c: Cursor): (r: Reply<Expr>)
    requires InRange(ts, c.pos)
    ensures Sound(ts, c, r)
    decreases |ts| - c.pos, 12
  {
    ParseAssignment(ts, c)
  }

    /** assignment -> equality ( "=" assignment )? */
  function ParseAssignment(ts: seq<Token>, c: Cursor): (r: Reply<Expr>)
    requires InRange(ts, c.pos)
    ensures Sound(ts, c, r)
    decreases |ts| - c.pos, 11
  {
    var e := ParseBinary(EqualityLevel, ts, c);
    if e.out.Thrown? then e
    else if MatchAt(ts, e.at.pos, {Equal}) then
      var equals := ts[e.at.pos];
      var v := ParseAssignment(ts, Skip(ts, e.at));
      if v.out.Thrown? then v
      else if e.out.value.Variable? then Reply(Done(Assign(e.out.value.name, v.out.value)), v.at)
      else Reply(e.out, Report(v.at, equals, InvalidTarget))
    else e
  }

  /** One binary level: a leading operator without a left operand is
      reported (a leading `-` at the term level is a negation instead);
      otherwise an operand followed by the level's loop. */
  function ParseBinary(lv: Level, ts: seq<Token>, c: Cursor): (r: Reply<Expr>)
    requires InRange(ts, c.pos)
    ensures Sound(ts, c, r)
    decreases |ts| - c.pos, 2 * Height(lv) + 2
  {
    if MatchAt(ts, c.pos, Operators(lv)) then
      var op := ts[c.pos];
      var right := ParseOperand(lv, ts, Skip(ts, c));
      if right.out.Thrown? then right
      else if lv == TermLevel then
        if op.kind == Plus then Reply(right.out, Report(right.at, op, MissingLeftOperand("+")))
        else Reply(Done(Unary(op, right.out.value)), right.at)
      else Reply(right.out, Report(right.at, op, MissingLeftOperand(op.lexeme)))
    else
      var left := ParseOperand(lv, ts, c);
      if left.out.Thrown? then left
      else ParseBinaryRest(lv, ts, left.at, left.out.value)
  }

  /** The production of the next tighter level. */
  function ParseOperand(lv: Level, ts: seq<Token>, c: Cursor): (r: Reply<Expr>)
    requires InRange(ts, c.pos)
    ensures Sound(ts, c, r)
    decreases |ts| - c.pos, 2 * Height(lv) + 1
  {
    match lv
    case EqualityLevel => ParseBinary(ComparisonLevel, ts, c)
    case ComparisonLevel => ParseBinary(TermLevel, ts, c)
    case TermLevel => ParseBinary(FactorLevel, ts, c)
    case FactorLevel => ParseUnary(ts, c)
  }

  /** The `while (match(...))` loop of a binary level, with `left` the
      expression built so far. */
  function ParseBinaryRest(lv: Level, ts: seq<Token>, c: Cursor, left: Expr): (r: Reply<Expr>)
    requires InRange(ts, c.pos)
    ensures Sound(ts, c, r)
    decreases |ts| - c.pos, 0
  {
    if MatchAt(ts, c.pos, Operators(lv)) then
      var op := ts[c.pos];
      var right := ParseOperand(lv, ts, Skip(ts, c));
      if right.out.Thrown? then Reply(Thrown, right.at)
      else ParseBinaryRest(lv, ts, right.at, Binary(left, op, right.out.value))
    else Reply(Done(left), c)
  }

  /** unary -> ( "!" | "-" ) unary | primary */
  function ParseUnary(ts: seq<Token>, c: Cursor): (r: Reply<Expr>)
    requires InRange(ts, c.pos)
    ensures Sound(ts, c, r)
    decreases |ts| - c.pos, 1
  {
    if MatchAt(ts, c.pos, {Bang, Minus}) then
      var op := ts[c.pos];
      var right := ParseUnary(ts, Skip(ts, c));
      if right.out.Thrown? then right
      else Reply(Done(Unary(op, right.out.value)), right.at)
    else ParsePrimary(ts, c)
  }

  function ParsePrimary(ts: seq<Token>, c: Cursor): (r: Reply<Expr>)
    requires InRange(ts, c.pos)
    ensures Sound(ts, c, r)
    ensures !MatchAt(ts, c.pos, {False, True, Nil, Number, String, Identifier, LeftParen}) ==>
              r == Reply(Thrown, Report(c, ts[c.pos], ExpectExpression))
    decreases |ts| - c.pos, 0
  {
    var t := ts[c.pos];
    if MatchAt(ts, c.pos, {False}) then Reply(Done(Literal(BoolValue(false))), Skip(ts, c))
    else if MatchAt(ts, c.pos, {True}) then Reply(Done(Literal(BoolValue(true))), Skip(ts, c))
    else if MatchAt(ts, c.pos, {Nil}) then Reply(Done(Literal(NilValue)), Skip(ts, c))
    else if MatchAt(ts, c.pos, {Number, String}) then Reply(Done(Literal(TokenValue(t.literal))), Skip(ts, c))
    else if MatchAt(ts, c.pos, {Identifier}) then Reply(Done(Variable(t)), Skip(ts, c))
    else if MatchAt(ts, c.pos, {LeftParen}) then
      var e := ParseExpression(ts, Skip(ts, c));
      if e.out.Thrown? then e
      else
        var close := ConsumeAt(ts, e.at, RightParen, ExpectRightParen);
        if close.out.Thrown? then Reply(Thrown, close.at)
        else Reply(Done(Grouping(e.out.value)), close.at)
    else Reply(Thrown, Report(c, t, ExpectExpression))
  }

  /** ternary -> equality ( "?" expression ":" ternary )?  (no caller reaches it) */
  function ParseTernary(ts: seq<Token>, c: Cursor): (r: Reply<Expr>)
    requires InRange(ts, c.pos)
    ensures Sound(ts, c, r)
    decreases |ts| - c.pos, 11
  {
    var cond := ParseBinary(EqualityLevel, ts, c);
    if cond.out.Thrown? then cond
    else if MatchAt(ts, cond.at.pos, {Question}) then
      var thenBranch := ParseExpression(ts, Skip(ts, cond.at));
      if thenBranch.out.Thrown? then thenBranch
      else
        var colon := ConsumeAt(ts, thenBranch.at, Colon, ExpectColon);
        if colon.out.Thrown? then Reply(Thrown, colon.at)
        else
          var elseBranch := ParseTernaryOperand(ts, colon.at);
          if elseBranch.out.Thrown? then elseBranch
          else Reply(Done(Ternary(cond.out.value, thenBranch.out.value, elseBranch.out.value)), elseBranch.at)
    else cond
  }

  /** `ternary` where another production asks for it: each operand of the
      comma operator, and the right-nested else branch. Callers see the
      production through this one step, so their proofs unfold it on demand. */
  function ParseTernaryOperand(ts: seq<Token>, c: Cursor): (r: Reply<Expr>)
    requires InRange(ts, c.pos)
    ensures Sound(ts, c, r)
    decreases |ts| - c.pos, 12
  {
    ParseTernary(ts, c)
  }

  /** comma -> ternary ( "," ternary )*  (no caller reaches it) */
  function ParseComma(ts: seq<Token>, c: Cursor): (r: Reply<Expr>)
    requires InRange(ts, c.pos)
    ensures Sound(ts, c, r)
  {
    var first := ParseTernaryOperand(ts, c);
    if first.out.Thrown? then first
    else ParseCommaRest(ts, first.at, first.out.value)
  }

  function ParseCommaRest(ts: seq<Token>, c: Cursor, left: Expr): (r: Reply<Expr>)
    requires InRange(ts, c.pos)
    ensures Sound(ts, c, r)
    decreases |ts| - c.pos
  {
    if MatchAt(ts, c.pos, {Comma}) then
      var op := ts[c.pos];
      var right := ParseTernaryOperand(ts, Skip(ts, c));
      if right.out.Thrown? then Reply(Thrown, right.at)
      else ParseCommaRest(ts, right.at, Binary(left, op, right.out.value))
    else Reply(Done(left), c)
  }

  // ----------------------------------------------------------- statements

  function ParseExpressionStatement(ts: seq<Token>, c: Cursor): (r: Reply<Stmt>)
    requires InRange(ts, c.pos)
    ensures Sound(ts, c, r)
    ensures r.out.Done? ==> r.at.pos > c.pos
    decreases |ts| - c.pos, 13
  {
    var e := ParseExpression(ts, c);
    if e.out.Thrown? then Reply(Thrown, e.at)
    else
      var semi := ConsumeAt(ts, e.at, Semicolon, ExpectSemicolonAfterExpression);
      if semi.out.Thrown? then Reply(Thrown, semi.at)
      else Reply(Done(Stmt.Expression(e.out.value)), semi.at)
  }

  /** The statement after a consumed `print`. */
  function ParsePrintStatement(ts: seq<Token>, c: Cursor): (r: Reply<Stmt>)
    requires InRange(ts, c.pos)
    ensures Sound(ts, c, r)
    ensures r.out.Done? ==> r.at.pos > c.pos
    decreases |ts| - c.pos, 13
  {
    var e := ParseExpression(ts, c);
    if e.out.Thrown? then Reply(Thrown, e.at)
    else
      var semi := ConsumeAt(ts, e.at, Semicolon, ExpectSemicolonAfterValue);
      if semi.out.Thrown? then Reply(Thrown, semi.at)
      else Reply(Done(Stmt.Print(e.out.value)), semi.at)
  }

  /** The declaration after a consumed `var`. */
  function ParseVarDeclaration(ts: seq<Token>, c: Cursor): (r: Reply<Stmt>)
    requires InRange(ts, c.pos)
    ensures Sound(ts, c, r)
    ensures r.out.Done? ==> r.at.pos > c.pos
    decreases |ts| - c.pos, 13
  {
    var name := ConsumeAt(ts, c, Identifier, ExpectVariableName);
    if name.out.Thrown? then Reply(Thrown, name.at)
    else
      var init: Reply<Option<Expr>> :=
        if MatchAt(ts, name.at.pos, {Equal}) then
          var e := ParseExpression(ts, Skip(ts, name.at));
          if e.out.Thrown? then Reply(Thrown, e.at) else Reply(Done(Some(e.out.value)), e.at)
        else Reply(Done(None), name.at);
      if init.out.Thrown? then Reply(Thrown, init.at)
      else
        var semi := ConsumeAt(ts, init.at, Semicolon, ExpectSemicolonAfterDeclaration);
        if semi.out.Thrown? then Reply(Thrown, semi.at)
        else Reply(Done(Stmt.Var(name.out.value, init.out.value)), semi.at)
  }

  function ParseStatement(ts: seq<Token>, c: Cursor): (r: Reply<Stmt>)
    requires InRange(ts, c.pos)
    ensures Sound(ts, c, r)
    ensures r.out.Done? ==> r.at.pos > c.pos
    decreases |ts| - c.pos, 14
  {
    if MatchAt(ts, c.pos, {TokenType.Print}) then ParsePrintStatement(ts, Skip(ts, c))
    else if MatchAt(ts, c.pos, {LeftBrace}) then
      var b := ParseBlock(ts, Skip(ts, c));
      if b.out.Thrown? then Reply(Thrown, b.at)
      else Reply(Done(Stmt.Block(b.out.value)), b.at)
    else ParseExpressionStatement(ts, c)
  }

  /** The block after a consumed `{`, up to and including its `}`. */
  function ParseBlock(ts: seq<Token>, c: Cursor): (r: Reply<seq<Option<Stmt>>>)
    requires InRange(ts, c.pos)
    ensures Sound(ts, c, r)
    ensures r.out.Done? ==> r.at.pos > c.pos && ts[r.at.pos - 1].kind == RightBrace
    decreases |ts| - c.pos, 17
  {
    var body := ParseBlockBody(ts, c, []);
    var close := ConsumeAt(ts, body.at, RightBrace, ExpectRightBrace);
    if close.out.Thrown? then Reply(Thrown, close.at)
    else Reply(Done(body.out.value), close.at)
  }

  /** The loop of `block`: declarations until `}` or EOF, appended to `acc`. */
  function ParseBlockBody(ts: seq<Token>, c: Cursor, acc: seq<Option<Stmt>>): (r: Reply<seq<Option<Stmt>>>)
    requires InRange(ts, c.pos)
    ensures r.out.Done? && Moves(ts, c, r.at)
    decreases |ts| - c.pos, 16
  {
    if !CheckAt(ts, c.pos, RightBrace) && !AtEnd(ts, c.pos) then
      var d := ParseDeclaration(ts, c);
      ParseBlockBody(ts, d.at, acc + [d.out.value])
    else Reply(Done(acc), c)
  }

  /** A declaration never throws: a failure is recovered by `synchronize`
      and yields `None`.  Either way the cursor strictly advances. */
  function ParseDeclaration(ts: seq<Token>, c: Cursor): (r: Reply<Option<Stmt>>)
    requires InRange(ts, c.pos) && !AtEnd(ts, c.pos)
    ensures r.out.Done? && c.pos < r.at.pos < |ts| && c.diags <= r.at.diags
    ensures r.out.value.None? ==> |r.at.diags| > |c.diags|
    decreases |ts| - c.pos, 15
  {
    var s := if MatchAt(ts, c.pos, {TokenType.Var}) then ParseVarDeclaration(ts, Skip(ts, c))
             else ParseStatement(ts, c);
    if s.out.Thrown? then Reply(Done(None), Cursor(SyncTarget(ts, s.at.pos), s.at.diags))
    else Reply(Done(Some(s.out.value)), s.at)
  }

  /** The number of failed declarations in a statement list. */
  function Failures(ss: seq<Option<Stmt>>): nat {
    if ss == [] then 0
    else Failures(ss[..|ss| - 1]) + (if ss[|ss| - 1].None? then 1 else 0)
  }

  /** program -> declaration* EOF, with the statements parsed so far in `acc`. */
  function ParseProgram(ts: seq<Token>, c: Cursor, acc: seq<Option<Stmt>>): (r: Reply<seq<Option<Stmt>>>)
    requires InRange(ts, c.pos)
    ensures r.out.Done? && Moves(ts, c, r.at) && AtEnd(ts, r.at.pos)
    ensures |acc| <= |r.out.value| && r.out.value[..|acc|] == acc
    ensures |r.out.value| - |acc| <= |ts| - 1 - c.pos
    ensures Failures(r.out.value) - Failures(acc) <= |r.at.diags| - |c.diags|
    decreases |ts| - c.pos
  {
    if AtEnd(ts, c.pos) then Reply(Done(acc), c)
    else
      var d := ParseDeclaration(ts, c);
      ParseProgram(ts, d.at, acc + [d.out.value])
  }
}
