# jlox core in Dafny

A model of four pieces of the jlox tree-walking interpreter, with proofs
about each:

- **the parser** (`Parser.java`). It has a cursor over an EOF-terminated
  token list, the cursor primitives, panic-mode recovery (`synchronize`),
  the statement productions and the chain of expression productions
  assignment → equality → comparison → term → factor → unary → primary.
  The comma and ternary productions are modelled too.
- **the environment** (`Environment.java`). Each scope maps names to
  values and may have an enclosing scope. The `HOLE` marker stands for a
  declared but uninitialized variable.
- **the function value** (`LoxFunction.java`). It covers arity, setting
  up the call frame, handling `return`, and the display form.
- **the instance** (`LoxInstance.java`). It is a mutable field map with
  `get`, `set` and the display form.

## Files and modules

| file | module | contents |
|---|---|---|
| `tokens.dfy` | `Tokens` | `TokenType` and `Token` (kind, lexeme, literal payload, line) |
| `syntax.dfy` | `Syntax` | the `Expr` and `Stmt` trees the parser builds |
| `parser_spec.dfy` | `ParserSpec` | pure reference functions, one per production |
| `parser.dfy` | `Parsing` | class `Parser`, with one method per Java method, each proved equal to its reference function |
| `parser_properties.dfy` | `ParserProperties` | associativity, tree shape, error behaviour, whole-program results |
| `values.dfy` | `Values` | runtime values, `RuntimeError`, `Result` |
| `environment.dfy` | `Environments` | scope chains as sequences of maps, and class `Environment` |
| `lox_function.dfy` | `Functions` | call-frame bindings, and class `LoxFunction` |
| `lox_instance.dfy` | `Instances` | field lookup, and class `LoxInstance` |

How the parser is modelled:

- Class `Parser` holds the token list, the cursor `current` and `errors`.
  `errors` is the list of diagnostics handed to the external error sink.
- `ParseError` is the outcome `Thrown`.
- A parsing method's contract is that it returns what the matching
  `ParserSpec` function returns. It also leaves the cursor and the
  diagnostics where that function says.
- Each function of `ParserSpec` is proved "sound": the cursor only moves
  forward and stays on a token, diagnostics are only appended, and
  nothing throws without first reporting a diagnostic.
- The loops of the four binary levels, `parse`, `block` and
  `synchronize` are `while` loops in the class. Each keeps the reference
  function's result on the remaining input as its invariant.
- `match` takes its kinds as a set. A token has exactly one kind, so at
  most one of the listed kinds can succeed, and the order in which Java
  tries them cannot be observed.
- Some contracts name a production through a one-step wrapper. A level's
  method is stated against `ParseOperand` of the level above it: the
  comparison method, for example, against `ParseOperand(EqualityLevel)`,
  which by definition is the comparison level. `Expression` is stated against
  `ParseExpression`, and `Ternary` against `ParseTernaryOperand`; both are
  exactly the production they wrap.

How the environment is modelled:

- Class `Environment` keeps the `values` map and the `enclosing` link.
- Its ghost `Chain()` is the sequence of maps, innermost first.
- Each operation is proved against a function on such sequences.

## Model

| member | source | states |
|---|---|---|
| ParserSpec.Next | src/main/java/com/criskell/jlox/Parser.java:165-175 | advance moves exactly one token forward unless the current token is EOF, where it stays; the cursor always remains a valid index |
| ParserSpec.Skip | src/main/java/com/criskell/jlox/Parser.java:165-168 | consuming a non-EOF token moves the cursor by one, reports nothing, and stays within the list |
| ParserSpec.Report | src/main/java/com/criskell/jlox/Parser.java:183-186 | error leaves the cursor where it is and appends exactly one diagnostic, the given token and message |
| ParserSpec.ConsumeAt | src/main/java/com/criskell/jlox/Parser.java:152-157 | consume succeeds exactly when the current token has the expected kind (never at EOF), returning that token and moving one step; otherwise it reports the given message at the current token and throws with the cursor unmoved |
| ParserSpec.SyncLoop | src/main/java/com/criskell/jlox/Parser.java:195-211 | the recovery loop stops at the first position that is EOF, follows a semicolon, or starts a class/fun/var/for/if/while/print/return, and skips no such position |
| ParserSpec.SyncTarget | src/main/java/com/criskell/jlox/Parser.java:192-212 | synchronize advances once and then stops at the first boundary; when not at EOF it moves at least one token, and it never passes EOF |
| ParserSpec.ParseExpression | src/main/java/com/criskell/jlox/Parser.java:97-99 | expression is assignment, with the same soundness: cursor only forward, no throw without a diagnostic |
| ParserSpec.ParseAssignment | src/main/java/com/criskell/jlox/Parser.java:77-95 | assignment never moves the cursor backward or past EOF, and never throws without a diagnostic |
| ParserSpec.ParseBinary | src/main/java/com/criskell/jlox/Parser.java:214-313 | each binary level (equality, comparison, term, factor) moves the cursor only forward and throws only after a diagnostic |
| ParserSpec.ParseOperand | src/main/java/com/criskell/jlox/Parser.java:225 | the operand of each level is the next tighter production, with the same soundness |
| ParserSpec.ParseBinaryRest | src/main/java/com/criskell/jlox/Parser.java:227-237 | the operator loop of a level moves the cursor only forward and throws only after a diagnostic |
| ParserSpec.ParseUnary | src/main/java/com/criskell/jlox/Parser.java:317-328 | unary moves the cursor only forward and throws only after a diagnostic |
| ParserSpec.ParsePrimary | src/main/java/com/criskell/jlox/Parser.java:330-351 | primary moves the cursor only forward; when the current token starts no primary it reports "Expect expression." at that token and throws, without moving |
| ParserSpec.ParseTernary | src/main/java/com/criskell/jlox/Parser.java:125-139 | the (unreachable) ternary production moves the cursor only forward and throws only after a diagnostic |
| ParserSpec.ParseComma | src/main/java/com/criskell/jlox/Parser.java:112-123 | the (unreachable) comma production moves the cursor only forward and throws only after a diagnostic |
| ParserSpec.ParseCommaRest | src/main/java/com/criskell/jlox/Parser.java:115-120 | the comma loop moves the cursor only forward and throws only after a diagnostic |
| ParserSpec.ParseExpressionStatement | src/main/java/com/criskell/jlox/Parser.java:60-64 | an expression statement that succeeds has consumed at least one token; failure comes with a diagnostic |
| ParserSpec.ParsePrintStatement | src/main/java/com/criskell/jlox/Parser.java:41-45 | a print statement that succeeds has consumed at least one token; failure comes with a diagnostic |
| ParserSpec.ParseVarDeclaration | src/main/java/com/criskell/jlox/Parser.java:47-58 | a variable declaration that succeeds has consumed at least one token; failure comes with a diagnostic |
| ParserSpec.ParseStatement | src/main/java/com/criskell/jlox/Parser.java:34-39 | a statement that succeeds has consumed at least one token; failure comes with a diagnostic |
| ParserSpec.ParseBlock | src/main/java/com/criskell/jlox/Parser.java:66-75 | a block that succeeds has consumed at least one token, and the last token it consumed is `}`; failure comes with a diagnostic |
| ParserSpec.ParseBlockBody | src/main/java/com/criskell/jlox/Parser.java:69-71 | the loop of block never throws (declaration catches every ParseError) and moves only forward |
| ParserSpec.ParseDeclaration | src/main/java/com/criskell/jlox/Parser.java:101-110 | a declaration started before EOF never throws and strictly advances the cursor, stopping on a token; a failed one (null) has reported a diagnostic |
| ParserSpec.ParseProgram | src/main/java/com/criskell/jlox/Parser.java:24-32 | parse terminates at EOF, keeps the entries already collected, adds at most one entry per remaining token, and has no more failed (null) entries than diagnostics |
| Parsing.Parser.constructor | src/main/java/com/criskell/jlox/Parser.java:16-21 | a new parser starts at the first token with no diagnostics |
| Parsing.Parser.Parse | src/main/java/com/criskell/jlox/Parser.java:24-32 | the loop returns exactly the reference program parse and leaves cursor and diagnostics where it says |
| Parsing.Parser.Statement | src/main/java/com/criskell/jlox/Parser.java:34-39 | equals the reference statement production |
| Parsing.Parser.PrintStatement | src/main/java/com/criskell/jlox/Parser.java:41-45 | equals the reference print-statement production |
| Parsing.Parser.VarDeclaration | src/main/java/com/criskell/jlox/Parser.java:47-58 | equals the reference variable-declaration production |
| Parsing.Parser.ExpressionStatement | src/main/java/com/criskell/jlox/Parser.java:60-64 | equals the reference expression-statement production |
| Parsing.Parser.Block | src/main/java/com/criskell/jlox/Parser.java:66-75 | the loop of block equals the reference block production |
| Parsing.Parser.Assignment | src/main/java/com/criskell/jlox/Parser.java:77-95 | equals the reference assignment production |
| Parsing.Parser.Expression | src/main/java/com/criskell/jlox/Parser.java:97-99 | expression is exactly assignment |
| Parsing.Parser.Declaration | src/main/java/com/criskell/jlox/Parser.java:101-110 | equals the reference declaration, including recovery by synchronize and the null entry |
| Parsing.Parser.Comma | src/main/java/com/criskell/jlox/Parser.java:112-123 | the loop equals the reference comma production |
| Parsing.Parser.Ternary | src/main/java/com/criskell/jlox/Parser.java:125-139 | equals the reference ternary production |
| Parsing.Parser.Match | src/main/java/com/criskell/jlox/Parser.java:141-150 | match consumes exactly one token iff some listed kind is the current (non-EOF) token's kind, otherwise leaves the cursor unchanged; reports nothing |
| Parsing.Parser.Consume | src/main/java/com/criskell/jlox/Parser.java:152-157 | returns the expected token and advances, or reports at the current token with the given message and throws without moving |
| Parsing.Parser.Check | src/main/java/com/criskell/jlox/Parser.java:159-162 | false at EOF for every kind; otherwise true iff the current token has the kind |
| Parsing.Parser.Advance | src/main/java/com/criskell/jlox/Parser.java:165-168 | moves one token forward unless at EOF and returns the token just before the cursor |
| Parsing.Parser.IsAtEnd | src/main/java/com/criskell/jlox/Parser.java:170-172 | true exactly when the current token is EOF |
| Parsing.Parser.Peek | src/main/java/com/criskell/jlox/Parser.java:174-176 | the current token, always defined because the cursor stays on the list; it is EOF exactly at the end |
| Parsing.Parser.Previous | src/main/java/com/criskell/jlox/Parser.java:179-181 | the token just before the cursor; defined only once a token has been consumed |
| Parsing.Parser.Error | src/main/java/com/criskell/jlox/Parser.java:183-186 | appends one diagnostic (token, message) and leaves the cursor alone |
| Parsing.Parser.Synchronize | src/main/java/com/criskell/jlox/Parser.java:192-212 | the loop leaves the cursor at the reference recovery point and reports nothing |
| Parsing.Parser.Equality | src/main/java/com/criskell/jlox/Parser.java:215-243 | the loop equals the reference equality level |
| Parsing.Parser.Comparison | src/main/java/com/criskell/jlox/Parser.java:246-265 | the loop equals the reference comparison level |
| Parsing.Parser.Term | src/main/java/com/criskell/jlox/Parser.java:268-292 | the loop equals the reference term level, including the leading-minus negation |
| Parsing.Parser.Factor | src/main/java/com/criskell/jlox/Parser.java:294-313 | the loop equals the reference factor level |
| Parsing.Parser.Unary | src/main/java/com/criskell/jlox/Parser.java:317-328 | equals the reference unary production |
| Parsing.Parser.Primary | src/main/java/com/criskell/jlox/Parser.java:330-351 | equals the reference primary production |
| ParserProperties.RestKeepsLeftSpine | src/main/java/com/criskell/jlox/Parser.java:227-237 | the operator loop only wraps the tree built so far as a left operand, so the first operand stays on the left spine of the result |
| ParserProperties.LeftAssociative | src/main/java/com/criskell/jlox/Parser.java:224-242 | at every binary level, `x op1 y op2 z` parses as `Binary(Binary(x, op1, y), op2, z)` |
| ParserProperties.LeadingOperator | src/main/java/com/criskell/jlox/Parser.java:215-301 | a leading operator with no left operand reports "Binary operator '…' missing left-hand operand." and returns the right operand, except that a leading `-` at the term level becomes a Unary node |
| ParserProperties.IdentifierOperand | src/main/java/com/criskell/jlox/Parser.java:339-341 | an identifier not followed by an operator parses at every level as just that variable, consuming one token |
| ParserProperties.AssignmentRightAssociative | src/main/java/com/criskell/jlox/Parser.java:77-95 | `a = b = v` parses as `Assign(a, Assign(b, v))` |
| ParserProperties.TernaryRightAssociative | src/main/java/com/criskell/jlox/Parser.java:125-139 | the else branch is a whole ternary production, so a conditional after the first `:` nests to the right: `x ? y : z ? u : w` is `Ternary(x, y, Ternary(z, u, w))` |
| ParserProperties.InvalidAssignmentTarget | src/main/java/com/criskell/jlox/Parser.java:85-94 | a non-variable target reports "Invalid assignment target." at the `=` without throwing and returns the left expression unchanged |
| ParserProperties.AssignNeedsVariable | src/main/java/com/criskell/jlox/Parser.java:79-89 | an Assign node is built only when the left side parsed as a Variable followed by `=`, and it takes that variable's name |
| ParserProperties.BinaryNeverAssigns | src/main/java/com/criskell/jlox/Parser.java:214-313 | no binary level returns an Assign node |
| ParserProperties.UnaryNeverAssigns | src/main/java/com/criskell/jlox/Parser.java:317-351 | unary and primary never return an Assign node |
| ParserProperties.NoFailuresMeansAllParsed | src/main/java/com/criskell/jlox/Parser.java:101-110 | a statement list without failed entries holds a statement at every index |
| ParserProperties.CleanProgram | src/main/java/com/criskell/jlox/Parser.java:24-32 | from the first token, parse stops at EOF with fewer entries than tokens; with no diagnostic every entry is a statement |
| Environments.AssignChain | src/main/java/com/criskell/jlox/Environment.java:38-50 | assign keeps every scope's set of names (it never creates a binding) and fails, with "Undefined variable '…'", exactly when no scope has the name |
| Environments.DefineChain | src/main/java/com/criskell/jlox/Environment.java:34-36 | define adds the name to the current scope's names with the new value, keeps that scope's other entries, and leaves every enclosing scope as it was |
| Environments.GetChain | src/main/java/com/criskell/jlox/Environment.java:20-32 | get as written only ever fails, with "not initialized" or "Undefined variable" |
| Environments.LookupChain | src/main/java/com/criskell/jlox/Environment.java:20-32 | the corrected get never returns the HOLE marker, and fails only with "not initialized" or "Undefined variable" |
| Environments.GetAlwaysFails | src/main/java/com/criskell/jlox/Environment.java:20-32 | as written, get fails on every chain: "not initialized" when some scope holds HOLE for the name, "Undefined variable" otherwise |
| Environments.GetHoleInCurrentScope | src/main/java/com/criskell/jlox/Environment.java:21-26 | HOLE in the current scope makes get fail with "Variable '…' is not initialized." |
| Environments.GetLosesInitializedValue | src/main/java/com/criskell/jlox/Environment.java:20-32 | for an initialized innermost binding the corrected lookup returns the value while get as written reports the variable undefined |
| Environments.LookupInnermost | src/main/java/com/criskell/jlox/Environment.java:20-32 | the corrected get returns the innermost binding's value, or "not initialized" when that binding is HOLE |
| Environments.LookupUnbound | src/main/java/com/criskell/jlox/Environment.java:29-31 | a name bound in no scope is reported "Undefined variable '…'." |
| Environments.AssignInnermost | src/main/java/com/criskell/jlox/Environment.java:38-47 | assign rewrites the innermost scope that has the name and leaves every other scope unchanged |
| Environments.AssignToHole | src/main/java/com/criskell/jlox/Environment.java:39-41 | assigning a name that holds HOLE succeeds, since only presence is checked |
| Environments.DefineShadows | src/main/java/com/criskell/jlox/Environment.java:34-36 | after define, lookup of the name sees the new value whatever outer scopes bind, and a later assign of any value rewrites exactly that new binding |
| Environments.Environment.constructor | src/main/java/com/criskell/jlox/Environment.java:12-14 | the global environment is one empty scope |
| Environments.Environment.Enclosed | src/main/java/com/criskell/jlox/Environment.java:16-18 | a child environment is an empty scope in front of its parent's chain |
| Environments.Environment.Get | src/main/java/com/criskell/jlox/Environment.java:20-32 | the recursive walk returns what get as written returns, changing nothing |
| Environments.Environment.Lookup | src/main/java/com/criskell/jlox/Environment.java:20-32 | the corrected walk returns the innermost binding, changing nothing |
| Environments.Environment.Define | src/main/java/com/criskell/jlox/Environment.java:34-36 | define inserts or overwrites in the current scope only; enclosing scopes are untouched |
| Environments.Environment.Assign | src/main/java/com/criskell/jlox/Environment.java:38-50 | the recursive walk changes the chain exactly as assign does; when it fails no map changes |
| Functions.BindingsKeys | src/main/java/com/criskell/jlox/LoxFunction.java:27-29 | the call scope binds exactly the parameter names |
| Functions.Bindings | src/main/java/com/criskell/jlox/LoxFunction.java:27-29 | the call scope holds at most one entry per parameter; it needs an argument for every parameter |
| Functions.CallResult | src/main/java/com/criskell/jlox/LoxFunction.java:31-37 | call fails exactly when the body raised, with that error; otherwise it returns the value of `return`, or nil when the body completed |
| Functions.BindingsLastWins | src/main/java/com/criskell/jlox/LoxFunction.java:27-29 | each parameter is bound to the argument at its position; for a repeated name the later position wins |
| Functions.ParameterVisible | src/main/java/com/criskell/jlox/LoxFunction.java:25-29 | inside the new frame a parameter's name resolves to its argument, whatever the closure binds |
| Functions.LoxFunction.constructor | src/main/java/com/criskell/jlox/LoxFunction.java:13-16 | a function value keeps its declaration and closure |
| Functions.LoxFunction.Arity | src/main/java/com/criskell/jlox/LoxFunction.java:19-21 | arity is the number of declared parameters |
| Functions.LoxFunction.Call | src/main/java/com/criskell/jlox/LoxFunction.java:24-38 | call allocates a fresh environment enclosed by the closure, binds the first arity arguments positionally, leaves the closure's chain unchanged, and returns the returned value, nil on completion, or the runtime error |
| Functions.LoxFunction.ToString | src/main/java/com/criskell/jlox/LoxFunction.java:41-43 | the display form is `<fn ` + name + `>`, so the name can be read back from it |
| Instances.FieldLookup | src/main/java/com/criskell/jlox/LoxInstance.java:14-20 | get succeeds exactly for a present field and returns its value; a missing one raises "Undefined property '…'" |
| Instances.GetAfterSet | src/main/java/com/criskell/jlox/LoxInstance.java:19-24 | after set(n, v), get(n) returns v |
| Instances.SetKeepsOthers | src/main/java/com/criskell/jlox/LoxInstance.java:22-24 | set changes only the entry for its name; every other lookup gives what it gave before |
| Instances.LoxInstance.constructor | src/main/java/com/criskell/jlox/LoxInstance.java:10-12 | a new instance has no fields |
| Instances.LoxInstance.Get | src/main/java/com/criskell/jlox/LoxInstance.java:14-20 | get consults only the field map and modifies nothing |
| Instances.LoxInstance.Set | src/main/java/com/criskell/jlox/LoxInstance.java:22-24 | set inserts or overwrites the one entry, without error |
| Instances.LoxInstance.ToString | src/main/java/com/criskell/jlox/LoxInstance.java:27-29 | the display form is the class name followed by " instance" |

## Left out

- `parseLeftAssociative` (Parser.java:355-365) is not modelled. It takes
  a Java `Supplier` and nothing calls it. The four binary levels share
  one reference function, `ParserSpec.ParseBinary`, which is
  parameterised by level instead.
- The comma and ternary productions are modelled, but nothing reaches
  them. `expression` goes straight to `assignment`.
- The `Jlox.error` sink is an external call doing I/O. It becomes the
  `errors` list of the parser, and nothing is printed.
- `ParseError` and `Return` are Java exceptions. They become result
  variants: `Thrown` in the parser, and `BodyOutcome` in a call.
- `Parsing.Parser.constructor` requires the token list to end with EOF.
  The scanner guarantees this, and `peek` relies on it.
- `Parsing.Parser.Advance` requires that the cursor is not on EOF at
  index 0. That case would read index -1 in the source, and no caller
  reaches it.
- `Interpreter.executeBlock` is not part of this model.
  `Functions.LoxFunction.Call` receives the body's outcome as a parameter
  and does not run the body. The `Stmt.Function` node is modelled as the
  standalone `FunctionDecl`.
- `Functions.LoxFunction.Call` requires at least arity arguments. With
  fewer, the source fails at `arguments.get(i)`, and its caller checks
  the count beforehand.
- `LoxCallable.java` is an interface. Dafny traits are not used here, so
  `LoxFunction` carries `Arity` and `Call` directly.
- `LoxTrait.java` (a name and a method map with a `toString`) is not
  modelled; nothing in the core uses it.
- `LoxClass` is reduced to its name. Runtime values reduce several types
  to stand-ins:
  - numbers are kept as their literal text, with no arithmetic;
  - objects are opaque references;
  - literal payloads in tokens are opaque.
- `HOLE` is a distinct value constructor, not a Java object identity.
  HashMap iteration order is never observed.
- Distance-addressed `getAt`/`assignAt`, the resolver, and method lookup
  on instances do not appear in these files and are not modelled.
- `Token` carries its `line` field, but nothing in the model reads it.
  The scanner and the interpreter are not part of this model.

## Findings

| source | as written | input that shows it | evidently intended | confidence | as-written member | corrected member |
|---|---|---|---|---|---|---|
| src/main/java/com/criskell/jlox/Environment.java:20-32 | `get` reads the value of a present, initialized binding and then discards it. It goes on to the enclosing scope, and the outermost scope always throws, so `get` never returns normally. | a global environment holding `a = true`, then `get(a)`: "Undefined variable 'a'." | return the innermost binding's value unless it is `HOLE` | high (follows from the code's control flow; not executed) | Environments.GetLosesInitializedValue | Environments.LookupInnermost |
