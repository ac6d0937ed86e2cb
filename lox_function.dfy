/** A user-defined function value: its declaration and the environment it
    closes over.  Calling it binds the arguments in a fresh environment whose
    enclosing scope is the closure; running the body is the interpreter's
    business, so its outcome comes in as a parameter. */
module Functions {
  import opened Tokens
  import opened Syntax
  import opened Values
  import opened Environments

  /** A function declaration: its name token, parameter tokens and body. */
  datatype FunctionDecl = FunctionDecl(name: Token, params: seq<Token>, body: seq<Stmt>)

  /** How executing the body ended: by falling off its end, by a `return`
      carrying a value, or by a runtime error. */
  datatype BodyOutcome = Completed | Returned(returned: Value) | Raised(error: RuntimeError)

  /** The innermost scope of a call: the parameters defined one after the
      other, so that for a repeated name the later argument wins. */
  function Bindings(params: seq<Token>, args: seq<Value>): (m: Scope)
    requires |args| >= |params|
    ensures |m.Keys| <= |params|
  {
    if params == [] then map[]
    else Bindings(params[..|params| - 1], args)[params[|params| - 1].lexeme := args[|params| - 1]]
  }

  /** What `call` returns for each way the body can end. */
  function CallResult(outcome: BodyOutcome): (r: Result<Value>)
    ensures r.Err? <==> outcome.Raised?
    ensures outcome.Raised? ==> r.error == outcome.error
    ensures outcome.Returned? ==> r.value == outcome.returned
    ensures outcome.Completed? ==> r.value == Value.Nil
  {
    match outcome
    case Completed => Ok(Value.Nil)
    case Returned(v) => Ok(v)
    case Raised(e) => Err(e)
  }

  /** The call scope binds exactly the parameter names. */
  lemma {:induction false} BindingsKeys(params: seq<Token>, args: seq<Value>)
    requires |args| >= |params|
    ensures Bindings(params, args).Keys == set j | 0 <= j < |params| :: params[j].lexeme
  {
    if params != [] {
      var n := |params| - 1;
      BindingsKeys(params[..n], args);
      assert forall j :: 0 <= j < n ==> params[..n][j] == params[j];
      assert (set j | 0 <= j < |params| :: params[j].lexeme)
          == (set j | 0 <= j < n :: params[..n][j].lexeme) + {params[n].lexeme};
    }
  }

  /** A parameter is bound to its own argument unless a later parameter has
      the same name. */
  lemma {:induction false} BindingsLastWins(params: seq<Token>, args: seq<Value>, i: nat)
    requires |args| >= |params| && i < |params|
    requires forall j :: i < j < |params| ==> params[j].lexeme != params[i].lexeme
    ensures params[i].lexeme in Bindings(params, args)
    ensures Bindings(params, args)[params[i].lexeme] == args[i]
  {
    var n := |params| - 1;
    if i < n {
      assert params[..n][i] == params[i];
      assert forall j :: i < j < n ==> params[..n][j] == params[j];
      BindingsLastWins(params[..n], args, i);
    }
  }

  /** Inside the call, the corrected lookup of a parameter's name finds its
      argument, whatever the closure binds. */
  lemma ParameterVisible(params: seq<Token>, args: seq<Value>, outer: seq<Scope>, i: nat, name: Token)
    requires |args| >= |params| && i < |params| && name.lexeme == params[i].lexeme
    requires forall j :: i < j < |params| ==> params[j].lexeme != params[i].lexeme
    requires args[i] != Hole
    ensures LookupChain([Bindings(params, args)] + outer, name) == Ok(args[i])
  {
    BindingsLastWins(params, args, i);
  }

  class LoxFunction {
    const declaration: FunctionDecl
    const closure: Environment

    constructor (declaration: FunctionDecl, closure: Environment)
      ensures this.declaration == declaration && this.closure == closure
    {
      this.closure := closure;
      this.declaration := declaration;
    }

    /** The number of arguments a call expects: one per declared parameter. */
    function Arity(): (n: nat)
      ensures n == |declaration.params|
    {
      |declaration.params|
    }

    /** Binds the arguments in a new environment enclosed by the closure and
        maps the body's outcome to the call's result.  Arguments beyond the
        arity are ignored; fewer would be an index error in the source, so
        callers check the count first. */
    method Call(arguments: seq<Value>, outcome: BodyOutcome) returns (result: Result<Value>, environment: Environment)
      requires closure.Valid() && |arguments| >= Arity()
      ensures fresh(environment) && environment.Valid()
      ensures environment.enclosing == closure
      ensures environment.values == Bindings(declaration.params, arguments)
      ensures result == CallResult(outcome)
      ensures closure.Valid() && closure.Chain() == old(closure.Chain())
    {
      environment := new Environment.Enclosed(closure);
      var params := declaration.params;
      for i := 0 to |params|
        invariant fresh(environment) && environment.Valid()
        invariant environment.enclosing == closure && environment.Repr == {environment} + closure.Repr
        invariant environment.values == Bindings(params[..i], arguments)
      {
        assert params[..i + 1][..i] == params[..i];
        environment.Define(params[i].lexeme, arguments[i]);
      }
      assert params[..|params|] == params;
      result := CallResult(outcome);
    }

    /** The display form, from which the function's name can be read back. */
    function ToString(): (s: string)
      ensures |s| == |declaration.name.lexeme| + 5
      ensures s[..4] == "<fn " && s[|s| - 1] == '>' && s[4..|s| - 1] == declaration.name.lexeme
    {
      "<fn " + declaration.name.lexeme + ">"
    }
  }
}
