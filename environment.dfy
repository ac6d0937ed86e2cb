/** The environment: one scope's name-to-value map plus an optional
    enclosing environment.  A chain of scopes is viewed, innermost first, as
    a sequence of maps; the functions on such sequences are the reference
    semantics of `define`, `assign` and `get`. */
module Environments {
  import opened Tokens
  import opened Values

  type Scope = map<string, Value>

  function NotInitialized(name: Token): RuntimeError {
    RuntimeError(name, "Variable '" + name.lexeme + "' is not initialized.")
  }

  /** The error `get` raises for a name bound nowhere. */
  function UndefinedOnGet(name: Token): RuntimeError {
    RuntimeError(name, "Undefined variable '" + name.lexeme + "'.")
  }

  /** The error `assign` raises; its message has no final period. */
  function UndefinedOnAssign(name: Token): RuntimeError {
    RuntimeError(name, "Undefined variable '" + name.lexeme + "'")
  }

  /** Scope `k` is the innermost one that binds `key`. */
  predicate InnermostAt(chain: seq<Scope>, key: string, k: nat) {
    k < |chain| && key in chain[k] && forall j :: 0 <= j < k ==> key !in chain[j]
  }

  predicate Unbound(chain: seq<Scope>, key: string) {
    forall j :: 0 <= j < |chain| ==> key !in chain[j]
  }

  /** Some scope of the chain binds `key` to the uninitialized marker. */
  predicate HoleSomewhere(chain: seq<Scope>, key: string) {
    exists j :: 0 <= j < |chain| && key in chain[j] && chain[j][key] == Hole
  }

  /** `define`: bind in the innermost scope only. */
  function DefineChain(chain: seq<Scope>, name: string, value: Value): (r: seq<Scope>)
    requires |chain| > 0
    ensures |r| == |chain| && r[0].Keys == chain[0].Keys + {name} && r[0][name] == value
    ensures forall k :: k in chain[0] && k != name ==> r[0][k] == chain[0][k]
    ensures forall i :: 0 < i < |chain| ==> r[i] == chain[i]
  {
    [chain[0][name := value]] + chain[1..]
  }

  /** `get` as the source writes it: a present, initialized binding is read
      and then ignored, and the walk goes on outward. */
  function GetChain(chain: seq<Scope>, name: Token): (r: Result<Value>)
    requires |chain| > 0
    ensures r == Err(NotInitialized(name)) || r == Err(UndefinedOnGet(name))
    decreases |chain|
  {
    if name.lexeme in chain[0] && chain[0][name.lexeme] == Hole then Err(NotInitialized(name))
    else if |chain| > 1 then GetChain(chain[1..], name)
    else Err(UndefinedOnGet(name))
  }

  /** `get` as evidently intended: the innermost binding decides. */
  function LookupChain(chain: seq<Scope>, name: Token): (r: Result<Value>)
    requires |chain| > 0
    ensures r.Ok? ==> r.value != Hole
    ensures r.Err? ==> r == Err(NotInitialized(name)) || r == Err(UndefinedOnGet(name))
    decreases |chain|
  {
    if name.lexeme in chain[0] then
      if chain[0][name.lexeme] == Hole then Err(NotInitialized(name)) else Ok(chain[0][name.lexeme])
    else if |chain| > 1 then LookupChain(chain[1..], name)
    else Err(UndefinedOnGet(name))
  }

  /** `assign`: rebind in the innermost scope that has the name; never
      creates a binding, and fails when no scope has it. */
  function AssignChain(chain: seq<Scope>, name: Token, value: Value): (r: Result<seq<Scope>>)
    requires |chain| > 0
    ensures r.Ok? ==> |r.value| == |chain| && forall i :: 0 <= i < |chain| ==> r.value[i].Keys == chain[i].Keys
    ensures r.Err? <==> Unbound(chain, name.lexeme)
    ensures r.Err? ==> r.error == UndefinedOnAssign(name)
    decreases |chain|
  {
    if name.lexeme in chain[0] then Ok([chain[0][name.lexeme := value]] + chain[1..])
    else if |chain| > 1 then
      match AssignChain(chain[1..], name, value)
      case Ok(rest) => Ok([chain[0]] + rest)
      case Err(e) => Err(e)
    else Err(UndefinedOnAssign(name))
  }

  // ------------------------------------------------------------- lemmas

  /** As written, `get` never returns a value: it fails with "not
      initialized" when some scope of the chain holds the marker for the
      name, and with "undefined" otherwise, whatever the bindings are. */
  lemma {:induction false} GetAlwaysFails(chain: seq<Scope>, name: Token)
    requires |chain| > 0
    ensures GetChain(chain, name) ==
              if HoleSomewhere(chain, name.lexeme) then Err(NotInitialized(name)) else Err(UndefinedOnGet(name))
    decreases |chain|
  {
    var key := name.lexeme;
    if key in chain[0] && chain[0][key] == Hole {
      assert HoleSomewhere(chain, key);
    } else if |chain| > 1 {
      GetAlwaysFails(chain[1..], name);
      if HoleSomewhere(chain, key) {
        var j :| 0 <= j < |chain| && key in chain[j] && chain[j][key] == Hole;
        assert chain[1..][j - 1] == chain[j];
      }
      if HoleSomewhere(chain[1..], key) {
        var j :| 0 <= j < |chain| - 1 && key in chain[1..][j] && chain[1..][j][key] == Hole;
        assert chain[j + 1] == chain[1..][j];
      }
    }
  }

  /** A marker in the current scope makes `get` fail with "not initialized". */
  lemma GetHoleInCurrentScope(chain: seq<Scope>, name: Token)
    requires |chain| > 0 && name.lexeme in chain[0] && chain[0][name.lexeme] == Hole
    ensures GetChain(chain, name) == Err(NotInitialized(name))
  {
  }

  /** The discrepancy: for an initialized innermost binding and no marker
      anywhere, the corrected lookup returns the value while `get` as written
      reports the variable undefined. */
  lemma GetLosesInitializedValue(chain: seq<Scope>, name: Token, k: nat)
    requires InnermostAt(chain, name.lexeme, k) && !HoleSomewhere(chain, name.lexeme)
    ensures LookupChain(chain, name) == Ok(chain[k][name.lexeme])
    ensures GetChain(chain, name) == Err(UndefinedOnGet(name))
  {
    LookupInnermost(chain, name, k);
    GetAlwaysFails(chain, name);
  }

  /** The corrected lookup is decided by the innermost binding: shadowing is
      by presence of the key, not by its value. */
  lemma {:induction false} LookupInnermost(chain: seq<Scope>, name: Token, k: nat)
    requires InnermostAt(chain, name.lexeme, k)
    ensures LookupChain(chain, name) ==
              if chain[k][name.lexeme] == Hole then Err(NotInitialized(name)) else Ok(chain[k][name.lexeme])
    decreases k
  {
    if k > 0 {
      assert InnermostAt(chain[1..], name.lexeme, k - 1) by {
        forall j | 0 <= j < k - 1 ensures name.lexeme !in chain[1..][j] {
          assert chain[1..][j] == chain[j + 1];
        }
      }
      LookupInnermost(chain[1..], name, k - 1);
    }
  }

  lemma {:induction false} LookupUnbound(chain: seq<Scope>, name: Token)
    requires |chain| > 0 && Unbound(chain, name.lexeme)
    ensures LookupChain(chain, name) == Err(UndefinedOnGet(name))
    decreases |chain|
  {
    if |chain| > 1 {
      assert Unbound(chain[1..], name.lexeme) by {
        forall j | 0 <= j < |chain| - 1 ensures name.lexeme !in chain[1..][j] {
          assert chain[1..][j] == chain[j + 1];
        }
      }
      LookupUnbound(chain[1..], name);
    }
  }

  /** `assign` rewrites the innermost scope that binds the name, and only it. */
  lemma {:induction false} AssignInnermost(chain: seq<Scope>, name: Token, value: Value, k: nat)
    requires InnermostAt(chain, name.lexeme, k)
    ensures AssignChain(chain, name, value) == Ok(chain[k := chain[k][name.lexeme := value]])
    decreases k
  {
    var updated := chain[k][name.lexeme := value];
    if k > 0 {
      assert InnermostAt(chain[1..], name.lexeme, k - 1) by {
        forall j | 0 <= j < k - 1 ensures name.lexeme !in chain[1..][j] {
          assert chain[1..][j] == chain[j + 1];
        }
      }
      AssignInnermost(chain[1..], name, value, k - 1);
      assert name.lexeme !in chain[0];
      ConsUpdate(chain, k, updated);
    } else {
      ConsUpdate(chain, 0, updated);
    }
  }

  /** Updating a chain is updating its head or its tail. */
  lemma ConsUpdate(chain: seq<Scope>, k: nat, m: Scope)
    requires k < |chain|
    ensures k == 0 ==> [m] + chain[1..] == chain[k := m]
    ensures k > 0 ==> [chain[0]] + chain[1..][k - 1 := m] == chain[k := m]
  {
  }

  /** Only presence is checked, so a declared but uninitialized variable can be assigned. */
  lemma AssignToHole(chain: seq<Scope>, name: Token, value: Value)
    requires |chain| > 0 && name.lexeme in chain[0] && chain[0][name.lexeme] == Hole
    ensures AssignChain(chain, name, value) == Ok(DefineChain(chain, name.lexeme, value))
  {
  }

  /** A definition shadows every outer binding of the same name: lookup sees
      the new value, and a later assign of any value `w` rewrites that new
      binding, leaving the chain as if `w` had been defined instead. */
  lemma DefineShadows(chain: seq<Scope>, name: Token, value: Value, w: Value)
    requires |chain| > 0
    ensures LookupChain(DefineChain(chain, name.lexeme, value), name) ==
              if value == Hole then Err(NotInitialized(name)) else Ok(value)
    ensures AssignChain(DefineChain(chain, name.lexeme, value), name, w) == Ok(DefineChain(chain, name.lexeme, w))
  {
    var defined := DefineChain(chain, name.lexeme, value);
    assert defined[0][name.lexeme := w] == chain[0][name.lexeme := w];
    assert [chain[0][name.lexeme := w]] + defined[1..] == DefineChain(chain, name.lexeme, w);
  }

  // --------------------------------------------------------------- class

  class Environment {
    var values: Scope
    const enclosing: Environment?
    /** The environments of the chain, this one included. */
    ghost const Repr: set<Environment>

    ghost predicate Valid()
      decreases Repr
    {
      this in Repr &&
      (enclosing == null ==> Repr == {this}) &&
      (enclosing != null ==>
         enclosing in Repr && this !in enclosing.Repr && Repr == {this} + enclosing.Repr &&
         enclosing.Repr < Repr && enclosing.Valid())
    }

    /** The maps of the chain, innermost first. */
    ghost function Chain(): (ch: seq<Scope>)
      reads Repr
      requires Valid()
      ensures |ch| > 0 && ch[0] == values
      decreases Repr
    {
      [values] + if enclosing == null then [] else enclosing.Chain()
    }

    /** The global environment. */
    constructor ()
      ensures Valid() && enclosing == null && values == map[] && Chain() == [map[]]
    {
      values := map[];
      enclosing := null;
      Repr := {this};
    }

    constructor Enclosed(enclosing: Environment)
      requires enclosing.Valid()
      ensures Valid() && this.enclosing == enclosing && values == map[]
      ensures Repr == {this} + enclosing.Repr
      ensures Chain() == [map[]] + enclosing.Chain()
    {
      values := map[];
      this.enclosing := enclosing;
      Repr := {this} + enclosing.Repr;
    }

    method Get(name: Token) returns (r: Result<Value>)
      requires Valid()
      ensures r == GetChain(Chain(), name)
      decreases Repr
    {
      if name.lexeme in values {
        var value := values[name.lexeme];
        if value == Hole {
          return Err(NotInitialized(name));
        }
      }
      if enclosing != null {
        r := enclosing.Get(name);
        return;
      }
      return Err(UndefinedOnGet(name));
    }

    /** The corrected `get`: returns the innermost binding's value. */
    method Lookup(name: Token) returns (r: Result<Value>)
      requires Valid()
      ensures r == LookupChain(Chain(), name)
      decreases Repr
    {
      if name.lexeme in values {
        var value := values[name.lexeme];
        if value == Hole {
          return Err(NotInitialized(name));
        }
        return Ok(value);
      }
      if enclosing != null {
        r := enclosing.Lookup(name);
        return;
      }
      return Err(UndefinedOnGet(name));
    }

    method Define(name: string, value: Value)
      requires Valid()
      modifies this
      ensures Valid() && values == old(values)[name := value]
      ensures Chain() == DefineChain(old(Chain()), name, value)
    {
      values := values[name := value];
    }

    method Assign(name: Token, value: Value) returns (r: Result<()>)
      requires Valid()
      modifies Repr
      ensures Valid()
      ensures var expected := AssignChain(old(Chain()), name, value);
              (expected.Ok? ==> r == Ok(()) && Chain() == expected.value) &&
              (expected.Err? ==> r == Err(expected.error) && Chain() == old(Chain()))
      decreases Repr
    {
      if name.lexeme in values {
        values := values[name.lexeme := value];
        return Ok(());
      }
      if enclosing != null {
        r := enclosing.Assign(name, value);
        return;
      }
      return Err(UndefinedOnAssign(name));
    }
  }
}
