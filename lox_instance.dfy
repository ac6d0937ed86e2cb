/** An instance of a class: a mutable map of fields. */
module Instances {
  import opened Tokens
  import opened Values

  /** The class an instance belongs to; only its name is observed here. */
  datatype LoxClass = LoxClass(name: string)

  /** The error for reading a missing field; its message has no final period. */
  function UndefinedProperty(property: Token): RuntimeError {
    RuntimeError(property, "Undefined property '" + property.lexeme + "'")
  }

  /** Reading a field of a field map. */
  function FieldLookup(fields: map<string, Value>, property: Token): (r: Result<Value>)
    ensures r.Ok? <==> property.lexeme in fields
    ensures r.Ok? ==> r.value == fields[property.lexeme]
    ensures r.Err? ==> r.error == UndefinedProperty(property)
  {
    if property.lexeme !in fields then Err(UndefinedProperty(property)) else Ok(fields[property.lexeme])
  }

  /** A field reads back the value last stored under its name. */
  lemma GetAfterSet(fields: map<string, Value>, name: Token, value: Value, property: Token)
    requires property.lexeme == name.lexeme
    ensures FieldLookup(fields[name.lexeme := value], property) == Ok(value)
  {
  }

  /** Storing one field leaves every other field as it was, missing ones included. */
  lemma SetKeepsOthers(fields: map<string, Value>, name: Token, value: Value, property: Token)
    requires property.lexeme != name.lexeme
    ensures FieldLookup(fields[name.lexeme := value], property) == FieldLookup(fields, property)
  {
  }

  class LoxInstance {
    const klass: LoxClass
    var fields: map<string, Value>

    constructor (klass: LoxClass)
      ensures this.klass == klass && fields == map[]
    {
      this.klass := klass;
      fields := map[];
    }

    method Get(property: Token) returns (r: Result<Value>)
      ensures r == FieldLookup(fields, property)
    {
      if property.lexeme !in fields {
        return Err(UndefinedProperty(property));
      }
      return Ok(fields[property.lexeme]);
    }

    /** Creates the field or overwrites it; never fails. */
    method Set(name: Token, value: Value)
      modifies this
      ensures fields == old(fields)[name.lexeme := value]
    {
      fields := fields[name.lexeme := value];
    }

    /** The display form: the class name followed by " instance". */
    function ToString(): (s: string)
      ensures |s| == |klass.name| + 9
      ensures s[..|klass.name|] == klass.name && s[|klass.name|..] == " instance"
    {
      klass.name + " instance"
    }
  }
}
