/** Runtime values and runtime errors shared by the environment, functions and instances. */
module Values {
  import Tokens

  /** A runtime value.  `Hole` marks a variable that is declared but not yet
      initialized.  Numbers keep the scanner's text (no arithmetic is
      modelled); `Reference` stands for any host object (a function, class or
      instance), identified by a number. */
  datatype Value =
    | Nil
    | Hole
    | Boolean(b: bool)
    | Text(s: string)
    | Number(literal: string)
    | Reference(id: nat)

  /** A runtime error carries the offending token and a message. */
  datatype RuntimeError = RuntimeError(token: Tokens.Token, message: string)

  datatype Result<T> = Ok(value: T) | Err(error: RuntimeError)
}
