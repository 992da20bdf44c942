/** Option and Result, the failure-carrying values used throughout the model. */
module Wrappers {

  datatype Option<+T> = None | Some(value: T) {
    function GetOr(default: T): T {
      match this
      case Some(v) => v
      case None => default
    }
  }

  /** The exceptions the source can throw. */
  datatype Error =
    /** a variant marked multiPass returned two or more handlers */
    | MultiPassArray
    /** more than 500 handlers were applied in one branch; carries the raw token */
    | TooManyVariants(raw: string)
    /** a value that is not a function was called (a JavaScript TypeError) */
    | NotAFunction(callee: string)
    /** a member of `undefined` was read (a JavaScript TypeError); carries the member */
    | UndefinedRead(member: string)

  datatype Result<+T> = Ok(value: T) | Err(error: Error) {
    predicate IsFailure() { Err? }
    function PropagateFailure<U>(): Result<U>
      requires Err?
    {
      Err(error)
    }
    function Extract(): T
      requires Ok?
    {
      value
    }
  }
}
