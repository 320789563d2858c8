/** Failure-compatible wrappers shared by every module of the model. */
module Wrappers {

  datatype Option<+T> = None | Some(value: T)

  /** The classes of Ruby exception that the modelled code raises. */
  datatype ErrorKind =
    | RuntimeError         // `raise "..."` and `raise RuntimeError, "..."`
    | ArgumentError
    | NotImplementedError
    | NoMethodError        // a method called on `nil` or on a value that lacks it
    | InterpreterError     // the interpreter's own `Error.new(self, "...")`
    | UnsupportedName      // a primitive name that is not a symbol (see README)
    | FuelExhausted        // the model's bound on loop iterations ran out (see README)

  datatype Exception = Exception(kind: ErrorKind, message: string)

  /** A computation that either returns a value or raises an exception. */
  datatype Result<+T> = Ok(value: T) | Err(error: Exception) {
    predicate IsFailure() { Err? }
    function PropagateFailure<U>(): Result<U>
      requires Err?
    {
      Err(error)
    }
    function Extract(): T
      requires Ok?
    {
      value
    }
  }
}
