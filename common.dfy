/** Values shared by every module of the model: an optional value, the
    exceptions the modelled Python and Rust code can raise, and a result type
    that carries either a value or the exception that was raised. */
module Common {

  datatype Option<+T> = None | Some(value: T)

  /** The operating system a program runs on (`std::env::consts::OS`). */
  datatype Os = Windows | Linux | MacOs | OtherOs(name: string)

  /** The exception classes raised by the modelled code. A Python `raise`
      (or a failing `assert`, a missing dictionary key, ...) becomes `Err(e)`. */
  datatype Exception =
    | ValueError(msg: string)
    | KeyError(key: string)
    | AssertionError(msg: string)
    | IndexError
    | TypeError(msg: string)
    | AttributeError(msg: string)
    | NameError(name: string)
    | RuntimeError(msg: string)
    | OverflowError
    | StructError
    | NetworkXError(msg: string)
    | CalledProcessError(returncode: int)
    | GenericException(msg: string)

  datatype Result<+T> = Ok(value: T) | Err(error: Exception) {
    predicate IsFailure() { Err? }

    function PropagateFailure<U>(): Result<U>
      requires Err?
    {
      Err(error)
    }

    function Extract(): T
      requires Ok?
    {
      value
    }
  }
}
