/** Failure-carrying results shared by every module of the model.

    The configuration engine is written in Python and signals its failures by
    raising exceptions; callers either catch them (a lookup falls back to a
    default) or let them propagate.  `Exception` names the exceptions that
    matter to the model, and `Result` carries either a value or the exception
    that escaped.
 */
module Wrappers {

  datatype Option<+T> = None | Some(value: T)
  {
    function GetOr(default: T): T
    {
      match this
      case Some(v) => v
      case None => default
    }
  }

  /** The Python exceptions the engine raises or lets escape.
      `RecursionError` stands for running out of interpolation fuel: the source
      has no cycle guard and overflows Python's stack instead.
      `Unsupported` marks an input the model deliberately does not cover. */
  datatype Exception =
    | KeyError
    | TypeError
    | IndexError
    | ValueError
    | RecursionError
    | Unsupported

  datatype Result<+T> = Ok(value: T) | Err(error: Exception)
  {
    predicate IsFailure()
    {
      Err?
    }

    function PropagateFailure<U>(): Result<U>
      requires Err?
    {
      Err(error)
    }

    function Extract(): T
      requires Ok?
    {
      value
    }
  }
}
