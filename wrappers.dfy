/** Option and Result values, and the exceptions of the modelled program as data. */
module Wrappers {

  datatype Option<+T> = None | Some(value: T)

  /** The Python exceptions the modelled code raises or lets through. */
  datatype Error =
    | FileExistsError(what: string)
    | FileNotFoundError(what: string)
    | NotADirectoryError(what: string)
    | IsADirectoryError(what: string)
    | PermissionError(what: string)
    | OSError(what: string)
    | SameFileError(what: string)
    | ValueError(what: string)
    | KeyError(what: string)
    | TypeError(what: string)
    | AttributeError(what: string)
    | RuntimeError(what: string)
    | RecursionError
    | IndexError(what: string)
    | StopIteration
    | AssertionError(what: string)

  datatype Result<+T> = Ok(value: T) | Err(error: Error) {
    predicate IsFailure() { Err? }
    function PropagateFailure<U>(): Result<U>
      requires Err?
    {
      Err(error)
    }
    function Extract(): T
      requires Ok?
    {
      value
    }
  }
}
