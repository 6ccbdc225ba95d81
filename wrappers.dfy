/** Option and Result values for the lookups and the exceptions of the modelled code. */
module Wrappers {

  datatype Option<+T> = None | Some(value: T)

  /** The exception kinds the modelled Python code raises. */
  datatype Error =
    | AssertionError(msg: string)
    | KeyError(msg: string)
    | IndexError(msg: string)
    | ValueError(msg: string)
    | TypeError(msg: string)
    | FileNotFoundError(msg: string)
    | SearchError(msg: string)
    | RecursionError(msg: string)

  datatype Result<+T> = Ok(value: T) | Err(error: Error)
}
