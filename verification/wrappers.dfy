/** Option and Result, used for the failures the original reports through Trace.Fail,
    Trace.Assert and .NET exceptions. */
module Wrappers {

  datatype Option<+T> = None | Some(value: T)

  datatype Result<+T, +E> = Ok(value: T) | Err(error: E)
}
