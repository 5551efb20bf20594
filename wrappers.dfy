/** Option and Result, and the exceptions the modelled code raises. */
module Wrappers {

  /** A reference that may be null. */
  datatype Option<+T> = None | Some(value: T)

  /** The .NET exceptions raised by the modelled code. */
  datatype Error =
    | ArgumentNull(paramName: string)  // ArgumentNullException
    | Argument                         // ArgumentException
    | NotSupported                     // NotSupportedException
    | InvalidOperation                 // InvalidOperationException, also thrown by Single/SingleOrDefault
    | NullReference                    // NullReferenceException

  /** The outcome of a call that either returns a value or throws. */
  datatype Result<+T> = Ok(value: T) | Err(error: Error)
}
