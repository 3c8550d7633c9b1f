/** Result and Option values standing in for the exceptions and nulls of the original program. */
module Wrappers {

  /** The kinds of exception the modelled code throws. */
  datatype Error =
    | ArgumentOutOfRange   // ArgumentOutOfRangeException
    | ArgumentNull         // ArgumentNullException
    | InvalidArgument      // ArgumentException
    | IndexOutOfRange      // IndexOutOfRangeException raised by an array store
    | InvalidOperation     // InvalidOperationException

  datatype Option<+T> = None | Some(value: T)

  datatype Result<+T> = Ok(value: T) | Err(error: Error)
}
