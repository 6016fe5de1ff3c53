/**
 * Optional values, for C#'s nullable references, and the
 * outcome of an operation that returns a boolean or throws.
 */
module Wrappers {
  datatype Option<+T> = None | Some(value: T)

  /** The runtime exceptions the modelled code can raise. */
  datatype Fault = NullReference | IndexOutOfRange | KeyNotFound | InvalidCast | DuplicateKey

  /** A boolean result, or the exception that ended the call. */
  datatype Outcome = Returned(ok: bool) | Threw(fault: Fault)
}
