/** The error signals raised by the bookkeeping core, and the wrappers that carry them. */
module Outcomes {

  /** The Python exception classes the core raises. */
  datatype Error =
    | TypeError            // malformed DOF specification, unknown code, unregistered caller, missing checkpoint
    | NotImplementedError  // unsupported topology or a method a subclass must override
    | AttributeError       // a method called on None, or an attribute read before it was set
    | IndexError           // an array index beyond the vector's length
    | ValueError           // operands whose shapes cannot be broadcast

  datatype Option<T> = None | Some(value: T)

  /** The value a call returns, or the exception it raises. */
  datatype Result<T> = Ok(value: T) | Err(error: Error)

  /** A call that returns nothing, or the exception it raises. */
  datatype Outcome = Pass | Fail(error: Error)
}
