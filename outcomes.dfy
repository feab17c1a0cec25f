/** Values shared by the three models: Python's `None`-or-value returns and
    the exceptions the source raises. */
module Outcomes {

  /** A Python value that may be `None`. */
  datatype Option<T> = None | Some(value: T)

  /** The exceptions the modelled code can raise. */
  datatype PyError =
    | TypeError            // `x in None`
    | KeyError             // a missing dictionary key
    | IndexError           // a list index past the end
    | ZeroDivisionError    // division by zero
    | NotImplementedError  // raised explicitly by the tic-tac-toe functions
    | ValueError           // `int()` or `float()` of a string that is no number

  /** The result of a call: a value, or the exception it raises. */
  datatype Outcome<T> = Ok(value: T) | Raised(error: PyError)
}
