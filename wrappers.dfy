/**
 * Failure-carrying datatypes, and the Python exceptions the tools raise on
 * malformed data. An exception that escapes a function is modelled as an
 * `Err` result instead of a precondition that forbids the malformed input.
 */
module Wrappers {

  datatype Option<+T> = None | Some(value: T)

  datatype Result<+T, +E> = Ok(value: T) | Err(error: E)

  /** The built-in Python exceptions raised by the modelled code. */
  datatype PyError =
    | KeyError(key: string)      // a missing dictionary key
    | ValueError(text: string)   // `int(...)` or a format spec applied to an unsuitable value
    | IndexError                 // a list index past the end
    | TypeError                  // an ordering comparison between a number and a string
}
