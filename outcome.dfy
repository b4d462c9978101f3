/** Failure-carrying results for the Python exceptions that the modelled
    code raises (or, for the bare `except`, swallows). */
module Outcome {

  datatype Option<+T> = None | Some(value: T)

  /** The exceptions that can escape the modelled routines. */
  datatype PyError =
    | ValueError          // int() of a non-integer token, list.index() of a missing item, slice step 0
    | IndexError          // subscript past the end of a list
    | KeyError(key: int)  // dictionary lookup of an absent key
    | NameError           // use of a module that was never imported
    | ZeroDivisionError   // division by a zero column count

  datatype Result<+T> = Ok(value: T) | Err(error: PyError)
}
