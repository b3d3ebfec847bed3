// Outcomes of the modelled operations: a value, or the Python exception
// class that zen raises instead of producing one.
module Errors {

  /** The exception classes zen raises or lets through. */
  datatype Error =
    | ParsingException          // zen.ParsingException
    | ComponentCreationError    // zen.ComponentCreationError
    | ValueError
    | IndexError
    | KeyError
    | TypeError                 // arithmetic on the None a scanner returned
    | AttributeError            // a method called on None

  datatype Option<T> = None | Some(value: T)

  datatype Result<T> = Ok(value: T) | Err(error: Error) {
    predicate IsFailure() { Err? }

    function PropagateFailure<U>(): Result<U>
      requires Err?
    {
      Err(error)
    }

    function Extract(): T
      requires Ok?
    {
      value
    }
  }
}
