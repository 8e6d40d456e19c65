/** The exceptions the analysis functions can raise, and a Result type that
    carries either a value or the exception that would have been raised. */
module Errors {

  /** The Python exception classes that the modelled code can raise. */
  datatype PyError =
    | ValueError         // bad argument to date.replace, unpacking too few values, concatenating nothing
    | OverflowError      // date arithmetic leaving the range of `date`
    | ZeroDivisionError  // the regression's denominator is zero
    | IndexError         // pop from an empty list

  datatype Result<T> = Ok(value: T) | Err(error: PyError)
}
