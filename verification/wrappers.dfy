/** Option and Result types for the scoring pipeline, and the two kinds of
    failure the script can raise on malformed play data. */
module Wrappers {

  datatype Option<+T> = None | Some(value: T)

  /** The exceptions a malformed play record makes the script raise. */
  datatype Error =
    /** Python's IndexError: a split produced fewer fields than the code indexes. */
    | IndexOutOfRange(field: string)
    /** Python's ValueError: `int()` was given text that is not a number. */
    | NotAnInteger(text: string)

  /** Either a value or the error that stopped the computation; usable with `:-`. */
  datatype Result<+T> = Ok(value: T) | Err(error: Error) {

    predicate IsFailure() {
      Err?
    }

    function PropagateFailure<U>(): Result<U>
      requires Err?
    {
      Err(error)
    }

    function Extract(): T
      requires Ok?
    {
      value
    }
  }
}
