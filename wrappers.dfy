/** Failure-compatible result type carrying the Python exception a step raises. */
module Wrappers {

  /** The built-in exceptions the modelled code can raise. */
  datatype PyError =
    | StopIteration   // next() on an exhausted csv reader
    | IndexError      // indexing past the end of a row, popping from an empty list
    | ValueError      // float() of a malformed field, a failed unpack, list.index of a missing name

  datatype Option<T> = None | Some(value: T)

  datatype Result<T> = Ok(value: T) | Err(error: PyError) {
    predicate IsFailure() { Err? }

    function PropagateFailure<U>(): Result<U>
      requires Err?
    {
      Err(error)
    }

    function Extract(): T
      requires Ok?
    {
      value
    }
  }
}
