/** The two result shapes the rest of the project shares. */
module Options {

  datatype Option<+T> = None | Some(value: T)

  /** A value, or the reason there is none. Usable with `:-`. */
  datatype Result<+T, +E> = Ok(value: T) | Err(error: E) {
    predicate IsFailure() {
      Err?
    }

    function PropagateFailure<U>(): Result<U, E>
      requires Err?
    {
      Err(error)
    }

    function Extract(): T
      requires Ok?
    {
      value
    }
  }
}
