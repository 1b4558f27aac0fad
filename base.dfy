/** Shared error and result types: the exceptions the script can raise become values. */
module Base {

  /** The Python exceptions the modelled code can raise. */
  datatype Error =
    | TypeError         // a non-string handed to datetime.strptime
    | ValueError        // a timestamp that does not match the format, or mode of no labels
    | OverflowError     // a shifted timestamp beyond year 9999
    | KeyError(key: int) // a cluster label missing from the tier table

  datatype Option<T> = None | Some(value: T)

  /** A value or the exception that replaced it; usable with `:-`. */
  datatype Result<T> = Ok(value: T) | Err(error: Error) {
    predicate IsFailure() { Err? }

    function PropagateFailure<U>(): Result<U>
      requires Err?
    {
      Err(error)
    }

    function Extract(): T
      requires Ok?
    {
      value
    }
  }
}
