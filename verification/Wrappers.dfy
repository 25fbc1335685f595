/** Values that may be absent, and results that may fail as Python's ValueError does. */
module Wrappers {

  datatype Option<+T> = None | Some(value: T)

  datatype Result<+T> = Ok(value: T) | ValueError {
    predicate IsFailure() {
      ValueError?
    }

    function PropagateFailure<U>(): Result<U>
      requires ValueError?
    {
      ValueError
    }

    function Extract(): T
      requires Ok?
    {
      value
    }
  }
}
