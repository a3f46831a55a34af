/** Failure-carrying results. A Python exception raised by the modelled code
    (an explicit `raise`, a failed `assert`, a missing dictionary key, an index
    out of range) becomes `Err` with a message naming the failure. */
module Wrappers {

  datatype Option<+T> = None | Some(value: T)

  datatype Result<+T> = Ok(value: T) | Err(msg: string) {
    predicate IsFailure() {
      Err?
    }

    function PropagateFailure<U>(): Result<U>
      requires Err?
    {
      Err(msg)
    }

    function Extract(): T
      requires Ok?
    {
      value
    }
  }
}
