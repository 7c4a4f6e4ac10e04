/** The outcome of an operation that either returns a value or raises a coded fault. */
module Faults {
  datatype Outcome<+T> = Ok(value: T) | Fault(code: string, status: int) {
    predicate IsFailure() {
      Fault?
    }

    function PropagateFailure<U>(): Outcome<U>
      requires Fault?
    {
      Fault(code, status)
    }

    function Extract(): T
      requires Ok?
    {
      value
    }
  }

  datatype Option<+T> = None | Some(value: T)
}
