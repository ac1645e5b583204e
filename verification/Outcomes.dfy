/** What a call ends in where the source may index a list out of range. */
module Outcomes {

  /** A value, or a panic. */
  datatype Outcome<+T> = Returned(value: T) | Panicked {
    predicate IsFailure() {
      Panicked?
    }
    function PropagateFailure<U>(): Outcome<U>
      requires Panicked?
    {
      Panicked
    }
    function Extract(): T
      requires Returned?
    {
      value
    }
  }
}
