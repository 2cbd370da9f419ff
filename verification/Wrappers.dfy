/** Option and Result, and the one error a Motoko trap raises. */
module Wrappers {

  datatype Option<+T> = None | Some(value: T)

  /** A Motoko trap: a failed assert, an index out of bounds, or fixed-width arithmetic out of range. */
  datatype Outcome<+T> = Trap | Value(value: T) {
    predicate IsFailure() {
      Trap?
    }

    function PropagateFailure<U>(): Outcome<U>
      requires Trap?
    {
      Trap
    }

    function Extract(): T
      requires Value?
    {
      value
    }
  }

  datatype Result<+R, +E> = Ok(value: R) | Err(error: E) {
    predicate IsFailure() {
      Err?
    }

    function PropagateFailure<U>(): Result<U, E>
      requires Err?
    {
      Err(error)
    }

    function Extract(): R
      requires Ok?
    {
      value
    }
  }
}
