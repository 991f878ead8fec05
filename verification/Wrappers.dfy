/** Results that may be missing or fail. */
module Wrappers {

  datatype Option<+T> = None | Some(value: T)

  datatype Result<+T> = Ok(value: T) | Invalid {
    predicate IsFailure() { Invalid? }
    function PropagateFailure<U>(): Result<U> requires IsFailure() { Invalid }
    function Extract(): T requires !IsFailure() { value }
  }
}
