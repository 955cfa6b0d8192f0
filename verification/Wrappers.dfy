/** Failure-carrying results and optional values shared by the whole model. */
module Wrappers {

  datatype Option<+T> = None | Some(value: T) {
    predicate IsFailure() { None? }

    function PropagateFailure<U>(): Option<U>
      requires None?
    {
      None
    }

    function Extract(): T
      requires Some?
    {
      value
    }
  }

  /** A thrown `std::runtime_error` is an `Err`; its message text is not modelled. */
  datatype Result<+T> = Ok(value: T) | Err
}
