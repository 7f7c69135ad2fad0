/** A value that may be absent; success, or the class of the exception that basic_json throws. */
module Outcome {

  datatype Option<T> = None | Some(value: T)

  datatype Error =
    | InvalidArgument // std::invalid_argument
    | OutOfRange      // std::out_of_range
    | DomainError     // std::domain_error
    | LengthError     // std::length_error: an array cannot grow to the requested index
    | AssertionFailed // assert(false)

  datatype Result<+T> = Ok(value: T) | Err(error: Error) {

    predicate IsFailure() {
      Err?
    }

    function PropagateFailure<U>(): Result<U>
      requires Err?
    {
      Err(error)
    }

    function Extract(): T
      requires Ok?
    {
      value
    }
  }
}
