/** Optional values and results with an error, used for the estimator's state
    and for the errors its operations raise. */
module Outcomes {

  /** Absent (`None`) or present value; stands for a field that may hold `None`. */
  datatype Option<+T> = None | Some(value: T)

  /** The value an operation returns, or the error it raises. */
  datatype Result<+T, +E> = Ok(value: T) | Err(error: E)
}
