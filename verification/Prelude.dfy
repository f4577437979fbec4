/** Small datatypes shared by every module. */
module Prelude {
  datatype Option<+T> = None | Some(value: T)

  /** What a call returns. Abort stands for a call that does not return normally:
      an exception nobody catches, or an operation the C++ standard leaves undefined. */
  datatype Result<+T> = Ok(value: T) | Abort
}
