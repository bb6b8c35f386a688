/** The two result shapes the models share. */
module Wrappers {
  datatype Option<+T> = None | Some(value: T)

  /** `Raised` stands for the exception a Python function leaves by. */
  datatype Result<+T, +E> = Returned(value: T) | Raised(error: E)
}
