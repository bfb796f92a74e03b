/** Failure-carrying values shared by the whole model: `None` stands for
    Python's `None` result, `Err` for a raised exception. */
module Wrappers {

  datatype Option<+T> = None | Some(value: T)

  datatype Result<+T, +E> = Ok(value: T) | Err(error: E)
}
