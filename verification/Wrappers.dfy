/** Optional values and fallible results, shared by every module of the project. */
module Wrappers {

  /** A nullable column or field: `None` stands for SQL NULL or a JavaScript null. */
  datatype Option<+T> = None | Some(value: T)

  /** A call that returns a value or throws. */
  datatype Result<+T, +E> = Ok(value: T) | Err(error: E)
}
