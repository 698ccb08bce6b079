/** Optional values and results shared by every module of the model. */
module Wrappers {

  /** `None` stands for JavaScript's `null`/`undefined` where the source tests for them. */
  datatype Option<+T> = None | Some(value: T)

  /** `Err` carries what a rejected store operation reports. */
  datatype Result<+T, +E> = Ok(value: T) | Err(error: E)
}
