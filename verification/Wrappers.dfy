/** Option and result types shared by every component model. */
module Wrappers {

  datatype Option<+T> = None | Some(value: T)

  /** `Err` stands for a thrown error; the state that a throwing call leaves behind is the caller's own. */
  datatype Result<+T, +E> = Ok(value: T) | Err(error: E)
}
