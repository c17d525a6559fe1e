/** Result types shared by the other modules. */
module Wrappers {

  datatype Option<+T> = None | Some(value: T)

  /** A call that may end in one of the shell's error exits. */
  datatype Result<+T, +E> = Ok(value: T) | Err(error: E)
}
