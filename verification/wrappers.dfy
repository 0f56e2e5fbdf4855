/** Option and Result, shared by every stage of the pipeline. */
module Wrappers {

  /** A value that may be absent; `None` plays the role of Python's `None`. */
  datatype Option<+T> = None | Some(value: T)

  /** The outcome of a step that can fail fatally. */
  datatype Result<+T, +E> = Ok(value: T) | Err(error: E)
}
