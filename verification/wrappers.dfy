/** Small failure-carrying datatypes shared by the catalog server and the web client. */
module Wrappers {

  /** A value that may be absent: a missing request field, a failed upload, `NaN`. */
  datatype Option<+T> = None | Some(value: T)

  /** The outcome of a request handler: a reply or an HTTP error. */
  datatype Result<+R, +E> = Ok(value: R) | Err(error: E)
}
