/** The two result shapes used throughout: an optional value, and the source's
    `io::Result` with the error's text left out. */
module Wrappers {
  datatype Option<+T> = None | Some(value: T)

  datatype Result<+T> = Ok(value: T) | Err
}
