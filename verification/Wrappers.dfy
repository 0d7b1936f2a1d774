module Wrappers {
  datatype Option<+T> = None | Some(value: T)

  /** A Go result pair: a value, or an error whose text is not modelled. */
  datatype Result<+T> = Ok(value: T) | Err
}
