/** Option and Result values for the lookups and conversions that fail in the
    dashboard script by raising (an empty first-match list, a missing key). */
module Outcomes {

  datatype Option<+T> = None | Some(value: T)

  datatype Result<+T, +E> = Ok(value: T) | Err(error: E)
}
