/** Option and Result, for lookups that may find nothing and for operations
    that PHP ends with an exception. */
module Wrappers {

  datatype Option<+T> = None | Some(value: T)

  datatype Result<+T> = Ok(value: T) | Thrown(message: string)
}
