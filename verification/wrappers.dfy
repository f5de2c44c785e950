/** Results of operations that can fail. A Go function returning a value and
    an `error` becomes one returning a `Result`: `Ok` with the value when the
    error is nil, `Err` with the error's text otherwise. */
module Wrappers {

  datatype Result<+T> = Ok(value: T) | Err(message: string)
}
