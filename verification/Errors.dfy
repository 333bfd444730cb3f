/** The engine's sentinel errors. */
module Errors {

  datatype Error =
    | ErrConfig
    | ErrNotFound
    | ErrIndexFull
    | ErrPayloadTooLarge
    | ErrClosed
    | ErrBackpressure
    | ErrShardFull
    | ErrPinFailed
    | ErrSystem // an errno passed through from the kernel

  datatype Result<+T> = Ok(value: T) | Err(error: Error)
}
