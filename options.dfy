/** The optional and fallible values the bindings pass around: a reply-to
    address that may be missing, a payload that may not decode, a handler
    or a call that may fail. */
module Options {

  datatype Option<+T> = None | Some(value: T)

  datatype Result<+T, +E> = Ok(value: T) | Err(error: E)
}
