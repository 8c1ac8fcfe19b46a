/** Option and Result, the two failure-carrying shapes of the source's Rust code. */
module Wrappers {

  datatype Option<+T> = None | Some(value: T) {
    /** The contained value, or `default` when absent (`Option::unwrap_or`). */
    function GetOr(default: T): T {
      match this
      case Some(v) => v
      case None => default
    }
  }

  datatype Result<+R, +E> = Success(value: R) | Failure(error: E)
}

/** The failures the proxy distinguishes; each one becomes the generic error envelope of src/error/mod.rs. */
module Errors {

  datatype ProxyError =
    | PoolCheckout          // r2d2 pool `get` failed
    | InvalidUri            // the rewritten target did not parse as a URI
    | StoreRead             // a Redis GET failed
    | OriginRequest         // the hyper client request failed
    | DecodeFailed          // serde_json could not decode a stored entry
    | BodyRead              // the body stream failed while it was read
    | InvalidUtf8           // String::from_utf8 refused the body bytes
    | InvalidStatus         // StatusCode::from_u16 refused the stored status
    | InvalidHeaderName     // HeaderName::try_from / from_lowercase refused a name
    | InvalidHeaderValue    // HeaderValue::from_bytes / parse refused a value
    | MissingHeaderValue    // add_header was given no value
    | MissingCacheControl   // the message carries no cache-control header
    | SchemeMissing         // ProxyRequest::from unwrapped a URI without a scheme (a panic in the source)
}
