/** The error kinds the services report, and what may be missing. */
module Results {
  datatype Option<+T> = None | Some(value: T)

  datatype ErrorKind = Invalid | NotFound | Conflict | Forbidden | Unauthorized | RateLimited | Internal

  datatype Result<+T> = Ok(value: T) | Err(kind: ErrorKind)
}
