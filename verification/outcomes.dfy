/** Optional values, the data source's error kinds and result values that
    carry either a value or one of those errors (in place of exceptions). */
module Outcomes {

  datatype Option<+T> = None | Some(value: T)

  /** The kinds of failure the database data source can report. */
  datatype Error =
    /** The client was constructed without a connection. */
    | InvalidParameter
    /** An optional capability of the connection (iteration) is absent. */
    | NotImplemented
    /** The requested zone does not exist. */
    | DataSourceError
    /** Anything the backend itself throws; opaque and propagated unchanged. */
    | BackendError(code: int)

  datatype Result<+T> = Ok(value: T) | Err(error: Error)
}
