/** Shared value types: optional values, results, and the errors the helpers raise. */
module Common {

  datatype Option<+T> = None | Some(value: T)

  /** A botocore `ClientError`: the HTTP status of the response and the provider's message. */
  datatype ClientError = ClientError(httpStatus: int, message: string)

  /** The exceptions that leave the helpers. */
  datatype Error =
    | BuilderError(message: string)
      /** A `BuilderError` raised by the purge; its message is "Cannot empty <what> <id> (<failures>)". */
    | PurgeFailed(what: string, resourceId: string, failures: seq<string>)
    | ProviderError(cause: ClientError)
    | ValueError(message: string)
    | KeyError(key: string)
      /** `re.match(...)` returned None and `.group(1)` was called on it. */
    | NoRegexMatch(subject: string)
      /** A `TypeError` from subscripting the `None` that a lookup returned. */
    | TypeError(message: string)

  datatype Result<+T> = Ok(value: T) | Err(error: Error)

  /** Error message of the timeout shared by every deadline-bounded loop. */
  const TimeoutMessage: string := "Timeout"

  /** Seconds subtracted from the entry time to open a wait window. */
  const GraceSeconds: int := 30

  /** The first instant of a wait window opened at `entry`. */
  function WindowStart(entry: int): (start: int)
    ensures start < entry
  {
    entry - GraceSeconds
  }

  /** The deadline of a wait window opened at `entry` with a timeout of `timeoutMinutes`. */
  function WindowEnd(entry: int, timeoutMinutes: int): (end: int)
    ensures end - WindowStart(entry) == 60 * timeoutMinutes
  {
    WindowStart(entry) + 60 * timeoutMinutes
  }
}
