/** Optional values and the failures a translation fetch can end in. */
module Outcomes {

  /** A value that may be absent: Python's `Optional[...]`. */
  datatype Option<+T> = None | Some(value: T)

  /** The ways a fetch aborts; "not applicable" paths are not failures. */
  datatype Failure =
    | IntegrationNotFound(domain: string)   // the registry knows no such domain
    | LoadError(path: string)               // the file could not be read or parsed
    | NotAMapping(path: string)             // the file parsed, but its top level is not an object

  /** Either a value or the failure that aborted its computation. */
  datatype Result<+T> = Ok(value: T) | Err(failure: Failure)
}
