/** Outcomes shared by every component: optional values and CSI status codes. */
module Results {

  datatype Option<+T> = None | Some(value: T)

  /** The gRPC status codes the controller and the node service return. */
  datatype Code = InvalidArgument | NotFound | Internal | Aborted | FailedPrecondition

  datatype Result<+T> = Ok(value: T) | Err(code: Code)

  /** A Go map lookup: a missing key reads as the empty string. */
  function Get(m: map<string, string>, key: string): string {
    if key in m then m[key] else ""
  }
}
