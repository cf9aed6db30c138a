/** Failure-compatible wrappers shared by every module. */
module Common {

  datatype Option<+T> = None | Some(value: T)

  /** The error codes the plugin's stores raise. */
  datatype Error = DoesNotExist | AlreadyExists | InvalidParameter

  datatype Result<+T> = Ok(value: T) | Err(error: Error)
}
