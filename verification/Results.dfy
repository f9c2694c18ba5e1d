/** The outcomes filesystem operations report, shared by every filesystem of the model. */
module Results {

  /** The error values of pkg/fs, plus the anonymous errors that single operations build. */
  datatype Error =
    | Invalid
    | NotExist
    | Exist
    | NotDir
    | IsDir
    | NotEmpty
    | Quota
    | Loop
    | RootRemoval
    | IntoItself
    | NotRegular
    | NotALink
    | UnknownPolicy

  datatype Result<+T> = Ok(value: T) | Err(error: Error)

  /** What an operation without a result value reports. */
  datatype Outcome = Done | Failed(error: Error)

  datatype Option<+T> = None | Some(value: T)
}
