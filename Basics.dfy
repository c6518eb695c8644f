/** Failure-carrying values shared by the telemetry modules. */
module Basics {

  datatype Option<+T> = None | Some(value: T)

  /** The Java exceptions the telemetry core can raise, as values. */
  datatype Error =
    | NoSuchElement      // Collections.max / Collections.min on an empty list
    | IndexOutOfBounds   // ArrayList.get on an empty list
    | IoError            // File.createNewFile / FileWriter failures
    | DelegateFailure    // whatever checkRollover or super.append throws

  datatype Result<+T> = Ok(value: T) | Err(error: Error)

  /** How a call left: normally, or with an exception thrown to the caller. */
  datatype Outcome = Completed | Threw(error: Error)
}
