/** Option, Result and the error cases the analyzer raises. */
module Wrappers {

  datatype Option<+T> = None | Some(value: T)

  /** The failures of the analyzer that are modelled as results rather than preconditions. */
  datatype Error =
    | MissingCondition(condition: string)   // a condition absent from the probability table
    | NoReadsOrWrites                       // an access list with no read and no write

  datatype Result<+T> = Ok(value: T) | Err(error: Error)
}
