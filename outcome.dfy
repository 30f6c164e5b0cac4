/** Failure values of the navlog pipeline.

    Every exception the navigation service can raise while computing a navlog becomes one
    `NavError` constructor; an operation that can throw returns a `Result`, so that the
    `:-` operator propagates the first failure exactly as an uncaught Java exception does.
 */
module Outcome {

  datatype NavError =
    | AirportNotFound(code: string)     // AirportNotFoundException from getAirportFromICAO
    | FixxNotFound(id: string)          // FixxNotFoundException from getFIXXFromId
    | NumberFormat(text: string)        // NumberFormatException from Integer.parseInt / Double.parseDouble
    | IndexOutOfBounds                  // ArrayIndexOutOfBounds / StringIndexOutOfBounds
    | AircraftNotFound(model: string)   // no performance profile in the aircraft database
    | InvalidLegType(legType: string)   // IllegalArgumentException from computeFuelBurnForLeg
    | NonFiniteLegTime                  // zero ground speed: the leg time would be Infinity or NaN

  datatype Option<+T> = None | Some(value: T)

  datatype Result<+T> = Ok(value: T) | Err(error: NavError) {

    predicate IsFailure() {
      Err?
    }

    function PropagateFailure<U>(): Result<U>
      requires Err?
    {
      Err(error)
    }

    function Extract(): T
      requires Ok?
    {
      value
    }
  }
}
