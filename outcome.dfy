/** Failure-carrying values shared by every component of the geolocation engine. */
module Outcome {

  datatype Option<+T> = None | Some(value: T)

  /** The ways a step of the engine can fail. Python exceptions map to the first
      kinds; `NonFinite` stands for a numpy division by zero, which yields inf or
      NaN instead of raising and so has no value among the reals. */
  datatype Error =
    | AssertionFailed     // a Python `assert` that does not hold
    | KeyError            // a dictionary lookup of a missing key
    | IndexError          // indexing past the end of a list or array
    | NegativeDimension   // numpy asked for an array of negative length
    | EmptyArgument       // argmax, min, convolve or fft of an empty sequence
    | NotCallable         // calling the None that a lookup returned
    | UnpackMismatch      // tuple unpacking with the wrong number of values
    | ShapeMismatch       // numpy arrays whose shapes do not agree
    | NonFinite           // a division by zero: numpy yields inf or NaN
    | Underdetermined     // too few receivers for the selected solve
    | NoMeasurements      // no measurement list to select a solver with

  datatype Result<+T> = Ok(value: T) | Err(error: Error) {
    predicate IsFailure() { Err? }

    function PropagateFailure<U>(): Result<U>
      requires Err?
    {
      Err(error)
    }

    function Extract(): T
      requires Ok?
    {
      value
    }
  }
}
