/** Outcomes of the model's operations: the exceptions the test model raises
    become `Err` values, so every error path is part of the contract. */
module Results {

  /** One constructor per exception the source raises, named after its message. */
  datatype Error =
    | UnsupportedAudioType           // Audio_func: type not none/fixed/ramp
    | UnsupportedCategory            // channel status byte 1
    | UnsupportedSampleRate          // channel status byte 3, rate table
    | UnsupportedClockAccuracy       // channel status byte 3, clock accuracy
    | UnsupportedOriginalSampleRate  // channel status byte 4
    | UnsupportedExtraData           // channel status bytes 5-23
    | FrequencyTooHigh               // Clock: more than 5 * 10^14 Hz

  datatype Result<+T> = Ok(value: T) | Err(error: Error) {
    predicate IsFailure() {
      Err?
    }

    function PropagateFailure<U>(): Result<U>
      requires Err?
    {
      Err(error)
    }

    function Extract(): T
      requires Ok?
    {
      value
    }
  }

  datatype Option<+T> = None | Some(value: T)
}
