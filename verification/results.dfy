/** Failure-compatible result type shared by every module, and the Python
    exceptions the modelled code can raise. */
module Results {

  /** The exceptions raised by the modelled code, one constructor per cause. */
  datatype Error =
    | KeyError         // a dict lookup on a missing key
    | IndexError       // `row[1]` on a row with a single field
    | UnpackError      // ValueError from tuple unpacking (`a, b = ...`)
    | BadMetric        // ValueError: `metric` is not one of the four names
    | LengthMismatch   // ValueError: reference and hypothesis line counts differ
    | BadWhich         // ValueError: `which` is neither 'train' nor 'dev'

  datatype Option<+T> = None | Some(value: T)

  datatype Result<+T> = Ok(value: T) | Err(error: Error) {
    predicate IsFailure() {
      Err?
    }

    function PropagateFailure<U>(): Result<U>
      requires Err?
    {
      Err(error)
    }

    function Extract(): T
      requires Ok?
    {
      value
    }
  }
}
