/** Failure values shared by the model: the two exceptions the modelled C# code can raise. */
module Wrappers {

  /** `ArgumentOutOfRange` is thrown by the explicit guards in Hex.cs; `IndexOutOfRange`
      is the runtime's exception for an array access past either end. */
  datatype Error = ArgumentOutOfRange | IndexOutOfRange

  /** The value a call returns, or the exception it throws. */
  datatype Result<+T> = Ok(value: T) | Err(error: Error)

  /** The outcome of a call that returns nothing: it completes, or it throws. */
  datatype Status = Done | Fail(error: Error)
}
