/** The two wrapper types the model uses in place of `null` and of thrown exceptions. */
module Outcomes {

  /** A value or nothing: the model's reading of a C# reference that may be null. */
  datatype Option<+T> = None | Some(value: T)

  /** The exception a source operation raises, by kind. */
  datatype Failure =
    | ArgumentEmpty       // ArgumentException: Assert.ArgumentNotNullOrEmpty, String.Replace of an empty string
    | ArgumentOutOfRange  // ArgumentOutOfRangeException: an unparseable ID, a list index out of range
    | AssertionFailed     // Assert.IsNotNull / Assert.IsNotNullOrEmpty on a missing value
    | InvalidOperation    // InvalidOperationException: a refused cross-provider move, First/Max of nothing
    | NullReference       // a null reference that the code goes on to use
    | Format              // int.Parse of a string that is not a number

  /** What an operation that may throw produces: its value, or the exception it raises. */
  datatype Result<+T> = Ok(value: T) | Throws(failure: Failure)
}
