/** Option, Result and Outcome: the model's stand-ins for C# null references and thrown exceptions. */
module Results {

  /** A value that may be missing, as a nullable C# reference. */
  datatype Option<+T> = None | Some(value: T)

  /** The value of an operation that either returns or throws. */
  datatype Result<+R, +E> = Success(value: R) | Failure(error: E)

  /** The value of an operation that returns nothing, or throws. */
  datatype Outcome<+E> = Pass | Fail(error: E)
}
