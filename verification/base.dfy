/** Failure-carrying values shared by every part of the routing engine.
    The Java code signals failure by throwing; the model returns `Err` with
    the exception class that the Java code would throw at that point. */
module Base {

  /** A value that may be absent: Java's `null` or `Optional.empty()`. */
  datatype Option<+T> = None | Some(value: T)

  /** The exception classes the routing engine throws or lets through. */
  datatype Exception =
    | NullPointer          // dereference of a missing message, text, payload or annotation
    | IndexOutOfBounds     // `split(...)[0]` on an empty array
    | IllegalState         // missing declaration at collection time, missing matcher at lookup
    | IllegalArgument      // the lifted comparator meets an action without the declaration
    | NoSuchElement        // no comparator registered for a category
    | ActionNotFound       // the category has no action, or none of them matches
    | UnknownUpdateType    // no resolver accepts the update

  /** Either the value a Java method returns or the exception it throws. */
  datatype Result<+T> = Ok(value: T) | Err(error: Exception)

  /** The two failures that the update service answers with the default action. */
  predicate IsNotFound(e: Exception) {
    e == ActionNotFound || e == UnknownUpdateType
  }
}
