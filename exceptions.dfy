/** The .NET exceptions that the repository's own code throws or runs into. */
module Exceptions {

  datatype Exception =
    | ArgumentNull        // ArgumentNullException: no database handle, or a null document
    | ArgumentOutOfRange  // ArgumentOutOfRangeException: a TimeUnit outside the named members
    | Overflow            // OverflowException: a duration outside TimeSpan's range
    | NullReference       // NullReferenceException: no collection has been bound yet
    | MissingCreatedAt    // Exception: the entity type has no DateTime `CreatedAt` property
    | TargetNull          // TargetException: setting `CreatedAt` on a null entity
}
