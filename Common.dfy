/** Optional values, the error kinds the services raise, and a result type for them. */
module Common {

  /** A value that may be absent: stands for a nullable reference or `Nullable<T>`. */
  datatype Option<+T> = None | Some(value: T) {

    /** The `??` operator: the value, or `default` when absent. */
    function GetOr(default: T): T {
      match this
      case Some(v) => v
      case None => default
    }
  }

  /** The exceptions the services throw, as error kinds:
      KeyNotFoundException (and InvalidOperationException for a missing row) is NotFound,
      UnauthorizedAccessException is Unauthorized, ArgumentException is InvalidArgument,
      DbUpdateException is StoreFailure. */
  datatype ServiceError = NotFound | Unauthorized | InvalidArgument | StoreFailure

  /** The outcome of a service call that either returns a value or throws. */
  datatype Result<+T> = Ok(value: T) | Err(error: ServiceError)
}
