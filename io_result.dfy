/** Outcomes of the store's primitive operations, in the shape of Rust's `std::io::Result`. */
module IoResult {

  /** The two ways a primitive on the state directory can fail in this model:
      the state file does not exist, or the directory refuses a change. */
  datatype IoError = NotFound | PermissionDenied

  datatype Result<+T> = Ok(value: T) | Err(error: IoError) {

    /** The value of an `Ok`, or `default` for an `Err`. */
    function ValueOr(default: T): T {
      if Ok? then value else default
    }
  }
}
