/** Success-or-error values used wherever the source answers a request with a
    "400 Bad Request" and a message, or stops on an exception. */
module Results {

  datatype Option<+T> = None | Some(value: T)

  datatype Result<+T, +E> = Ok(value: T) | Err(error: E) {
    predicate IsFailure() {
      Err?
    }
  }
}
