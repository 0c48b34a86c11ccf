/** Failure-carrying wrappers used throughout the model in place of JavaScript's `undefined`. */
module Results {

  datatype Option<+T> = None | Some(value: T)

  datatype Result<+T, +E> = Ok(value: T) | Err(error: E) {
    /** The success value as an Option, forgetting the reason for a failure. */
    function ToOption(): (o: Option<T>)
      ensures o.Some? <==> Ok?
      ensures Ok? ==> o.value == value
    {
      match this
      case Ok(v) => Some(v)
      case Err(_) => None
    }
  }
}
