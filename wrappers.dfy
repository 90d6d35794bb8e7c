/** `Option`, as the Rust code uses it. */
module Options {

  datatype Option<+T> = None | Some(value: T) {
    /** `unwrap_or`: the value if there is one, else the default. */
    function UnwrapOr(default: T): T {
      match this
      case Some(v) => v
      case None => default
    }
  }
}

/** `Result`, as the unit-test builder returns it. */
module Results {

  datatype Result<+T, +E> = Ok(value: T) | Err(error: E)
}
