/**
 * The two exceptions the codec raises, and the Python runtime failure the
 * older engine runs into, as values instead of control flow.
 */
module Results {

  datatype Error =
    | LayoutNotFound(key: string)   // ValueError "Layout with key ... not found"
    | DuplicateLayout(key: string)  // ValueError "Layout with key ... already exists"
    | JoinOfNone                    // TypeError from str.join meeting a None element

  datatype Result<T> = Ok(value: T) | Err(error: Error)

  /** A Python `dict.get(k)`: the value, or nothing when the key is absent. */
  datatype Option<T> = None | Some(value: T)
}
