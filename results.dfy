/** Option and Result: the two ways the front end reports "nothing here" and "refused". */
module Results {

  datatype Option<+T> = None | Some(value: T)

  /** A form handler either produces its request (Ok) or refuses with the reason it shows in a toast (Err). */
  datatype Result<+T, +E> = Ok(value: T) | Err(error: E)
}
