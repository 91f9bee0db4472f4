/** The success-or-error value every fallible operation of the model
    returns in place of a thrown exception. */
module Results {

  datatype Result<+T, +E> = Ok(value: T) | Err(error: E)

  datatype Option<+T> = None | Some(value: T)
}
