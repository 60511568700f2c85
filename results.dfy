/** Optional values and results with an error side, used for the exceptions the
    store raises and the errors the storage backend answers with. */
module Results {

  datatype Option<+T> = None | Some(value: T)

  datatype Result<+T, +E> = Ok(value: T) | Err(error: E)
}
