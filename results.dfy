/** Optional values and results with an error, standing for the places where
    the Python code raises an exception or reads a key that may be absent. */
module Results {

  datatype Option<T> = None | Some(value: T)

  datatype Result<T, E> = Ok(value: T) | Err(error: E)
}
