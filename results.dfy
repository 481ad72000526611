/** Option and Result values shared by the modules of the model. */
module Results {

  datatype Option<+T> = None | Some(value: T)

  /** The outcome of one of the generators: it either returns normally or throws. */
  datatype Result<+R, +E> = Success(value: R) | Failure(error: E)
}
