/** Success/failure wrappers shared by the store and the service.
    `Option` stands for a JavaScript value that may be `undefined`;
    `Result` stands for a promise that resolves or rejects. */
module Results {

  datatype Option<+T> = None | Some(value: T)

  datatype Result<+R, +E> = Success(value: R) | Failure(error: E)
}
