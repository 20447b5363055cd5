/** Failure-carrying results shared by the whole model. */
module Wrappers {

  /** A value that may be absent: a nullable foreign key, or a lookup that found nothing. */
  datatype Option<+T> = None | Some(value: T)

  /** The errors the model surfaces to the request boundary. */
  datatype Error =
    | NotFound        // get_object_or_404 did not resolve a slug or username
    | IntegrityError  // a unique column would hold the same value twice

  datatype Result<+T> = Success(value: T) | Failure(error: Error)
}
