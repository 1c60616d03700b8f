/** Outcomes of the core's operations. The source signals failures by throwing
    ResourceNotFoundException or ValidationException; here they are values. */
module Results {

  /** What a ResourceNotFoundException reports as missing. */
  datatype Missing =
    | FilmWithId(id: int)     // a film looked up by id (film services)
    | UserWithId(id: int)     // a user looked up by id (user services)
    | LikeFrom(userId: int)   // a like that is not in the film's likes
    | SomeUser                // the controller's update, whose message names no id

  /** Why a ValidationException was raised. */
  datatype Reason = AlreadyLiked | AlreadyFriends | ReleaseTooEarly

  datatype Failure = NotFound(missing: Missing) | Validation(reason: Reason)

  /** An operation that returns a value or throws. */
  datatype Result<T> = Ok(value: T) | Err(error: Failure)

  /** A void operation that returns normally or throws. */
  datatype Outcome = Pass | Fail(error: Failure)

  /** A Java reference that may be null. */
  datatype Option<T> = None | Some(value: T)
}
