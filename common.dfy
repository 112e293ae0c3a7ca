/** Identifiers, option/result wrappers and the schema's path names, shared by every module. */
module Common {

  /** An account's `_id`. Ids are handed out in increasing order, so id order is insertion order. */
  type Id = nat

  datatype Option<+T> = None | Some(value: T)

  datatype Result<+T, +E> = Ok(value: T) | Err(error: E)

  /** The paths of the user schema that this model tracks (`watchHistory` and the timestamps are not modelled). */
  datatype Path = Username | Email | FullName | Avatar | CoverImage | Password | RefreshToken
}
