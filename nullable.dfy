/** C#'s nullable values (`string?`, `Guid?`, `T?`): either absent (null) or present. */
module Nullable {

  datatype Option<+T> = None | Some(value: T)
}
