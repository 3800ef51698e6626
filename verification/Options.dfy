// A value that may be missing: nullptr, std::nullopt and the like.
module Options {
  datatype Option<T> = None | Some(value: T)
}
