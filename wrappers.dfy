/** The optional value shared by the Redis client and the chat server. */
module Wrappers {
  datatype Option<T> = None | Some(value: T)
}
