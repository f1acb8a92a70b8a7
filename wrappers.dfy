/** The optional value used wherever the bot answers "no value" or reacts with an error. */
module Wrappers {
  datatype Option<+T> = None | Some(value: T)
}
