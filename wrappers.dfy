/** The optional value used wherever the bot's code yields `null` or no regex match. */
module Wrappers {
  datatype Option<+T> = None | Some(value: T)
}
