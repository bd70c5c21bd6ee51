/** The Option type used for every match result: `Some(end)` is the position
    just after what a production consumed, `None` is a failed match. */
module Wrappers {

  datatype Option<+T> = None | Some(value: T)
}
