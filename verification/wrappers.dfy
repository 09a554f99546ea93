/** Python's "a value or None", used for every optional result of the script. */
module Wrappers {

  datatype Option<+T> = None | Some(value: T)
}
