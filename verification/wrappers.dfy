/** The optional value used wherever the script may or may not produce something:
    a saved preference that may be absent, text that a step may or may not render. */
module Wrappers {

  datatype Option<+T> = None | Some(value: T)
}
