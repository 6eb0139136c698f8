/** The optional value the page code expresses with `null`. */
module Wrappers {

  datatype Option<+T> = None | Some(value: T)
}
