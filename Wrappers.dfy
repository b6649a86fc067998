/** The optional value the route uses wherever JavaScript has `null`:
    a regular-expression match that failed, a tag that was not found. */
module Wrappers {

  datatype Option<+T> = None | Some(value: T)
}
