/** The optional value used for the source's fallible parses (`Result<_, ()>` and
    `Result<usize, ParseIntError>`). The error is dropped: the kind a
    `ParseIntError` carries only selects the text that is printed. */
module Wrappers {

  datatype Option<+T> = None | Some(value: T)
}
