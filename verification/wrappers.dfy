/** An optional value, used where the program tests a value for presence
    (a missing upload, an unreadable image, a class name not in the list). */
module Wrappers {

  datatype Option<+T> = None | Some(value: T)
}
