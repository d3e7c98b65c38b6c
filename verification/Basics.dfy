/** What the models share. */
module Basics {

  datatype Option<T> = None | Some(value: T)

  /** Something outside the program's control happens or does not: a call succeeds, an answer arrives. */
  method Happens() returns (b: bool) {
    b := *;
  }
}
