/** The optional value used for the document rate, which the analyzer leaves unset
    (Python's `None`) when a document has no significant words. */
module Wrappers {
  datatype Option<+T> = None | Some(value: T)
}
