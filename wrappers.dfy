/** The optional value used for the nullable fields of an entity and for
    lookups that can miss. */
module Wrappers {

  datatype Option<+T> = None | Some(value: T)
}
