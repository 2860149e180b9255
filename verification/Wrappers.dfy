/** Absent values: the repository's null pointers, refused lookups and unset fields. */
module Wrappers {

  datatype Option<+T> = None | Some(value: T)
}
