/** The JavaScript `null` of the room records, as an explicit option. */
module Wrappers {

  datatype Option<+T> = None | Some(value: T)
}
