/** The optional value shared by the printers: a missing root line, absent
    headers or specs, an escape text that does not decode. */
module Wrappers {
  datatype Option<T> = None | Some(value: T)
}
