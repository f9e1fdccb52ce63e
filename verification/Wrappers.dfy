module Wrappers {
  datatype Option<+T> = None | Some(value: T)

  /** A phase as the C code has it, and as it is meant: without the places where it departs from
      what it is for. */
  datatype Version = AsWritten | AsMeant
}
