/** Shared by all modules. */
module Common {
  datatype Option<+T> = None | Some(value: T)

  /** The largest `int` of the platforms the program is built for. */
  const MAX_INT := 0x7FFF_FFFF
}
