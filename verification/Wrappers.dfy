/** Two shapes used everywhere. */
module Wrappers {
  /** A value that may be absent, or the outcome of an operation whose error is only passed on. */
  datatype Option<+T> = None | Some(value: T)

  /** The parts one after the other. */
  function Flat<T>(parts: seq<seq<T>>): seq<T> {
    if parts == [] then [] else parts[0] + Flat(parts[1..])
  }
}
