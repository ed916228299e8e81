/**
 * The caller-owned containers that the control ROM accessors fill.
 */
module Containers {

  datatype Option<T> = None | Some(value: T)

  /** A growable sequence owned by the caller, filled in place (a `std::vector`). */
  class Vector<T> {
    var elems: seq<T>

    constructor ()
      ensures elems == []
    {
      elems := [];
    }

    method PushBack(x: T)
      modifies this
      ensures elems == old(elems) + [x]
    {
      elems := elems + [x];
    }
  }
}
