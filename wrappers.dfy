/** A C pointer that may be NULL, and the two ways a C call can end. */
module Wrappers {
  /** `None` stands for a NULL pointer, `Some(v)` for a pointer to `v`. */
  datatype Option<T> = None | Some(value: T)

  /** A call either returns a value or ends the whole process (`exit`). */
  datatype Proc<T> = Exits | Returns(value: T)
}
