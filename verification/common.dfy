/** Types shared by every module of the model. */
module Common {

  /** A byte as Go's `byte`: eight bits, no sign. */
  type byte = bv8

  /** An optional value (a Go `nil` slice, a parse that failed). */
  datatype Option<+T> = None | Some(value: T)
}
