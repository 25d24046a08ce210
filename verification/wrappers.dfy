/** Failure-compatible result types shared by the assembler, the virtual machine and the editor. */
module Wrappers {

  /** An optional value: the model of a reference that may be NULL or an id that may be -1. */
  datatype Option<+T> = None | Some(value: T)

  /** Either a value or the error that stopped the computation. */
  datatype Result<+T, +E> = Success(value: T) | Failure(error: E)
}
