/**
 * Small helper datatypes shared by the model: Java's nullable references and
 * the one exception (a NullPointerException) that the modelled code can raise.
 */
module Wrappers {

  /** A Java reference that may be null: `None` stands for null. */
  datatype Option<+T> = None | Some(value: T)

  /**
   * The result of a Java call that either returns normally or is abandoned by
   * a NullPointerException (the only exception the modelled code raises).
   */
  datatype Outcome<+T> = Returns(value: T) | ThrowsNullPointer
}
