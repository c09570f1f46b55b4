/** Value types shared by the whole model: nullable references, exceptions as
    result values, the fixed-width integers of the .NET runtime. */
module Basics {

  /** A .NET reference or nullable value: `None` is `null`. */
  datatype Option<+T> = None | Some(value: T)

  /** The exceptions the core throws or catches, as values. */
  datatype Error =
    | NotSupported      // System.NotSupportedException
    | NotImplemented    // System.NotImplementedException
    | ArgumentNull      // System.ArgumentNullException
    | DuplicateMember   // SerializationException: the same name added twice
    | TypeMismatch      // InvalidCastException while reading a serialized member

  /** The outcome of a .NET call that returns a value or throws. */
  datatype Result<+R> = Success(value: R) | Failure(error: Error) {
    predicate IsFailure() { Failure? }
    function PropagateFailure<U>(): Result<U> requires Failure? { Failure(error) }
    function Extract(): R requires Success? { value }
  }

  /** The outcome of a .NET call that returns nothing or throws. */
  datatype Outcome = Pass | Fail(error: Error) {
    predicate IsFailure() { Fail? }
    function PropagateFailure(): Outcome requires Fail? { this }
  }

  /** One property read on an object of a foreign library: the value it gave,
      or the fact that it threw (whatever the exception). */
  datatype Access<+T> = Got(value: T) | Threw

  newtype int32 = x: int | -0x8000_0000 <= x < 0x8000_0000
  newtype int64 = x: int | -0x8000_0000_0000_0000 <= x < 0x8000_0000_0000_0000
  newtype byte = x: int | 0 <= x < 0x100
}
