/**
 * Optional values, standing for the source's nullable references, results, standing for
 * a value or a thrown exception, and the fixed-width numbers of .NET.
 */
module Wrappers {

  datatype Option<+T> = None | Some(value: T)

  datatype Result<+T> = Success(value: T) | Failure(error: string)

  /** Bytes as .NET `byte[]` holds them. */
  newtype byte = x: int | 0 <= x < 0x100

  type Bytes = seq<byte>

  /** A C# `int`. */
  newtype int32 = x: int | -0x8000_0000 <= x < 0x8000_0000
}
