/** Primitive .NET types the entities are built from: the fixed-width integers,
    `DateTime` ticks and `Nullable<T>` (`int?`). */
module Clr {

  /** System.Int32 (C# `int`). */
  newtype int32 = x: int | -0x8000_0000 <= x < 0x8000_0000

  /** System.Int64 (C# `long`). */
  newtype int64 = x: int | -0x8000_0000_0000_0000 <= x < 0x8000_0000_0000_0000

  /** Ticks of DateTime.MaxValue: the largest instant a `DateTime` can hold. */
  const MaxTicks: int := 3155378975999999999

  /** A `DateTime`, as its count of 100-nanosecond ticks since 0001-01-01.
      The `Kind` is not kept: every value is read as UTC. */
  newtype DateTime = t: int | 0 <= t <= MaxTicks

  /** Every entity key is a C# `int`. */
  type Id = int32

  /** C# `Nullable<T>`: `Null` is the absent value of an `int?` column. */
  datatype Nullable<T> = Null | Value(value: T)
}
