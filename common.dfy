/** Values the whole service shares: nullable values, identifiers, instants, exceptions,
    and the outcome of a call that may throw. */
module Common {

  /** A C# nullable value (`T?`): `None` is `null`. */
  datatype Option<+T> = None | Some(value: T) {
    /** C#'s `x ?? fallback`. */
    function GetOr(fallback: T): T {
      match this
      case Some(v) => v
      case None => fallback
    }
  }

  /** C# `short`, the type of the bounds passed to the validator messages. */
  newtype int16 = x: int | -0x8000 <= x < 0x8000

  /** A 128-bit `System.Guid`. Only equality and `Guid.Empty` matter to the service;
      the numeric order is used only to break ties when listing rows. */
  newtype Guid = x: int | 0 <= x < 0x1_0000_0000_0000_0000_0000_0000_0000_0000

  /** `Guid.Empty`, the all-zero identifier. */
  const EmptyGuid: Guid := 0

  /** A `DateTimeOffset` read from the clock, as ticks. */
  type Instant = int

  /** A `DateTime` (the optional reminder of a to-do), as ticks. */
  type DateTime = int

  /** A thrown .NET exception: its runtime type name and its message. */
  datatype Exception = Exception(typeName: string, message: string)

  /** How a call ends: it returns a value or it throws. */
  datatype Outcome<+T> = Returned(value: T) | Threw(exception: Exception)
}
