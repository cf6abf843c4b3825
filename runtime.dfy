/**
 * The pieces of the .NET runtime that the library leans on, as values:
 * nullable references, the exceptions the library throws, and
 * `string.IsNullOrEmpty`.
 */
module Runtime {

  /** A nullable reference or `Nullable<T>`: `None` is `null`. */
  datatype Option<+T> = None | Some(value: T)

  /** The four comparison templates of the range messages. */
  datatype OpTemplate = GreaterThanInclusive | GreaterThan | LessThanInclusive | LessThan

  /** One comparison clause of a range message: a template applied to a bound. */
  datatype Clause = Clause(op: OpTemplate, bound: int)

  /**
   * The message an `ArgumentOutOfRangeException` carries, as a tag with the
   * bound values in place of the culture-formatted text:
   * `Between` is "must be between {min} and {max}", `Both` is
   * "must be {min clause} and {max clause}", `Single` is "must be {clause}".
   */
  datatype RangeMessage =
    | Between(min: int, max: int)
    | Both(minClause: Clause, maxClause: Clause)
    | Single(clause: Clause)

  /** The exceptions raised by the library and by the collections it wraps. */
  datatype Error =
    | ArgumentNull(param: string)                                    // ArgumentNullException
    | ArgumentEmpty(param: string)                                   // ArgumentException, "value empty"
    | ArgumentOutOfRange(param: string, actual: int, message: RangeMessage)
    | InvalidEnum(param: string, bits: bv32)                         // ArgumentException, "invalid enum"
    | InvalidCast                                                    // InvalidCastException
    | IndexOutOfRange(index: int)                                    // ArgumentOutOfRangeException of a list index
    | NotSupported                                                   // NotSupportedException
    | InvalidOperation                                               // InvalidOperationException

  /** A value, or the exception thrown instead of returning it. */
  datatype Result<+T> = Success(value: T) | Failure(error: Error)

  /** Normal completion of a `void` member, or the exception it throws. */
  datatype Outcome = Pass | Fail(error: Error)

  /** `string.IsNullOrEmpty`. */
  predicate IsNullOrEmpty(s: Option<string>) {
    s.None? || s.value == []
  }
}
