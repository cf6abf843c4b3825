/**
 * String helpers: presence test, fallback value, and the empty-input guard of
 * `Parse`. The type converter `Parse` consults is a parameter.
 */
module StringExtensions {
  import opened Runtime

  /** Whether the string is neither null nor empty. */
  function HasValue(value: Option<string>): (r: bool)
    ensures r <==> value.Some? && |value.value| > 0
  {
    !IsNullOrEmpty(value)
  }

  /** `defaultValue` when `value` is null or empty, `value` otherwise. */
  function Default(value: Option<string>, defaultValue: Option<string>): (r: Option<string>)
    ensures !HasValue(value) ==> r == defaultValue
    ensures HasValue(value) ==> r == value
    ensures HasValue(defaultValue) ==> HasValue(r)
  {
    if IsNullOrEmpty(value) then defaultValue else value
  }

  /** Applying the same default twice changes nothing. */
  lemma DefaultIdempotent(value: Option<string>, defaultValue: Option<string>)
    ensures Default(Default(value, defaultValue), defaultValue) == Default(value, defaultValue)
  {
  }

  /**
   * Null or empty input parses to null; anything else is handed to the
   * converter, whose `None` stands for a conversion the converter refuses.
   */
  function Parse<T>(input: Option<string>, convert: string -> Option<T>): (r: Option<T>)
    ensures !HasValue(input) ==> r.None?
    ensures HasValue(input) ==> r == convert(input.value)
  {
    if IsNullOrEmpty(input) then None else convert(input.value)
  }

  /** The guard answers before any converter is consulted. */
  lemma ParseGuardIgnoresConverter<T>(input: Option<string>, c1: string -> Option<T>, c2: string -> Option<T>)
    requires !HasValue(input)
    ensures Parse(input, c1) == Parse(input, c2) == None
  {
  }
}
