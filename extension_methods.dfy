/** `Clamp`: forcing a value into a range by two comparisons, the lower bound tested first. */
module ExtensionMethods {

  /** `min` below the range, `max` above it, the value itself inside. */
  function Clamp(value: int, min: int, max: int): (r: int)
    ensures min <= max ==> min <= r <= max
    ensures min <= value <= max ==> r == value
    ensures value < min ==> r == min
    ensures min <= value && max < value ==> r == max
  {
    if value < min then min
    else if value > max then max
    else value
  }

  /** Clamping twice into the same well-formed range is clamping once. */
  lemma ClampIdempotent(value: int, min: int, max: int)
    requires min <= max
    ensures Clamp(Clamp(value, min, max), min, max) == Clamp(value, min, max)
  {
  }

  /** With an inverted range the lower test wins below `min`, and `max` is returned otherwise. */
  lemma ClampInvertedRange(value: int, min: int, max: int)
    requires max < min
    ensures Clamp(value, min, max) == if value < min then min else max
  {
  }

  /** On a well-formed range `Clamp` is the composition of the two one-sided bounds. */
  lemma ClampIsMaxOfMin(value: int, min: int, max: int)
    requires min <= max
    ensures Clamp(value, min, max) == Larger(min, Smaller(value, max))
  {
  }

  function Larger(a: int, b: int): int { if a < b then b else a }
  function Smaller(a: int, b: int): int { if a < b then a else b }
}
