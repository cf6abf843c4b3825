/**
 * Parameter validation helpers: null and empty checks, enumeration checks,
 * range tests and the range-error message they choose.
 * Every check returns its argument on success and the exception it throws
 * otherwise.
 */
module Preconditions {
  import opened Runtime

  // ---------------------------------------------------------------------------
  // Null and empty checks
  // ---------------------------------------------------------------------------

  /** Returns a non-null value unchanged; null raises `ArgumentNullException(name)`. */
  function CheckNotNull<T>(value: Option<T>, name: string): (r: Result<T>)
    ensures r.Success? <==> value.Some?
    ensures r.Success? ==> r.value == value.value
    ensures r.Failure? ==> r.error == ArgumentNull(name)
  {
    match value
    case None => Failure(ArgumentNull(name))
    case Some(v) => Success(v)
  }

  /** The `ArgumentException` that reports an empty argument. */
  function ThrowArgumentNullOrEmpty(name: string): (e: Error)
    ensures e.ArgumentEmpty? && e.param == name
  {
    ArgumentEmpty(name)
  }

  /** The string overload: the null check runs first, then `string.IsNullOrEmpty`. */
  function CheckNotNullOrEmptyString(value: Option<string>, name: string): (r: Result<string>)
    ensures value.None? ==> r == Failure(ArgumentNull(name))
    ensures value == Some("") ==> r == Failure(ArgumentEmpty(name))
    ensures r.Success? <==> value.Some? && |value.value| > 0
    ensures r.Success? ==> r.value == value.value
  {
    match CheckNotNull(value, name)
    case Failure(e) => Failure(e)
    case Success(v) =>
      if IsNullOrEmpty(value) then Failure(ThrowArgumentNullOrEmpty(name)) else Success(v)
  }

  /**
   * The non-generic `IEnumerable` overload: emptiness is "a fresh enumerator's
   * first `MoveNext` returns false".
   */
  function CheckNotNullOrEmptyEnumerable<T>(value: Option<seq<T>>, name: string): (r: Result<seq<T>>)
    ensures value.None? ==> r == Failure(ArgumentNull(name))
    ensures value == Some([]) ==> r == Failure(ArgumentEmpty(name))
    ensures r.Success? <==> value.Some? && |value.value| > 0
    ensures r.Success? ==> r.value == value.value
  {
    match CheckNotNull(value, name)
    case Failure(e) => Failure(e)
    case Success(v) =>
      var firstMoveNext := 0 < |v|;
      if !firstMoveNext then Failure(ThrowArgumentNullOrEmpty(name)) else Success(v)
  }

  /** The generic `IEnumerable<T>` overload: emptiness is `!Any()`. */
  function CheckNotNullOrEmptySequence<T>(value: Option<seq<T>>, name: string): (r: Result<seq<T>>)
    ensures value.None? ==> r == Failure(ArgumentNull(name))
    ensures value == Some([]) ==> r == Failure(ArgumentEmpty(name))
    ensures r.Success? <==> value.Some? && |value.value| > 0
    ensures r.Success? ==> r.value == value.value
  {
    match CheckNotNull(value, name)
    case Failure(e) => Failure(e)
    case Success(v) =>
      var any := v != [];
      if !any then Failure(ThrowArgumentNullOrEmpty(name)) else Success(v)
  }

  /** The three overloads agree: a string is checked the same as its characters. */
  lemma NotNullOrEmptyOverloadsAgree(value: Option<string>, name: string)
    ensures CheckNotNullOrEmptyString(value, name) == CheckNotNullOrEmptyEnumerable(value, name)
    ensures CheckNotNullOrEmptyEnumerable(value, name) == CheckNotNullOrEmptySequence(value, name)
  {
  }

  // ---------------------------------------------------------------------------
  // Enumerations
  // ---------------------------------------------------------------------------

  /**
   * An enumeration type as the runtime sees it: the 32-bit patterns of its
   * defined members (`Enum.GetValues`) and whether it carries `[Flags]`.
   */
  datatype EnumType = EnumType(values: seq<bv32>, isFlags: bool)

  /** The bitwise OR of the first `i` defined values, accumulated first to last. */
  function MaskOfFirst(values: seq<bv32>, i: nat): bv32
    requires i <= |values|
  {
    if i == 0 then 0 else MaskOfFirst(values, i - 1) | values[i - 1]
  }

  /** The bitwise OR of all defined values. */
  function FlagsMask(values: seq<bv32>): bv32 {
    MaskOfFirst(values, |values|)
  }

  /** `x & m == x`: every bit set in `x` is set in `m`. */
  predicate Within(x: bv32, m: bv32) {
    x & m == x
  }

  lemma OrKeepsWithin(x: bv32, m: bv32, y: bv32)
    requires Within(x, m)
    ensures Within(x, m | y) && Within(x, y | m)
  {
  }

  lemma OrOfWithin(x: bv32, y: bv32, m: bv32)
    requires Within(x, m) && Within(y, m)
    ensures Within(x | y, m)
  {
  }

  lemma WithinSelf(x: bv32)
    ensures Within(x, x)
  {
  }

  /** Each of the first `i` values lies within their mask. */
  lemma {:induction false} MaskOfFirstCovers(values: seq<bv32>, i: nat, k: nat)
    requires k < i <= |values|
    ensures Within(values[k], MaskOfFirst(values, i))
  {
    var rest, last := MaskOfFirst(values, i - 1), values[i - 1];
    assert MaskOfFirst(values, i) == rest | last;
    if k < i - 1 {
      MaskOfFirstCovers(values, i - 1, k);
      OrKeepsWithin(values[k], rest, last);
    } else {
      WithinSelf(last);
      OrKeepsWithin(last, last, rest);
    }
  }

  /** Every defined value lies within the mask. */
  lemma FlagsMaskCovers(values: seq<bv32>, k: nat)
    requires k < |values|
    ensures Within(values[k], FlagsMask(values))
  {
    MaskOfFirstCovers(values, |values|, k);
  }

  /** The mask of the first `i` values lies within any pattern that covers each of them. */
  lemma {:induction false} MaskOfFirstIsLeast(values: seq<bv32>, i: nat, m: bv32)
    requires i <= |values|
    requires forall k :: 0 <= k < i ==> Within(values[k], m)
    ensures Within(MaskOfFirst(values, i), m)
  {
    if i > 0 {
      MaskOfFirstIsLeast(values, i - 1, m);
      OrOfWithin(MaskOfFirst(values, i - 1), values[i - 1], m);
    }
  }

  /** The mask is the least pattern covering every defined value. */
  lemma FlagsMaskIsLeast(values: seq<bv32>, m: bv32)
    requires forall k :: 0 <= k < |values| ==> Within(values[k], m)
    ensures Within(FlagsMask(values), m)
  {
    MaskOfFirstIsLeast(values, |values|, m);
  }

  /** The flags test: `value & mask == value` for the OR of all defined values. */
  method CheckEnumValidFlags(values: seq<bv32>, value: bv32) returns (ok: bool)
    ensures ok <==> Within(value, FlagsMask(values))
  {
    var mask: bv32 := 0;
    for i := 0 to |values|
      invariant mask == MaskOfFirst(values, i)
    {
      mask := mask | values[i];
    }
    assert mask == FlagsMask(values);
    ok := Within(value, mask);
  }

  /** The accepted flag combinations include 0 and are closed under OR. */
  lemma FlagsCombine(values: seq<bv32>, a: bv32, b: bv32)
    requires Within(a, FlagsMask(values)) && Within(b, FlagsMask(values))
    ensures Within(a | b, FlagsMask(values))
    ensures Within(0, FlagsMask(values))
  {
    OrOfWithin(a, b, FlagsMask(values));
  }

  /**
   * A defined value is always accepted; an undefined one only by a `[Flags]`
   * enumeration whose mask covers it.
   */
  method CheckEnumValid(value: bv32, enumType: EnumType, name: string) returns (r: Result<bv32>)
    ensures r.Success? <==>
      value in enumType.values || (enumType.isFlags && Within(value, FlagsMask(enumType.values)))
    ensures r.Success? ==> r.value == value
    ensures r.Failure? ==> r.error == InvalidEnum(name, value)
  {
    var defined := value in enumType.values;
    if !defined && enumType.isFlags {
      defined := CheckEnumValidFlags(enumType.values, value);
    }
    if !defined {
      return Failure(InvalidEnum(name, value));
    }
    return Success(value);
  }

  /** For a `[Flags]` enumeration the membership test adds nothing: the mask decides. */
  lemma FlagsEnumValidIffMasked(value: bv32, values: seq<bv32>)
    ensures (value in values || Within(value, FlagsMask(values))) <==> Within(value, FlagsMask(values))
  {
    if value in values {
      var k :| 0 <= k < |values| && values[k] == value;
      FlagsMaskCovers(values, k);
    }
  }

  // ---------------------------------------------------------------------------
  // Ranges
  // ---------------------------------------------------------------------------

  /** The least value an optional lower bound admits on the integers. */
  function LowestAdmitted(min: Option<int>, inclusive: bool): Option<int> {
    match min
    case None => None
    case Some(m) => Some(if inclusive then m else m + 1)
  }

  /** The greatest value an optional upper bound admits on the integers. */
  function HighestAdmitted(max: Option<int>, inclusive: bool): Option<int> {
    match max
    case None => None
    case Some(m) => Some(if inclusive then m else m - 1)
  }

  /** Membership in the closed integer interval [lo, hi], either end open-ended. */
  predicate InInterval(value: int, lo: Option<int>, hi: Option<int>) {
    (lo.None? || lo.value <= value) && (hi.None? || value <= hi.value)
  }

  /**
   * Whether `value` satisfies each present bound: an inclusive bound admits
   * equality, an exclusive one does not.
   */
  function IsInRange(value: int, min: Option<int>, minInclusive: bool, max: Option<int>, maxInclusive: bool): (r: bool)
    ensures min.None? && max.None? ==> r
    ensures r <==> InInterval(value, LowestAdmitted(min, minInclusive), HighestAdmitted(max, maxInclusive))
  {
    var minValid := min.None? || (minInclusive && value >= min.value) || (!minInclusive && value > min.value);
    var maxValid := max.None? || (maxInclusive && value <= max.value) || (!maxInclusive && value < max.value);
    minValid && maxValid
  }

  /** A value equal to a bound is in range exactly when that bound is inclusive. */
  lemma IsInRangeAtBounds(value: int, min: Option<int>, minInclusive: bool, max: Option<int>, maxInclusive: bool)
    ensures min == Some(value) && (max.None? || value < max.value) ==>
      IsInRange(value, min, minInclusive, max, maxInclusive) == minInclusive
    ensures max == Some(value) && (min.None? || min.value < value) ==>
      IsInRange(value, min, minInclusive, max, maxInclusive) == maxInclusive
  {
  }

  /** The template for one bound: direction and inclusiveness. */
  function GetOpText(greaterThan: bool, inclusive: bool): (t: OpTemplate)
    ensures (t == GreaterThanInclusive || t == GreaterThan) <==> greaterThan
    ensures (t == GreaterThanInclusive || t == LessThanInclusive) <==> inclusive
  {
    if greaterThan && inclusive then GreaterThanInclusive
    else if greaterThan then GreaterThan
    else if inclusive then LessThanInclusive
    else LessThan
  }

  /** What the English text of a clause says about a value. */
  predicate ClauseAdmits(c: Clause, v: int) {
    match c.op
    case GreaterThanInclusive => v >= c.bound
    case GreaterThan => v > c.bound
    case LessThanInclusive => v <= c.bound
    case LessThan => v < c.bound
  }

  /** What the English text of a whole range message says about a value. */
  predicate MessageAdmits(m: RangeMessage, v: int) {
    match m
    case Between(lo, hi) => lo <= v <= hi
    case Both(a, b) => ClauseAdmits(a, v) && ClauseAdmits(b, v)
    case Single(c) => ClauseAdmits(c, v)
  }

  /** The clause `GetOpText` builds for one bound states exactly that bound. */
  lemma GetOpTextStatesBound(greaterThan: bool, inclusive: bool, bound: int, v: int)
    ensures ClauseAdmits(Clause(GetOpText(greaterThan, inclusive), bound), v) <==>
      if greaterThan then IsInRange(v, Some(bound), inclusive, None, true)
      else IsInRange(v, None, true, Some(bound), inclusive)
  {
  }

  /**
   * Returns `value` when it is in range; otherwise raises
   * `ArgumentOutOfRangeException(name, value, message)` where the message is
   * "between" when both bounds are present and inclusive, the two clauses
   * joined by "and" (lower first) when both are present otherwise, and the
   * single clause of the one bound present otherwise.
   */
  function CheckRange(value: int, name: string, min: Option<int>, minInclusive: bool, max: Option<int>, maxInclusive: bool): (r: Result<int>)
    ensures r.Success? <==> IsInRange(value, min, minInclusive, max, maxInclusive)
    ensures r.Success? ==> r.value == value
    ensures r.Failure? ==> r.error.ArgumentOutOfRange? && r.error.param == name && r.error.actual == value
    ensures r.Failure? && min.Some? && minInclusive && max.Some? && maxInclusive ==>
      r.error.message == Between(min.value, max.value)
    ensures r.Failure? && min.Some? && max.Some? && !(minInclusive && maxInclusive) ==>
      r.error.message == Both(Clause(GetOpText(true, minInclusive), min.value), Clause(GetOpText(false, maxInclusive), max.value))
    ensures r.Failure? && min.Some? && max.None? ==>
      r.error.message == Single(Clause(GetOpText(true, minInclusive), min.value))
    ensures r.Failure? && min.None? ==>
      max.Some? && r.error.message == Single(Clause(GetOpText(false, maxInclusive), max.value))
  {
    if IsInRange(value, min, minInclusive, max, maxInclusive) then
      Success(value)
    else if min.Some? && minInclusive && max.Some? && maxInclusive then
      Failure(ArgumentOutOfRange(name, value, Between(min.value, max.value)))
    else
      var messageMin := if min.Some? then Some(Clause(GetOpText(true, minInclusive), min.value)) else None;
      var messageMax := if max.Some? then Some(Clause(GetOpText(false, maxInclusive), max.value)) else None;
      var message :=
        if messageMin.Some? && messageMax.Some? then Both(messageMin.value, messageMax.value)
        else if messageMin.Some? then Single(messageMin.value)
        else Single(messageMax.value);
      Failure(ArgumentOutOfRange(name, value, message))
  }

  /** The message of a range failure describes exactly the values the check admits. */
  lemma CheckRangeMessageStatesRange(value: int, name: string, min: Option<int>, minInclusive: bool,
                                     max: Option<int>, maxInclusive: bool, v: int)
    requires CheckRange(value, name, min, minInclusive, max, maxInclusive).Failure?
    ensures MessageAdmits(CheckRange(value, name, min, minInclusive, max, maxInclusive).error.message, v)
            <==> IsInRange(v, min, minInclusive, max, maxInclusive)
  {
    GetOpTextStatesBound(true, minInclusive, if min.Some? then min.value else 0, v);
    GetOpTextStatesBound(false, maxInclusive, if max.Some? then max.value else 0, v);
  }
}
