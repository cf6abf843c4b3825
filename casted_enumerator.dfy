/**
 * The enumerator a casted view hands out: it forwards movement to the
 * backing enumerator, casts the current element on each access, and disposes
 * the backing enumerator at most once.
 */
module CastedEnumerators {
  import opened Runtime
  import opened Lists

  class CastedEnumerator {
    /** The projected element type `TTo`. */
    const toKind: Kind
    const baseEnumerator: BaseCursor
    var disposedValue: bool
    /** How often the backing enumerator had been disposed when this one was made. */
    ghost const disposedBefore: nat

    /**
     * The backing enumerator is well formed and this enumerator has
     * disposed it at most once, and only by its own disposal.
     */
    ghost predicate Valid()
      reads this, baseEnumerator
    {
      baseEnumerator.Valid() &&
      disposedBefore <= baseEnumerator.disposeCount <= disposedBefore + 1 &&
      (baseEnumerator.disposeCount == disposedBefore + 1 ==> disposedValue)
    }

    constructor (toKind: Kind, baseEnumerator: BaseCursor)
      requires baseEnumerator.Valid()
      ensures Valid() && !disposedValue && disposedBefore == baseEnumerator.disposeCount
      ensures this.toKind == toKind && this.baseEnumerator == baseEnumerator
    {
      this.toKind := toKind;
      this.baseEnumerator := baseEnumerator;
      disposedValue := false;
      disposedBefore := baseEnumerator.disposeCount;
    }

    /** `IEnumerator.Current`: the backing element, without any cast. */
    function CurrentUncast(): (r: Result<Elem>)
      reads this, baseEnumerator
      ensures r.Success? <==> 0 <= baseEnumerator.position < |baseEnumerator.items|
      ensures r.Success? ==> r.value == baseEnumerator.items[baseEnumerator.position]
      ensures r.Failure? ==> r.error == InvalidOperation
    {
      baseEnumerator.Current()
    }

    /**
     * `IEnumerator<TTo>.Current`: the backing element when its runtime class
     * is a `TTo`, `InvalidCastException` when it is not.
     */
    function Current(): (r: Result<Elem>)
      reads this, baseEnumerator
      ensures r.Success? <==> CurrentUncast().Success? && IsA(CurrentUncast().value, toKind)
      ensures r.Success? ==> r.value == CurrentUncast().value
      ensures CurrentUncast().Success? && r.Failure? ==> r.error == InvalidCast
      ensures CurrentUncast().Failure? ==> r == CurrentUncast()
    {
      match baseEnumerator.Current()
      case Failure(e) => Failure(e)
      case Success(v) => Cast(v, toKind)
    }

    /** Returns exactly what the backing enumerator's `MoveNext` returns. */
    method MoveNext() returns (more: bool)
      requires Valid()
      modifies baseEnumerator`position
      ensures Valid()
      ensures more <==> old(baseEnumerator.position) + 1 < |baseEnumerator.items|
      ensures baseEnumerator.position == if more then old(baseEnumerator.position) + 1 else |baseEnumerator.items|
    {
      more := baseEnumerator.MoveNext();
    }

    /** Delegates to the backing enumerator, including its refusal to reset. */
    method Reset() returns (o: Outcome)
      requires Valid()
      modifies baseEnumerator`position
      ensures Valid()
      ensures o == if baseEnumerator.canReset then Pass else Fail(NotSupported)
      ensures baseEnumerator.position == if baseEnumerator.canReset then -1 else old(baseEnumerator.position)
    {
      o := baseEnumerator.Reset();
    }

    /**
     * `Dispose(bool disposing)`: the first call marks this enumerator
     * disposed, and disposes the backing one when called from `Dispose()`;
     * later calls do nothing.
     */
    method DisposeCore(disposing: bool)
      requires Valid()
      modifies this`disposedValue, baseEnumerator`disposeCount
      ensures Valid() && disposedValue
      ensures baseEnumerator.disposeCount ==
        if !old(disposedValue) && disposing then old(baseEnumerator.disposeCount) + 1
        else old(baseEnumerator.disposeCount)
    {
      if !disposedValue {
        if disposing {
          baseEnumerator.Dispose();
        }
        disposedValue := true;
      }
    }

    /** `Dispose()`: idempotent; the backing enumerator is disposed on the first call only. */
    method Dispose()
      requires Valid()
      modifies this`disposedValue, baseEnumerator`disposeCount
      ensures Valid() && disposedValue
      ensures baseEnumerator.disposeCount ==
        if old(disposedValue) then old(baseEnumerator.disposeCount) else old(baseEnumerator.disposeCount) + 1
    {
      DisposeCore(true);
    }
  }

  /** Disposing a fresh enumerator any number of times disposes the backing one once. */
  method DisposeRepeatedly(items: seq<Elem>, toKind: Kind)
  {
    var cursor := new BaseCursor(items, true);
    var e := new CastedEnumerator(toKind, cursor);
    e.Dispose();
    e.Dispose();
    e.Dispose();
    assert cursor.disposeCount == 1 && e.disposedValue;
  }
}
