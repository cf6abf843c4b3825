# HanumanInstitute.Validators core, modelled in Dafny

This project models the core of the HanumanInstitute.Validators C# library. The core has six parts:

- **`CastedList<TTo, TFrom>`** is a live view over an `IList<TFrom>` that shows it as an `IList<TTo>`.
  - Each read casts the stored element at the moment of access.
  - Each write casts its argument back to `TFrom` and changes the one shared backing list.
- **`CastedEnumerator<TTo, TFrom>`** is the enumerator the view hands out.
  - It forwards movement to the backing enumerator.
  - It casts `Current`.
  - It disposes the backing enumerator at most once.
- **`ListExtensions`** holds four members:
  - `AddRange`, which appends to any `IList<T>`.
  - Two `ForEachAsync` overloads, which map an asynchronous operation over a collection. At most `maxParallel` operations run at once, and an optional callback runs per element.
  - `ForEachOrderedAsync`, which collects results in source order.
- **`Preconditions`** holds the argument checks:
  - null and empty checks;
  - enumeration validity, including the `[Flags]` bit-mask test;
  - range tests, and the choice of range-error message.
- **`ExtensionMethods.Clamp`** forces a value into a range.
- **`StringExtensions`** holds `HasValue`, `Default` and the empty-input guard of `Parse`.

Modelling choices:

- Exceptions become values. `Result` is a value or the exception thrown instead. `Outcome` is normal completion of a `void` member or the exception thrown. `Error` is the exception's kind and data. Null is `None` of `Option`.
- Objects in the two-class element hierarchy are `Elem = Base(ref) | Derived(ref)`.
  - The constructor is the object's runtime class.
  - `ref` stands for the object's identity, so equal datatypes are the same reference.
  - `Kind` is a static type, and `IsA(e, k)` is the runtime type test behind a cast.
- The wrapped list is the class `Lists.BackingList`. It stands for a `List<T>` or a read-only list, with their `Add`, `Insert`, `Remove`, indexer and `AddRange` outcomes. Its enumerator is `Lists.BaseCursor`, which raises when `Current` is read outside the elements, as an array's enumerator does.
- The view and the enumerator are classes that hold a reference to the backing object. Changes made through one view are seen by every holder of that list.
- The asynchronous runners are modelled as follows:
  - **The scheduler** is an arbitrary `trace` of steps. `Admit(i)` lets task `i`'s `WaitAsync` complete. `Finish(i)` lets task `i`'s operation complete, runs its callback and releases its permit. A step that cannot happen at that moment changes nothing.
  - **`Task.WhenAll`** is a drain afterwards that runs every unfinished task to completion, by steps of its own.
  - **`SemaphoreSlim`** is a permit counter (`ListExtensions.Semaphore`).
  - **What a step does** is also stated without the semaphore, by the ghost function `ListExtensions.Apply`: a waiting task may start only while fewer than `maxParallel` operations run. Each step method is proved to act as `Apply` says.
  - **A run** is recorded as a ghost history of snapshots (every task's state and the completion order so far), one after each step of the trace and of the drain. The bound on running operations is proved for every snapshot of that history.
  - **The order in which tasks finish** is what the runners return beside their results. It is the completion order of the history's last snapshot, and it is proved to be a permutation of the indices, for every trace.
- Clocks, threads, I/O and the type converter that `Parse` uses do not appear. The converter is a function parameter; the operation passed to a runner is a function parameter, or only its presence is kept.

Three behaviours of the code to keep in mind when reading the model:

- **No null check in the `CastedList` constructor.** It stores its argument without checking it (Validators/CastedList.cs:25-27), so it raises no invalid-argument error. The model's constructor takes a present list, and "## Left out" says what a null one would do.
- **No event forwarding.** The constructor subscribes to the view's own events, not the list's (Validators/CastedList.cs:28-35). Events are not modelled.
- **Permit kept on failure.** `ProcessAsync` awaits the operation outside its `try` (Validators/ListExtensions.cs:63-71). If the operation fails, the permit is never released. Only the success path is modelled.

## Model

| member | source | states |
|---|---|---|
| `Preconditions.CheckNotNull` | Validators/Preconditions.cs:22-29 | succeeds exactly for a non-null value and returns it unchanged; null fails with `ArgumentNull(name)` |
| `Preconditions.ThrowArgumentNullOrEmpty` | Validators/Preconditions.cs:225-228 | the exception is the "empty" `ArgumentException` naming the parameter |
| `Preconditions.CheckNotNullOrEmptyString` | Validators/Preconditions.cs:36-44 | null fails with `ArgumentNull`, "" with `ArgumentEmpty`; success exactly for a non-empty string, returned unchanged |
| `Preconditions.CheckNotNullOrEmptyEnumerable` | Validators/Preconditions.cs:51-61 | same three cases for a sequence, emptiness judged by the first `MoveNext` |
| `Preconditions.CheckNotNullOrEmptySequence` | Validators/Preconditions.cs:68-79 | same three cases for a sequence, emptiness judged by `Any()` |
| `Preconditions.NotNullOrEmptyOverloadsAgree` | Validators/Preconditions.cs:36-79 | the string overload and both sequence overloads give identical results on every input |
| `Preconditions.MaskOfFirstCovers` | Validators/Preconditions.cs:149-153 | every one of the first `i` defined values lies within the mask accumulated over them |
| `Preconditions.FlagsMaskCovers` | Validators/Preconditions.cs:149-155 | every defined value lies within the OR of all defined values |
| `Preconditions.MaskOfFirstIsLeast` | Validators/Preconditions.cs:149-153 | the accumulated mask lies within any pattern that covers each of the values accumulated |
| `Preconditions.FlagsMaskIsLeast` | Validators/Preconditions.cs:149-155 | the mask is the least bit pattern covering every defined value |
| `Preconditions.CheckEnumValidFlags` | Validators/Preconditions.cs:146-156 | the loop's verdict is true exactly when `value & mask == value` for the OR of all defined values |
| `Preconditions.FlagsCombine` | Validators/Preconditions.cs:146-156 | the accepted flag combinations contain 0 and are closed under bitwise OR |
| `Preconditions.CheckEnumValid` | Validators/Preconditions.cs:125-140 | accepts exactly the defined values and, for a `[Flags]` type, the masked combinations; returns the value unchanged, otherwise fails with `InvalidEnum(name, value)` |
| `Preconditions.FlagsEnumValidIffMasked` | Validators/Preconditions.cs:128-134 | for a `[Flags]` type the membership test adds nothing: acceptance is exactly the mask test |
| `Preconditions.IsInRange` | Validators/Preconditions.cs:168-176 | with no bounds always true; otherwise true exactly when the value lies in the integer interval the bounds admit (inclusive: the bound itself, exclusive: one step inside) |
| `Preconditions.IsInRangeAtBounds` | Validators/Preconditions.cs:171-174 | a value equal to `min` (or `max`) is in range exactly when that bound is inclusive |
| `Preconditions.GetOpText` | Validators/Preconditions.cs:213-219 | the template's direction is "greater" exactly for the lower bound and it is inclusive exactly for an inclusive bound |
| `Preconditions.GetOpTextStatesBound` | Validators/Preconditions.cs:213-219 | the clause built for a bound admits exactly the values that one bound admits |
| `Preconditions.CheckRange` | Validators/Preconditions.cs:189-211 | returns the value unchanged exactly when in range; otherwise `ArgumentOutOfRange(name, value, …)` with the "between" message for two inclusive bounds, "min clause and max clause" for two bounds otherwise, and the one clause for a single bound |
| `Preconditions.CheckRangeMessageStatesRange` | Validators/Preconditions.cs:195-207 | the chosen message admits exactly the values `IsInRange` accepts |
| `StringExtensions.HasValue` | Validators/StringExtensions.cs:23 | true exactly for a non-null, non-empty string |
| `StringExtensions.Default` | Validators/StringExtensions.cs:31 | the default exactly when the value is null or empty, the value otherwise; a default with a value yields a result with a value |
| `StringExtensions.DefaultIdempotent` | Validators/StringExtensions.cs:31 | applying the same default twice equals applying it once |
| `StringExtensions.Parse` | Validators/StringExtensions.cs:47-60 | null or empty input gives null; any other input gives exactly what the converter gives |
| `StringExtensions.ParseGuardIgnoresConverter` | Validators/StringExtensions.cs:49 | on null or empty input every converter yields the same null: none is consulted |
| `ExtensionMethods.Clamp` | Validators/ExtensionMethods.cs:61-72 | with `min <= max` the result lies in the range; a value inside is returned unchanged; below `min` gives `min`; above `max` (and not below `min`) gives `max` |
| `ExtensionMethods.ClampIdempotent` | Validators/ExtensionMethods.cs:61-72 | clamping twice into a well-formed range equals clamping once |
| `ExtensionMethods.ClampInvertedRange` | Validators/ExtensionMethods.cs:63-70 | with `max < min` the lower test wins: `min` below it, `max` for every other value |
| `ExtensionMethods.ClampIsMaxOfMin` | Validators/ExtensionMethods.cs:63-71 | on a well-formed range the result is the larger of `min` and the smaller of value and `max` |
| `Lists.Cast` | Validators/CastedList.cs:84 | the cast returns the same reference exactly when its runtime class fits, `InvalidCast` otherwise |
| `Lists.WidensIff` | Validators.Tests/CastedListTests.cs:118-129 | every element of the source type is an element of the target type exactly for the same type or a projection to the base class |
| `Lists.FirstIndexOf` | Validators/CastedList.cs:89 | -1 exactly when the element is absent; otherwise a position holding it with no earlier occurrence |
| `Lists.RemoveFirstAbsent` | Validators/CastedList.cs:78 | removing an absent element leaves the list unchanged |
| `Lists.RemoveFirstSplice` | Validators/CastedList.cs:78 | removing a present element cuts out exactly its first occurrence and keeps the order of the rest |
| `Lists.RemoveFirstKeeps` | Validators/CastedList.cs:78 | removal introduces no element |
| `Lists.RemoveFirstMultiset` | Validators/CastedList.cs:78 | removal shortens the list by one exactly when the element was present and takes away one copy of it and nothing else |
| `Lists.InsertAtShape` | Validators/CastedList.cs:92 | after insertion the element sits at the index, earlier elements stay, later ones shift up by one |
| `Lists.DeleteAtInsertAt` | Validators/CastedList.cs:92-95 | deleting at the index just inserted at restores the list |
| `Lists.BackingList.GetItem` | Validators/CastedList.cs:84 | the stored element for an index in range, `IndexOutOfRange` otherwise |
| `Lists.BackingList.SetItem` | Validators/CastedList.cs:85 | a read-only list raises `NotSupported`, an index out of range raises; otherwise only that position changes |
| `Lists.BackingList.Add` | Validators/CastedList.cs:66 | appends the element, or raises `NotSupported` on a read-only list and changes nothing |
| `Lists.BackingList.AddAll` | Validators/ListExtensions.cs:22-25 | `List<T>.AddRange` appends all values in order |
| `Lists.BackingList.Insert` | Validators/CastedList.cs:92 | inserts at an index in `0..Count`, raising `NotSupported` or `IndexOutOfRange` otherwise with nothing changed |
| `Lists.BackingList.Remove` | Validators/CastedList.cs:78 | removes the first equal element and reports whether there was one; read-only raises |
| `Lists.BackingList.RemoveAt` | Validators/CastedList.cs:95 | deletes the position for an index in range, raises otherwise with nothing changed |
| `Lists.BackingList.Clear` | Validators/CastedList.cs:69 | empties the list, or raises `NotSupported` on a read-only list |
| `Lists.BackingList.GetEnumerator` | Validators/CastedList.cs:56 | a fresh enumerator over the current contents, before the first element, not yet disposed |
| `Lists.BaseCursor.MoveNext` | Validators/CastedEnumerator.cs:33 | true exactly when another element follows, and then the position advances by one; otherwise it rests after the end |
| `Lists.BaseCursor.Current` | Validators/CastedEnumerator.cs:31 | the element under the cursor, `InvalidOperation` before the first or after the last |
| `Lists.BaseCursor.Reset` | Validators/CastedEnumerator.cs:35 | back to before the first element, or `NotSupported` with the position unchanged |
| `Lists.BaseCursor.Dispose` | Validators/CastedEnumerator.cs:53 | counts one disposal |
| `CastedEnumerators.CastedEnumerator.constructor` | Validators/CastedEnumerator.cs:24-27 | wraps the given enumerator, however often it was disposed before, with this enumerator not yet disposed |
| `CastedEnumerators.CastedEnumerator.CurrentUncast` | Validators/CastedEnumerator.cs:31 | the backing current element, without any cast |
| `CastedEnumerators.CastedEnumerator.Current` | Validators/CastedEnumerator.cs:38 | the backing current element exactly when it is a `TTo`; a present element of the wrong class gives `InvalidCast` |
| `CastedEnumerators.CastedEnumerator.MoveNext` | Validators/CastedEnumerator.cs:33 | returns exactly the backing `MoveNext` result and moves the backing position as it does |
| `CastedEnumerators.CastedEnumerator.Reset` | Validators/CastedEnumerator.cs:35 | the backing enumerator's reset, including its `NotSupported` |
| `CastedEnumerators.CastedEnumerator.DisposeCore` | Validators/CastedEnumerator.cs:47-57 | the first call marks the enumerator disposed and, when disposing, disposes the backing one; later calls change nothing |
| `CastedEnumerators.CastedEnumerator.Dispose` | Validators/CastedEnumerator.cs:62-66 | afterwards the enumerator is disposed; it has disposed the backing one at most once, however often it is called, and exactly once when no finalizer-path disposal (`DisposeCore(false)`) came first |
| `CastedLists.CastedList.constructor` | Validators/CastedList.cs:25-27 | stores the given list as is |
| `CastedLists.CastedList.Count` | Validators/CastedList.cs:60 | always the backing list's current length |
| `CastedLists.CastedList.IsReadOnly` | Validators/CastedList.cs:63 | the backing list's flag |
| `CastedLists.CastedList.Get` | Validators/CastedList.cs:84 | succeeds exactly for an index in range holding a `TTo`, returning that reference; out of range raises `IndexOutOfRange`, a wrong class `InvalidCast` at that index only |
| `CastedLists.CastedList.Contains` | Validators/CastedList.cs:72 | the backing list's membership answer, or `InvalidCast` when the argument is not a `TFrom` |
| `CastedLists.CastedList.IndexOf` | Validators/CastedList.cs:89 | the backing list's first index of the element (-1 exactly when absent), or `InvalidCast` |
| `CastedLists.CastedList.Set` | Validators/CastedList.cs:85 | the cast to `TFrom` first, then the backing setter: only that position changes |
| `CastedLists.CastedList.Add` | Validators/CastedList.cs:66 | the backing list becomes `old + [item]`, or nothing changes and the cast or read-only error is raised |
| `CastedLists.CastedList.Insert` | Validators/CastedList.cs:92 | the backing list gets the item at the index, or nothing changes and the error is raised |
| `CastedLists.CastedList.Remove` | Validators/CastedList.cs:78 | the backing list loses its first occurrence of the item and the result says whether there was one |
| `CastedLists.CastedList.RemoveAt` | Validators/CastedList.cs:95 | the backing list loses that position, or raises with nothing changed |
| `CastedLists.CastedList.Clear` | Validators/CastedList.cs:69 | the backing list becomes empty, or raises `NotSupported` |
| `CastedLists.CastedList.GetEnumerator` | Validators/CastedList.cs:56 | a fresh casting enumerator over a fresh backing enumerator on the current contents |
| `CastedLists.CastedList.GetEnumeratorUncast` | Validators/CastedList.cs:52 | the backing list's own enumerator |
| `CastedLists.CastedList.Enumerate` | Validators/CastedList.cs:56 | a `foreach` over the view yields the whole list exactly when every element is a `TTo`; otherwise it yields the prefix before the first other element and raises `InvalidCast` there |
| `CastedLists.WideningReadsSucceed` | Validators.Tests/CastedListTests.cs:118-129 | for the same type or a projection to the base class every read in range succeeds with the stored reference |
| `CastedLists.InsertThenRemoveAt` | Validators/CastedList.cs:92-95 | inserting through the view and removing at the same index leaves the backing list as it was |
| `ListExtensions.AddRange` | Validators/ListExtensions.cs:17-33 | null list or items raise `ArgumentNull` in that order; both the `List<T>` path and the per-item loop make the list `old + items`; a read-only list with items raises `NotSupported` and is unchanged |
| `ListExtensions.ArgumentsGuard` | Validators/ListExtensions.cs:47-49 | passes exactly when source and operation are present and `maxParallel >= 1`; otherwise the first failing check's exception, the range one with message "greater than or equal to 1" |
| `ListExtensions.Semaphore.constructor` | Validators/ListExtensions.cs:51 | all `maxParallel` permits free |
| `ListExtensions.Semaphore.TryWait` | Validators/ListExtensions.cs:63 | takes a permit exactly when one is free; held plus available stays the capacity |
| `ListExtensions.Semaphore.Release` | Validators/ListExtensions.cs:71 | gives one permit back |
| `ListExtensions.FollowsExtend` | Validators/ListExtensions.cs:53-55 | a run followed by one more step is a run |
| `ListExtensions.FollowsConcat` | Validators/ListExtensions.cs:53-55 | a run of `a` and, from where it ends, a run of `b` together are a run of `a + b` |
| `ListExtensions.ApplyWithinPermits` | Validators/ListExtensions.cs:63 | no step takes the number of running operations above `maxParallel` |
| `ListExtensions.FollowsWithinPermits` | Validators/ListExtensions.cs:51-56 | every snapshot of a run that starts within the permit count stays within it, whatever the steps |
| `ListExtensions.FinishedRunIsPermutation` | Validators/ListExtensions.cs:53-55 | once every task has finished, the completion order lists each task exactly once |
| `ListExtensions.AdmitTask` | Validators/ListExtensions.cs:63 | a waiting task starts exactly when it gets a permit, which is exactly when `Apply` admits it; every held permit still belongs to a running task |
| `ListExtensions.FinishTask` | Validators/ListExtensions.cs:64-72 | a running task finishes and is appended to the completion order once, as `Apply` says; its permit is released |
| `ListExtensions.TakeStep` | Validators/ListExtensions.cs:63-72 | one scheduler step acts on the tasks exactly as `Apply` says, keeping every held permit tied to a running task |
| `ListExtensions.RunTrace` | Validators/ListExtensions.cs:51-55 | from all tasks waiting and every permit free, the returned history is the run of the whole trace and ends in the returned state |
| `ListExtensions.DrainRunning` | Validators/ListExtensions.cs:53-55 | afterwards no task is running, and the returned history is the run of the drain's steps from the state before to the state after |
| `ListExtensions.RunAlone` | Validators/ListExtensions.cs:63-72 | with nothing running, a waiting task is admitted and finishes; the history is the run of `Admit(i)`, `Finish(i)` |
| `ListExtensions.DrainWaiting` | Validators/ListExtensions.cs:53-55 | afterwards every task has finished, and the returned history is the run of the drain's steps from the state before to the state after |
| `ListExtensions.RunThrottled` | Validators/ListExtensions.cs:51-56 | for every trace, the history is the run of the trace and then the drain, from all tasks waiting to all done; the returned completion order is that of its last snapshot and is a permutation; no snapshot has more than `maxParallel` operations running |
| `ListExtensions.Gather` | Validators/ListExtensions.cs:67 | the elements at the listed indices, in the listed order |
| `ListExtensions.GatherPermutation` | Validators/ListExtensions.cs:53-55 | gathering by a completion order that is a permutation gives every source element as often as the source holds it |
| `ListExtensions.ForEachAsync` | Validators/ListExtensions.cs:43-74 | the guard decides failure, with no callback then; otherwise, for every trace, the ghost history is the run of the trace and the drain from all tasks waiting to all done, within `maxParallel` running operations at every snapshot; `completion` is the order of its last snapshot, a permutation, and the callback runs once per source element in that order |
| `ListExtensions.ForEachAsyncWithResult` | Validators/ListExtensions.cs:85-116 | as above (the history tied to the trace and the permits, `completion` the order it ends in), and each callback receives the element with the result of its own operation |
| `ListExtensions.FanIn` | Validators/ListExtensions.cs:136-152 | whatever completion permutation, the slots are written in completion order (`log == completion`, so each slot exactly once) and the read-out has length `Count` with `result[i] == selector(source[i])` |
| `ListExtensions.ForEachOrderedAsync` | Validators/ListExtensions.cs:127-171 | the guard decides failure; otherwise, for every trace, the ghost history is the run of the trace and the drain, within `maxParallel` running operations, ending in a permutation `completion`; whatever that order, the result is the selector applied to each source element in source order |

Some methods replay scenarios on concrete lists, with the expected outcomes as assertions:

- `CastedLists.EmptyListEnumerates` replays Validators.Tests/CastedListTests.cs:13-22, and `CastedLists.SameTypeEnumerates` replays CastedListTests.cs:26-39.
- `CastedLists.MixedListReads` replays the indexing of CastedListTests.cs:41-54. It extends that test with an enumeration of the view, which stops with `InvalidCast` at the base-class element.
- `CastedLists.LateAdditionsVisible` replays CastedListTests.cs:57-70, the `foreach` of lines 65-67 included.
- `CastedLists.WritesReachBackingList` combines CastedListTests.cs:89-102 and 105-116. The `foreach` of lines 97-99 walks the backing list itself, so the scenario compares the backing list's items instead.
- `CastedLists.WideningViewReads` replays the read of CastedListTests.cs:119-129. It extends that test with an `Add(Base(7))` through the view, which no test has; the add raises `InvalidCast`.
- `CastedEnumerators.DisposeRepeatedly` replays the idempotent disposal of Validators/CastedEnumerator.cs:47-57. No test disposes an enumerator more than once; the `foreach` loops at CastedListTests.cs:18, 34 and 65 dispose one each, as `CastedLists.CastedList.Enumerate` does.

## Left out

- Event forwarding of `CastedList` (`PropertyChanged`, `CollectionChanged`) is observer plumbing, and as written it forwards nothing.
- `CastedList.CopyTo` depends on array covariance and array type-mismatch checks, which have no sequence counterpart.
- Null elements are not modelled. Every `Elem` is a live object, so the `!` casts on null never arise.
- `Lists.BaseCursor.Current` raises `InvalidOperation` before the first element and after the last, as an array's enumerator and the non-generic `IEnumerator.Current` do. The generic `List<T>.Enumerator.Current` instead returns `default(T)`, which is null. So over a `List<T>`, `CastedEnumerator.Current` and `IEnumerator.Current` (Validators/CastedEnumerator.cs:31, 38) return null there instead of raising. The model has no null element to return.
- `CastedLists.CastedList.constructor` takes a list that is present. The source accepts null and stores it (Validators/CastedList.cs:25-27), and then every later member call raises `NullReferenceException`. That null state is not modelled.
- `ListExtensions.AddRange` receives `items` as a value, fixed when the call begins. In the source, `items` can be the list itself. On the per-item path (Validators/ListExtensions.cs:28-31), enumerating a list while adding to it then raises `InvalidOperationException` after the first `Add` when the enumerator checks versions, and otherwise never ends. The model returns `old + items` there instead.
- `Lists.BaseCursor` enumerates a snapshot: `List<T>`'s version check is not modelled. In .NET that check raises `InvalidOperationException` when the list changes during enumeration.
- `CastedEnumerators.CastedEnumerator.Dispose`: `GC.SuppressFinalize` is runtime bookkeeping with no visible state, so it is not modelled.
- `ListExtensions.ForEachAsync`: the operation and the callback never fail in the model. Aggregate failures, and the permit a failing operation never releases, are not modelled.
- `ListExtensions.ForEachAsyncWithResult`: the same success-path restriction as `ForEachAsync`.
- `ListExtensions.ForEachOrderedAsync`: the same success-path restriction.
- The runners do not model real threads, `ConfigureAwait`, or disposing the semaphore at the end of `using`. Interleavings are covered by the arbitrary step trace.
- `ListExtensions.Semaphore.Release` requires a held permit, where .NET would raise `SemaphoreFullException`. Every release in the runners follows a successful wait.
- `Preconditions.CheckEnumValid` covers `int`-based enumerations only. For every other underlying type, `uint` included, the source throws: `Enum.IsDefined(typeof(T), intValue)` raises `ArgumentException` when the value's type is not the underlying type (Validators/Preconditions.cs:129), and `Convert.ToInt32` can overflow first. Reading the defined values by reflection (`Enum.GetValues`, `IsDefined`, the `[Flags]` lookup) is replaced by an `EnumType` value.
- `Preconditions.IsInRange` covers integer values only. The generic `IComparable<T>` version, and the floating-point cases of the tests, are not modelled.
- `ExtensionMethods.Clamp` covers integer values only, not an arbitrary `IComparable<T>`.
- `StringExtensions.Parse`: the `TypeDescriptor` converter and its `NotSupportedException` are a foreign call, so they become the `convert` parameter. `Parse` catches only `NotSupportedException` (Validators/StringExtensions.cs:56). Other exceptions from the converter propagate in the source and are not modelled; .NET's numeric converters, for one, wrap a failed parse in a different exception type.
- Message texts (resource strings, `FormatInvariant`, `ToStringInvariant`) depend on the culture. Each message is a tag that carries its bound values.
- `CheckAssignableFrom`, `CheckDerivesFrom`, `RangeClusiveAttribute`, `Cloning` and `CommandExtensions` use reflection, floating point or UI commands. They are outside this core.
