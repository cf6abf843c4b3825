/**
 * `CastedList<TTo, TFrom>`: a live view of an `IList<TFrom>` as an
 * `IList<TTo>`. Nothing is copied or cached: every read goes to the backing
 * list and casts the element at that moment, every write casts the argument
 * back to `TFrom` and changes the backing list itself.
 */
module CastedLists {
  import opened Runtime
  import opened Lists
  import opened CastedEnumerators

  class CastedList {
    /** The projected element type `TTo`. */
    const toKind: Kind
    /** `BaseList`: the wrapped list, shared with every other holder of it. */
    const baseList: BackingList

    ghost predicate Valid()
      reads this, baseList
    {
      baseList.Valid()
    }

    /** The constructor stores the list as given; it performs no null check. */
    constructor (toKind: Kind, baseList: BackingList)
      requires baseList.Valid()
      ensures Valid()
      ensures this.toKind == toKind && this.baseList == baseList
    {
      this.toKind := toKind;
      this.baseList := baseList;
    }

    /** `Count`: always the backing list's current length. */
    function Count(): (n: nat)
      reads this, baseList
      ensures n == |baseList.items|
    {
      |baseList.items|
    }

    /** `IsReadOnly`: the backing list's flag. */
    function IsReadOnly(): (b: bool)
      reads this, baseList
      ensures b <==> baseList.readOnly
    {
      baseList.readOnly
    }

    /**
     * The indexer's getter: the backing element at `index` when its runtime
     * class is a `TTo`. An index outside the list raises; an element of the
     * wrong class raises `InvalidCastException` at that index only.
     */
    function Get(index: int): (r: Result<Elem>)
      reads this, baseList
      ensures r.Success? <==> 0 <= index < |baseList.items| && IsA(baseList.items[index], toKind)
      ensures r.Success? ==> r.value == baseList.items[index]
      ensures !(0 <= index < |baseList.items|) ==> r == Failure(IndexOutOfRange(index))
      ensures 0 <= index < |baseList.items| && r.Failure? ==> r.error == InvalidCast
    {
      match baseList.GetItem(index)
      case Failure(e) => Failure(e)
      case Success(v) => Cast(v, toKind)
    }

    /** `Contains`: casts the argument to `TFrom`, then asks the backing list. */
    function Contains(item: Elem): (r: Result<bool>)
      reads this, baseList
      requires IsA(item, toKind)
      ensures r.Success? <==> IsA(item, baseList.elemKind)
      ensures r.Success? ==> (r.value <==> item in baseList.items)
      ensures r.Failure? ==> r.error == InvalidCast
    {
      match Cast(item, baseList.elemKind)
      case Failure(e) => Failure(e)
      case Success(v) => Success(v in baseList.items)
    }

    /** `IndexOf`: casts the argument to `TFrom`, then asks the backing list. */
    function IndexOf(item: Elem): (r: Result<int>)
      reads this, baseList
      requires IsA(item, toKind)
      ensures r.Success? <==> IsA(item, baseList.elemKind)
      ensures r.Success? ==> -1 <= r.value < |baseList.items|
      ensures r.Success? ==> (r.value == -1 <==> item !in baseList.items)
      ensures r.Success? && 0 <= r.value ==>
        baseList.items[r.value] == item && forall j :: 0 <= j < r.value ==> baseList.items[j] != item
      ensures r.Failure? ==> r.error == InvalidCast
    {
      match Cast(item, baseList.elemKind)
      case Failure(e) => Failure(e)
      case Success(v) => Success(FirstIndexOf(baseList.items, v))
    }

    /** The indexer's setter: the cast to `TFrom` happens before the list is touched. */
    method Set(index: int, value: Elem) returns (o: Outcome)
      requires Valid() && IsA(value, toKind)
      modifies baseList
      ensures Valid()
      ensures o == if !IsA(value, baseList.elemKind) then Fail(InvalidCast)
                   else if baseList.readOnly then Fail(NotSupported)
                   else if 0 <= index < old(|baseList.items|) then Pass
                   else Fail(IndexOutOfRange(index))
      ensures baseList.items == if o.Pass? then old(baseList.items)[index := value] else old(baseList.items)
    {
      var c := Cast(value, baseList.elemKind);
      if c.Failure? {
        return Fail(c.error);
      }
      o := baseList.SetItem(index, c.value);
    }

    method Add(item: Elem) returns (o: Outcome)
      requires Valid() && IsA(item, toKind)
      modifies baseList
      ensures Valid()
      ensures o == if !IsA(item, baseList.elemKind) then Fail(InvalidCast)
                   else if baseList.readOnly then Fail(NotSupported)
                   else Pass
      ensures baseList.items == if o.Pass? then old(baseList.items) + [item] else old(baseList.items)
    {
      var c := Cast(item, baseList.elemKind);
      if c.Failure? {
        return Fail(c.error);
      }
      o := baseList.Add(c.value);
    }

    method Insert(index: int, item: Elem) returns (o: Outcome)
      requires Valid() && IsA(item, toKind)
      modifies baseList
      ensures Valid()
      ensures o == if !IsA(item, baseList.elemKind) then Fail(InvalidCast)
                   else if baseList.readOnly then Fail(NotSupported)
                   else if 0 <= index <= old(|baseList.items|) then Pass
                   else Fail(IndexOutOfRange(index))
      ensures baseList.items == if o.Pass? then InsertAt(old(baseList.items), index, item) else old(baseList.items)
    {
      var c := Cast(item, baseList.elemKind);
      if c.Failure? {
        return Fail(c.error);
      }
      o := baseList.Insert(index, c.value);
    }

    /** Removes the first equal element of the backing list and reports whether there was one. */
    method Remove(item: Elem) returns (r: Result<bool>)
      requires Valid() && IsA(item, toKind)
      modifies baseList
      ensures Valid()
      ensures r == if !IsA(item, baseList.elemKind) then Failure(InvalidCast)
                   else if baseList.readOnly then Failure(NotSupported)
                   else Success(item in old(baseList.items))
      ensures baseList.items == if r.Success? then RemoveFirst(old(baseList.items), item) else old(baseList.items)
    {
      var c := Cast(item, baseList.elemKind);
      if c.Failure? {
        return Failure(c.error);
      }
      r := baseList.Remove(c.value);
    }

    /** `RemoveAt` takes an index only, so nothing is cast. */
    method RemoveAt(index: int) returns (o: Outcome)
      requires Valid()
      modifies baseList
      ensures Valid()
      ensures o == if baseList.readOnly then Fail(NotSupported)
                   else if 0 <= index < old(|baseList.items|) then Pass
                   else Fail(IndexOutOfRange(index))
      ensures baseList.items == if o.Pass? then DeleteAt(old(baseList.items), index) else old(baseList.items)
    {
      o := baseList.RemoveAt(index);
    }

    method Clear() returns (o: Outcome)
      requires Valid()
      modifies baseList
      ensures Valid()
      ensures o == if baseList.readOnly then Fail(NotSupported) else Pass
      ensures baseList.items == if o.Pass? then [] else old(baseList.items)
    {
      o := baseList.Clear();
    }

    /** `IEnumerable<TTo>.GetEnumerator`: a casting enumerator over a fresh backing enumerator. */
    method GetEnumerator() returns (e: CastedEnumerator)
      requires Valid()
      ensures fresh(e) && fresh(e.baseEnumerator) && e.Valid()
      ensures e.toKind == toKind && !e.disposedValue
      ensures e.baseEnumerator.items == baseList.items && e.baseEnumerator.position == -1
      ensures e.baseEnumerator.disposeCount == 0
    {
      var c := baseList.GetEnumerator();
      e := new CastedEnumerator(toKind, c);
    }

    /** `IEnumerable.GetEnumerator`: the backing list's own enumerator, no casting. */
    method GetEnumeratorUncast() returns (c: BaseCursor)
      requires Valid()
      ensures fresh(c) && c.Valid()
      ensures c.items == baseList.items && c.position == -1 && c.disposeCount == 0
    {
      c := baseList.GetEnumerator();
    }

    /**
     * `foreach (var x in view) { }`: runs the enumerator to its end, or to the
     * first element that is not a `TTo`, where the loop raises
     * `InvalidCastException`; in both cases the enumerator is disposed.
     * `yielded` is what the loop variable took, in order.
     */
    method Enumerate() returns (yielded: seq<Elem>, o: Outcome)
      requires Valid()
      ensures o.Pass? <==> forall e | e in baseList.items :: IsA(e, toKind)
      ensures o.Pass? ==> yielded == baseList.items
      ensures o.Fail? ==> o.error == InvalidCast && |yielded| < |baseList.items| &&
                          yielded == baseList.items[..|yielded|] && !IsA(baseList.items[|yielded|], toKind)
      ensures forall e | e in yielded :: IsA(e, toKind)
    {
      var en := GetEnumerator();
      var cursor := en.baseEnumerator;
      yielded := [];
      o := Pass;
      var more := en.MoveNext();
      while more
        invariant en.Valid() && en.baseEnumerator == cursor && en.toKind == toKind
        invariant cursor.items == baseList.items
        invariant 0 <= cursor.position <= |cursor.items|
        invariant more <==> cursor.position < |cursor.items|
        invariant yielded == cursor.items[..cursor.position]
        invariant forall e | e in yielded :: IsA(e, toKind)
        decreases |cursor.items| - cursor.position
      {
        var c := en.Current();
        if c.Failure? {
          o := Fail(c.error);
          break;
        }
        yielded := yielded + [c.value];
        more := en.MoveNext();
      }
      en.Dispose();
    }
  }

  /** When every `TFrom` is a `TTo` (the same type, or a widening), every read in range succeeds and returns the stored reference. */
  lemma WideningReadsSucceed(v: CastedList, index: int)
    requires v.Valid() && (v.toKind == v.baseList.elemKind || v.toKind == BaseClass)
    requires 0 <= index < v.Count()
    ensures v.Get(index) == Success(v.baseList.items[index])
  {
    assert v.baseList.items[index] in v.baseList.items;
  }

  /** `Insert(i, x)` followed by `RemoveAt(i)` leaves the backing list as it was. */
  method InsertThenRemoveAt(v: CastedList, index: int, item: Elem)
    requires v.Valid() && IsA(item, v.toKind) && IsA(item, v.baseList.elemKind) && !v.baseList.readOnly
    requires 0 <= index <= v.Count()
    modifies v.baseList
    ensures v.Valid() && v.baseList.items == old(v.baseList.items)
  {
    var o1 := v.Insert(index, item);
    var o2 := v.RemoveAt(index);
    DeleteAtInsertAt(old(v.baseList.items), index, item);
  }

  // ---------------------------------------------------------------------------
  // The documented scenarios, replayed on concrete lists, outcomes checked by assertions
  // ---------------------------------------------------------------------------

  /** A view over an empty list enumerates nothing and raises nothing. */
  method EmptyListEnumerates() {
    var list := new BackingList(BaseClass, false, true, []);
    var view := new CastedList(DerivedClass, list);
    var yielded, o := view.Enumerate();
    assert yielded == [] && o == Pass;
  }

  /** A view of the list's own element type enumerates without raising. */
  method SameTypeEnumerates() {
    var list := new BackingList(BaseClass, false, true, [Base(5)]);
    var view := new CastedList(BaseClass, list);
    var yielded, o := view.Enumerate();
    assert yielded == [Base(5)] && o == Pass;
  }

  /** Reading a base-class element through a derived view fails at that index only. */
  method MixedListReads() {
    var list := new BackingList(BaseClass, false, true, [Derived(5), Base(5)]);
    var view := new CastedList(DerivedClass, list);
    assert view.Get(0) == Success(Derived(5));
    assert view.Get(1) == Failure(InvalidCast);
    var yielded, o := view.Enumerate();
    assert yielded == [Derived(5)] && o == Fail(InvalidCast);
  }

  /** Elements added to the backing list after the view was made are visible through it. */
  method LateAdditionsVisible() {
    var list := new BackingList(BaseClass, false, true, []);
    var view := new CastedList(DerivedClass, list);
    var o1 := list.Add(Derived(5));
    var o2 := list.Add(Derived(6));
    var yielded, o := view.Enumerate();
    assert yielded == [Derived(5), Derived(6)] && o == Pass;
    assert view.Count() == 2;
    assert view.Get(0) == Success(Derived(5)) && view.Get(1) == Success(Derived(6));
  }

  /** Writes through the view land in the shared backing list; `Remove` takes out the first match. */
  method WritesReachBackingList() {
    var list := new BackingList(BaseClass, false, true, []);
    var view := new CastedList(DerivedClass, list);
    var o1 := view.Add(Derived(5));
    var o2 := view.Add(Derived(6));
    assert list.items == [Derived(5), Derived(6)];
    var first := view.Get(0);
    var removed := view.Remove(first.value);
    assert removed == Success(true) && list.items == [Derived(6)];
  }

  /** A view to the base class of a derived list reads every element. */
  method WideningViewReads() {
    var list := new BackingList(DerivedClass, false, true, [Derived(5)]);
    var view := new CastedList(BaseClass, list);
    assert view.Get(0) == Success(Derived(5));
    var stranger := view.Add(Base(7));
    assert stranger == Fail(InvalidCast) && list.items == [Derived(5)];
  }
}
