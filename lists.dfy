/**
 * The collections a casted view wraps: objects of a two-class hierarchy, the
 * runtime cast between the two static types, the backing `IList<TFrom>` with
 * the behaviour of `List<T>` (or of a read-only list), and its enumerator.
 */
module Lists {
  import opened Runtime

  /** A static element type: the base class, or the class derived from it. */
  datatype Kind = BaseClass | DerivedClass

  /**
   * An object reference. The constructor is its runtime class; `ref` stands
   * for its identity, so datatype equality is reference equality.
   */
  datatype Elem = Base(ref: int) | Derived(ref: int)

  /** Whether the object's runtime class is `k` or derives from it. */
  predicate IsA(e: Elem, k: Kind) {
    k == BaseClass || e.Derived?
  }

  /** `(k)(object)e`: the same reference when the runtime class fits, `InvalidCastException` otherwise. */
  function Cast(e: Elem, k: Kind): (r: Result<Elem>)
    ensures r.Success? <==> IsA(e, k)
    ensures r.Success? ==> r.value == e
    ensures r.Failure? ==> r.error == InvalidCast
  {
    if IsA(e, k) then Success(e) else Failure(InvalidCast)
  }

  /** Every object of static type `from` is also a `to`. */
  ghost predicate Widens(to: Kind, from: Kind) {
    forall e :: IsA(e, from) ==> IsA(e, to)
  }

  /** A cast always succeeds exactly for a same-type or a widening (to the base class) projection. */
  lemma WidensIff(to: Kind, from: Kind)
    ensures Widens(to, from) <==> (to == from || to == BaseClass)
  {
    if to == DerivedClass && from == BaseClass {
      assert IsA(Base(0), from) && !IsA(Base(0), to);
    }
  }

  // ---------------------------------------------------------------------------
  // Sequence operations that specify the list members
  // ---------------------------------------------------------------------------

  /** The index of the first occurrence of `x`, or -1. */
  function FirstIndexOf<T(==)>(s: seq<T>, x: T): (r: int)
    ensures -1 <= r < |s|
    ensures r == -1 <==> x !in s
    ensures 0 <= r ==> s[r] == x && forall j :: 0 <= j < r ==> s[j] != x
  {
    if s == [] then -1
    else if s[0] == x then 0
    else
      var k := FirstIndexOf(s[1..], x);
      if k < 0 then -1 else k + 1
  }

  /** `s` without its first occurrence of `x` (unchanged when there is none). */
  function RemoveFirst<T(==)>(s: seq<T>, x: T): (r: seq<T>)
  {
    if s == [] then []
    else if s[0] == x then s[1..]
    else [s[0]] + RemoveFirst(s[1..], x)
  }

  /** Removing an absent element changes nothing. */
  lemma {:induction false} RemoveFirstAbsent<T>(s: seq<T>, x: T)
    requires x !in s
    ensures RemoveFirst(s, x) == s
  {
    if s != [] {
      RemoveFirstAbsent(s[1..], x);
      assert [s[0]] + s[1..] == s;
    }
  }

  /** Removing a present element cuts out its first occurrence; the rest keeps its order. */
  lemma {:induction false} RemoveFirstSplice<T>(s: seq<T>, x: T)
    requires x in s
    ensures RemoveFirst(s, x) == s[..FirstIndexOf(s, x)] + s[FirstIndexOf(s, x) + 1..]
  {
    if s[0] != x {
      var t := s[1..];
      assert x in t;
      RemoveFirstSplice(t, x);
      var k := FirstIndexOf(t, x);
      calc {
        RemoveFirst(s, x);
        [s[0]] + RemoveFirst(t, x);
        [s[0]] + (t[..k] + t[k + 1..]);
        ([s[0]] + t[..k]) + t[k + 1..];
        { assert [s[0]] + t[..k] == s[..k + 1]; assert t[k + 1..] == s[k + 2..]; }
        s[..k + 1] + s[k + 2..];
      }
    }
  }

  /** Removal introduces no element. */
  lemma {:induction false} RemoveFirstKeeps<T>(s: seq<T>, x: T)
    ensures forall e | e in RemoveFirst(s, x) :: e in s
  {
    if s != [] && s[0] != x {
      RemoveFirstKeeps(s[1..], x);
    }
  }

  /** Cutting position `k` out of a sequence takes one copy of its element out of the multiset. */
  lemma CutOne<T>(s: seq<T>, k: nat)
    requires k < |s|
    ensures multiset(s) == multiset(s[..k] + s[k + 1..]) + multiset{s[k]}
  {
    assert s == s[..k] + [s[k]] + s[k + 1..];
  }

  /** Removal takes away exactly one copy of `x` when there is one, and nothing else. */
  lemma RemoveFirstMultiset<T>(s: seq<T>, x: T)
    ensures |RemoveFirst(s, x)| == if x in s then |s| - 1 else |s|
    ensures multiset(RemoveFirst(s, x)) == multiset(s) - multiset{x}
  {
    if x in s {
      RemoveFirstSplice(s, x);
      CutOne(s, FirstIndexOf(s, x));
    } else {
      RemoveFirstAbsent(s, x);
      assert x !in multiset(s);
    }
  }

  /** `s` with `x` placed at position `i`, later elements shifted up. */
  function InsertAt<T>(s: seq<T>, i: nat, x: T): (r: seq<T>)
    requires i <= |s|
  {
    s[..i] + [x] + s[i..]
  }

  /** `s` without position `i`, later elements shifted down. */
  function DeleteAt<T>(s: seq<T>, i: nat): (r: seq<T>)
    requires i < |s|
  {
    s[..i] + s[i + 1..]
  }

  /** The shape of an insertion: `x` at `i`, everything else in order around it. */
  lemma InsertAtShape<T>(s: seq<T>, i: nat, x: T)
    requires i <= |s|
    ensures |InsertAt(s, i, x)| == |s| + 1 && InsertAt(s, i, x)[i] == x
    ensures forall j :: 0 <= j < i ==> InsertAt(s, i, x)[j] == s[j]
    ensures forall j :: i < j <= |s| ==> InsertAt(s, i, x)[j] == s[j - 1]
  {
  }

  /** Deleting what was just inserted at the same position restores the sequence. */
  lemma DeleteAtInsertAt<T>(s: seq<T>, i: nat, x: T)
    requires i <= |s|
    ensures DeleteAt(InsertAt(s, i, x), i) == s
  {
    assert InsertAt(s, i, x)[..i] == s[..i];
    assert InsertAt(s, i, x)[i + 1..] == s[i..];
    assert s[..i] + s[i..] == s;
  }

  // ---------------------------------------------------------------------------
  // The backing list
  // ---------------------------------------------------------------------------

  /**
   * The wrapped `IList<TFrom>`: its element type, whether it refuses
   * mutation (`IsReadOnly`), whether it is a concrete `List<T>`, and its
   * contents.
   */
  class BackingList {
    const elemKind: Kind
    const readOnly: bool
    const isConcreteList: bool
    var items: seq<Elem>

    /** A `List<T>` is never read-only, and every element has the list's static type. */
    ghost predicate Valid()
      reads this
    {
      (isConcreteList ==> !readOnly) && forall e | e in items :: IsA(e, elemKind)
    }

    constructor (elemKind: Kind, readOnly: bool, isConcreteList: bool, items: seq<Elem>)
      requires isConcreteList ==> !readOnly
      requires forall e | e in items :: IsA(e, elemKind)
      ensures Valid()
      ensures this.elemKind == elemKind && this.readOnly == readOnly
      ensures this.isConcreteList == isConcreteList && this.items == items
    {
      this.elemKind := elemKind;
      this.readOnly := readOnly;
      this.isConcreteList := isConcreteList;
      this.items := items;
    }

    /** The indexer's getter: out-of-range indices raise. */
    function GetItem(index: int): (r: Result<Elem>)
      reads this
      ensures r.Success? <==> 0 <= index < |items|
      ensures r.Success? ==> r.value == items[index]
      ensures r.Failure? ==> r.error == IndexOutOfRange(index)
    {
      if 0 <= index < |items| then Success(items[index]) else Failure(IndexOutOfRange(index))
    }

    /** The indexer's setter. */
    method SetItem(index: int, value: Elem) returns (o: Outcome)
      requires Valid() && IsA(value, elemKind)
      modifies this
      ensures Valid()
      ensures o == if readOnly then Fail(NotSupported)
                   else if 0 <= index < old(|items|) then Pass
                   else Fail(IndexOutOfRange(index))
      ensures items == if o.Pass? then old(items)[index := value] else old(items)
    {
      if readOnly {
        return Fail(NotSupported);
      }
      if !(0 <= index < |items|) {
        return Fail(IndexOutOfRange(index));
      }
      items := items[index := value];
      o := Pass;
    }

    method Add(value: Elem) returns (o: Outcome)
      requires Valid() && IsA(value, elemKind)
      modifies this
      ensures Valid()
      ensures o == if readOnly then Fail(NotSupported) else Pass
      ensures items == if o.Pass? then old(items) + [value] else old(items)
    {
      if readOnly {
        return Fail(NotSupported);
      }
      items := items + [value];
      o := Pass;
    }

    /** `List<T>.AddRange`: appends all of `values` at once. */
    method AddAll(values: seq<Elem>)
      requires Valid() && isConcreteList
      requires forall e | e in values :: IsA(e, elemKind)
      modifies this
      ensures Valid()
      ensures items == old(items) + values
    {
      items := items + values;
    }

    method Insert(index: int, value: Elem) returns (o: Outcome)
      requires Valid() && IsA(value, elemKind)
      modifies this
      ensures Valid()
      ensures o == if readOnly then Fail(NotSupported)
                   else if 0 <= index <= old(|items|) then Pass
                   else Fail(IndexOutOfRange(index))
      ensures items == if o.Pass? then InsertAt(old(items), index, value) else old(items)
    {
      if readOnly {
        return Fail(NotSupported);
      }
      if !(0 <= index <= |items|) {
        return Fail(IndexOutOfRange(index));
      }
      items := InsertAt(items, index, value);
      o := Pass;
    }

    /** Removes the first equal element and reports whether there was one. */
    method Remove(value: Elem) returns (r: Result<bool>)
      requires Valid()
      modifies this
      ensures Valid()
      ensures r == if readOnly then Failure(NotSupported) else Success(value in old(items))
      ensures items == if r.Success? then RemoveFirst(old(items), value) else old(items)
    {
      if readOnly {
        return Failure(NotSupported);
      }
      r := Success(value in items);
      RemoveFirstKeeps(items, value);
      items := RemoveFirst(items, value);
    }

    method RemoveAt(index: int) returns (o: Outcome)
      requires Valid()
      modifies this
      ensures Valid()
      ensures o == if readOnly then Fail(NotSupported)
                   else if 0 <= index < old(|items|) then Pass
                   else Fail(IndexOutOfRange(index))
      ensures items == if o.Pass? then DeleteAt(old(items), index) else old(items)
    {
      if readOnly {
        return Fail(NotSupported);
      }
      if !(0 <= index < |items|) {
        return Fail(IndexOutOfRange(index));
      }
      items := DeleteAt(items, index);
      o := Pass;
    }

    method Clear() returns (o: Outcome)
      requires Valid()
      modifies this
      ensures Valid()
      ensures o == if readOnly then Fail(NotSupported) else Pass
      ensures items == if o.Pass? then [] else old(items)
    {
      if readOnly {
        return Fail(NotSupported);
      }
      items := [];
      o := Pass;
    }

    /** A fresh enumerator over the current contents, positioned before the first element. */
    method GetEnumerator() returns (c: BaseCursor)
      ensures fresh(c) && c.Valid()
      ensures c.items == items && c.canReset && c.position == -1 && c.disposeCount == 0
    {
      c := new BaseCursor(items, true);
    }
  }

  /**
   * The enumerator of the backing list, over the contents it was created on.
   * `position` is -1 before the first element and `|items|` after the last.
   */
  class BaseCursor {
    const items: seq<Elem>
    const canReset: bool
    var position: int
    ghost var disposeCount: nat

    ghost predicate Valid()
      reads this
    {
      -1 <= position <= |items|
    }

    constructor (items: seq<Elem>, canReset: bool)
      ensures Valid() && this.items == items && this.canReset == canReset
      ensures position == -1 && disposeCount == 0
    {
      this.items := items;
      this.canReset := canReset;
      position := -1;
      disposeCount := 0;
    }

    /** Steps to the next element; past the last one it stays after the end. */
    method MoveNext() returns (more: bool)
      requires Valid()
      modifies this`position
      ensures Valid()
      ensures more <==> old(position) + 1 < |items|
      ensures position == if more then old(position) + 1 else |items|
    {
      if position + 1 < |items| {
        position := position + 1;
        more := true;
      } else {
        position := |items|;
        more := false;
      }
    }

    /** The element under the cursor; before the first or after the last there is none. */
    function Current(): (r: Result<Elem>)
      reads this
      ensures r.Success? <==> 0 <= position < |items|
      ensures r.Success? ==> r.value == items[position]
      ensures r.Failure? ==> r.error == InvalidOperation
    {
      if 0 <= position < |items| then Success(items[position]) else Failure(InvalidOperation)
    }

    method Reset() returns (o: Outcome)
      requires Valid()
      modifies this`position
      ensures Valid()
      ensures o == if canReset then Pass else Fail(NotSupported)
      ensures position == if canReset then -1 else old(position)
    {
      if !canReset {
        return Fail(NotSupported);
      }
      position := -1;
      o := Pass;
    }

    method Dispose()
      modifies this`disposeCount
      ensures disposeCount == old(disposeCount) + 1
    {
      disposeCount := disposeCount + 1;
    }
  }
}
