/**
  A list kept sorted by a key function, and helpers that treat tuples, lists
  and dicts alike: their values, their depth, their first value, and their
  layout as rows of cells.
*/
module Iterables {
  import opened Py

  // ================================================================ SortedList

  ghost predicate Ascending(values: seq<int>) {
    forall i, j :: 0 <= i < j < |values| ==> values[i] <= values[j]
  }

  /** `a` occurs in `b` in the same order, possibly with other elements between. */
  ghost predicate OrderKept<T>(a: seq<T>, b: seq<T>) {
    exists idx: seq<nat> :: Embeds(idx, a, b)
  }

  /** `idx` picks, strictly increasing, the positions of `b` that hold `a`. */
  ghost predicate Embeds<T>(idx: seq<nat>, a: seq<T>, b: seq<T>) {
    && |idx| == |a|
    && (forall i :: 0 <= i < |idx| ==> idx[i] < |b| && b[idx[i]] == a[i])
    && (forall i, j :: 0 <= i < j < |idx| ==> idx[i] < idx[j])
  }

  lemma OrderKeptTrans<T>(a: seq<T>, b: seq<T>, c: seq<T>)
    requires OrderKept(a, b) && OrderKept(b, c)
    ensures OrderKept(a, c)
  {
    var ab: seq<nat> :| Embeds(ab, a, b);
    var bc: seq<nat> :| Embeds(bc, b, c);
    var ac := seq(|a|, i requires 0 <= i < |a| => bc[ab[i]]);
    assert Embeds(ac, a, c);
  }

  lemma OrderKeptRefl<T>(a: seq<T>)
    ensures OrderKept(a, a)
  {
    var idx := seq(|a|, i requires 0 <= i < |a| => i);
    assert Embeds(idx, a, a);
  }

  /** The key of each object, in order. */
  function KeysOf<T>(f: T -> int, objects: seq<T>): (r: seq<int>)
    ensures |r| == |objects|
    ensures forall i :: 0 <= i < |objects| ==> r[i] == f(objects[i])
  {
    seq(|objects|, i requires 0 <= i < |objects| => f(objects[i]))
  }

  /** Where `add` inserts a value: before the first value that is not smaller, else at the end. */
  function InsertIndex(values: seq<int>, v: int): (r: nat)
    ensures r <= |values|
    ensures forall j :: 0 <= j < r ==> values[j] < v
    ensures r < |values| ==> v <= values[r]
  {
    if values == [] || v <= values[0] then 0 else 1 + InsertIndex(values[1..], v)
  }

  /** The objects after `add` has inserted `x`. */
  function Inserted<T>(f: T -> int, objects: seq<T>, x: T): seq<T> {
    var i := InsertIndex(KeysOf(f, objects), f(x));
    objects[..i] + [x] + objects[i..]
  }

  /** The objects after `add(*xs)`: each one inserted in turn. */
  function InsertedAll<T>(f: T -> int, objects: seq<T>, xs: seq<T>): seq<T>
    decreases |xs|
  {
    if xs == [] then objects else InsertedAll(f, Inserted(f, objects, xs[0]), xs[1..])
  }

  /** The index of the first element equal to `x`. */
  function FirstIndex<T(==)>(s: seq<T>, x: T): (r: nat)
    requires x in s
    ensures r < |s| && s[r] == x
    ensures forall j :: 0 <= j < r ==> s[j] != x
  {
    FirstIndexFrom(s, x, 0)
  }

  function FirstIndexFrom<T(==)>(s: seq<T>, x: T, from: nat): (r: nat)
    requires from <= |s| && exists j :: from <= j < |s| && s[j] == x
    ensures from <= r < |s| && s[r] == x
    ensures forall j :: from <= j < r ==> s[j] != x
    decreases |s| - from
  {
    if s[from] == x then from else FirstIndexFrom(s, x, from + 1)
  }

  /** The objects after `remove` has deleted the first occurrence of `x`, if any. */
  function Removed<T(==)>(objects: seq<T>, x: T): seq<T> {
    if x !in objects then objects
    else
      var i := FirstIndex(objects, x);
      objects[..i] + objects[i + 1..]
  }

  /** The objects after `remove(*xs)`. */
  function RemovedAll<T(==)>(objects: seq<T>, xs: seq<T>): seq<T>
    decreases |xs|
  {
    if xs == [] then objects else RemovedAll(Removed(objects, xs[0]), xs[1..])
  }

  // ---------------------------------------------------------------- properties of insertion and removal

  /** `InsertIndex` is the only index with smaller keys before it and a key not smaller at it. */
  lemma {:induction false} InsertIndexUnique(values: seq<int>, v: int, i: nat)
    requires i <= |values|
    requires forall j :: 0 <= j < i ==> values[j] < v
    requires i < |values| ==> v <= values[i]
    ensures i == InsertIndex(values, v)
    decreases |values|
  {
    if values != [] && v > values[0] {
      InsertIndexUnique(values[1..], v, i - 1);
    }
  }

  /** Inserting at `InsertIndex` keeps the keys ascending. */
  lemma InsertedAscending<T>(f: T -> int, objects: seq<T>, x: T)
    requires Ascending(KeysOf(f, objects))
    ensures Ascending(KeysOf(f, Inserted(f, objects, x)))
  {
    var keys := KeysOf(f, objects);
    var i := InsertIndex(keys, f(x));
    var r := Inserted(f, objects, x);
    var rk := KeysOf(f, r);
    assert |r| == |objects| + 1;
    forall a | 0 <= a < |rk|
      ensures rk[a] == if a < i then keys[a] else if a == i then f(x) else keys[a - 1]
    {
      if a < i {
        assert r[a] == objects[a];
      } else if a > i {
        assert r[a] == objects[a - 1];
      }
    }
    forall a, b | 0 <= a < b < |rk|
      ensures rk[a] <= rk[b]
    {
      if b == i {
        assert keys[a] < f(x);
      } else if a == i {
        assert keys[i] <= keys[b - 1];
      }
    }
  }

  /** Inserting adds exactly the one object and keeps the others in their order. */
  lemma InsertedContents<T>(f: T -> int, objects: seq<T>, x: T)
    ensures |Inserted(f, objects, x)| == |objects| + 1
    ensures multiset(Inserted(f, objects, x)) == multiset(objects) + multiset{x}
    ensures OrderKept(objects, Inserted(f, objects, x))
  {
    var i := InsertIndex(KeysOf(f, objects), f(x));
    var r := Inserted(f, objects, x);
    assert objects == objects[..i] + objects[i..];
    var idx := seq(|objects|, k requires 0 <= k < |objects| => if k < i then k else k + 1);
    assert Embeds(idx, objects, r);
  }

  /**
    `add(*xs)` keeps the keys ascending, grows the list by `|xs|`, adds exactly
    the objects of `xs`, and keeps the existing objects in their order.
  */
  lemma {:induction false} InsertedAllProps<T>(f: T -> int, objects: seq<T>, xs: seq<T>)
    requires Ascending(KeysOf(f, objects))
    ensures Ascending(KeysOf(f, InsertedAll(f, objects, xs)))
    ensures |InsertedAll(f, objects, xs)| == |objects| + |xs|
    ensures multiset(InsertedAll(f, objects, xs)) == multiset(objects) + multiset(xs)
    ensures OrderKept(objects, InsertedAll(f, objects, xs))
    decreases |xs|
  {
    if xs == [] {
      OrderKeptRefl(objects);
    } else {
      var next := Inserted(f, objects, xs[0]);
      InsertedAscending(f, objects, xs[0]);
      InsertedContents(f, objects, xs[0]);
      InsertedAllProps(f, next, xs[1..]);
      assert xs == [xs[0]] + xs[1..];
      OrderKeptTrans(objects, next, InsertedAll(f, next, xs[1..]));
    }
  }

  /** Removing one element keeps the keys ascending. */
  lemma RemovedAscending<T>(f: T -> int, objects: seq<T>, x: T)
    requires Ascending(KeysOf(f, objects))
    ensures Ascending(KeysOf(f, Removed(objects, x)))
  {
    if x in objects {
      var i := FirstIndex(objects, x);
      var r := Removed(objects, x);
      var keys, rk := KeysOf(f, objects), KeysOf(f, r);
      assert |r| == |objects| - 1;
      forall a | 0 <= a < |rk|
        ensures rk[a] == if a < i then keys[a] else keys[a + 1]
      {
        if a < i {
          assert r[a] == objects[a];
        } else {
          assert r[a] == objects[a + 1];
        }
      }
    }
  }

  /**
    Removal deletes the first occurrence of a present object and nothing else,
    keeping the others in order, and leaves the list unchanged when the object
    is absent.
  */
  lemma RemovedContents<T>(objects: seq<T>, x: T)
    ensures x !in objects ==> Removed(objects, x) == objects
    ensures x in objects ==> multiset(Removed(objects, x)) == multiset(objects) - multiset{x}
    ensures x in objects ==>
      var i := FirstIndex(objects, x);
      Removed(objects, x)[..i] == objects[..i] && Removed(objects, x)[i..] == objects[i + 1..]
    ensures OrderKept(Removed(objects, x), objects)
  {
    if x in objects {
      var i := FirstIndex(objects, x);
      assert Removed(objects, x) == objects[..i] + objects[i + 1..];
      DropAt(objects, i);
      assert objects[i] == x;
    }
    RemovedOrderKept(objects, x);
  }

  /** Dropping the element at `i`. */
  lemma DropAt<T>(objects: seq<T>, i: nat)
    requires i < |objects|
    ensures var r := objects[..i] + objects[i + 1..];
      && multiset(r) == multiset(objects) - multiset{objects[i]}
      && r[..i] == objects[..i] && r[i..] == objects[i + 1..]
  {
    assert objects == objects[..i] + [objects[i]] + objects[i + 1..];
  }

  lemma RemovedOrderKept<T>(objects: seq<T>, x: T)
    ensures OrderKept(Removed(objects, x), objects)
  {
    if x in objects {
      var i := FirstIndex(objects, x);
      var r := Removed(objects, x);
      var idx := seq(|r|, k requires 0 <= k < |r| => if k < i then k else k + 1);
      assert Embeds(idx, r, objects);
    } else {
      OrderKeptRefl(objects);
    }
  }

  /**
    `remove(*xs)` keeps the keys ascending, removes only objects that were
    there, and keeps the remaining ones in their order.
  */
  lemma {:induction false} RemovedAllProps<T>(f: T -> int, objects: seq<T>, xs: seq<T>)
    requires Ascending(KeysOf(f, objects))
    ensures Ascending(KeysOf(f, RemovedAll(objects, xs)))
    ensures multiset(RemovedAll(objects, xs)) <= multiset(objects)
    ensures OrderKept(RemovedAll(objects, xs), objects)
    decreases |xs|
  {
    if xs == [] {
      OrderKeptRefl(objects);
    } else {
      var next := Removed(objects, xs[0]);
      RemovedAscending(f, objects, xs[0]);
      RemovedContents(objects, xs[0]);
      RemovedAllProps(f, next, xs[1..]);
      OrderKeptTrans(RemovedAll(next, xs[1..]), next, objects);
    }
  }

  /** One step of `add`: the slices the method writes are the inserted lists, and the keys stay in step. */
  lemma InsertStep<T>(f: T -> int, objects: seq<T>, values: seq<int>, x: T, index: nat)
    requires values == KeysOf(f, objects) && Ascending(values)
    requires index == InsertIndex(values, f(x))
    ensures objects[..index] + [x] + objects[index..] == Inserted(f, objects, x)
    ensures values[..index] + [f(x)] + values[index..] == KeysOf(f, Inserted(f, objects, x))
    ensures Ascending(KeysOf(f, Inserted(f, objects, x)))
  {
    InsertedAscending(f, objects, x);
  }

  /** `remove(*xs)` from position `k` on is one removal followed by the rest. */
  lemma RemovedAllStep<T>(objects: seq<T>, xs: seq<T>, k: nat)
    requires k < |xs|
    ensures RemovedAll(objects, xs[k..]) == RemovedAll(Removed(objects, xs[k]), xs[k + 1..])
  {
    assert xs[k..][1..] == xs[k + 1..];
  }

  /** One step of `remove`: the slices the method writes are the reduced lists, and the keys stay in step. */
  lemma RemoveStep<T>(f: T -> int, objects: seq<T>, values: seq<int>, x: T)
    requires values == KeysOf(f, objects) && Ascending(values)
    requires x in objects
    ensures var i := FirstIndex(objects, x);
      && objects[..i] + objects[i + 1..] == Removed(objects, x)
      && values[..i] + values[i + 1..] == KeysOf(f, Removed(objects, x))
      && Ascending(KeysOf(f, Removed(objects, x)))
  {
    RemovedAscending(f, objects, x);
  }

  /**
    `SortedList`: `objects` in ascending order of `getValueFunc`, with the
    key of each object kept alongside in `values`.
  */
  class SortedList<T(==)> {
    const getValueFunc: T -> int
    var objects: seq<T>
    var values: seq<int>

    ghost predicate Valid()
      reads this
    {
      values == KeysOf(getValueFunc, objects) && Ascending(values)
    }

    /** `SortedList(*objects, getValueFunc=...)`: an empty list, then `add(*objects)`. */
    constructor (getValueFunc: T -> int, objects: seq<T>)
      ensures Valid()
      ensures this.getValueFunc == getValueFunc
      ensures this.objects == InsertedAll(getValueFunc, [], objects)
    {
      this.getValueFunc := getValueFunc;
      this.objects := [];
      this.values := [];
      new;
      Add(objects);
    }

    /** `add(*objects)`: each object inserted before the first one whose key is not smaller. */
    method Add(objs: seq<T>)
      requires Valid()
      modifies this
      ensures Valid()
      ensures objects == InsertedAll(getValueFunc, old(objects), objs)
    {
      var k := 0;
      assert objs[k..] == objs;
      while k < |objs|
        invariant 0 <= k <= |objs|
        invariant Valid()
        invariant InsertedAll(getValueFunc, objects, objs[k..]) == InsertedAll(getValueFunc, old(objects), objs)
      {
        assert objs[k..][1..] == objs[k + 1..];
        var newObj := objs[k];
        var newValue := getValueFunc(newObj);
        var index := |objects|;
        var i := 0;
        while i < |objects|
          invariant 0 <= i <= |objects|
          invariant forall j :: 0 <= j < i ==> values[j] < newValue
        {
          if newValue <= values[i] {
            index := i;
            break;
          }
          i := i + 1;
        }
        InsertIndexUnique(values, newValue, index);
        InsertStep(getValueFunc, objects, values, newObj, index);
        objects := objects[..index] + [newObj] + objects[index..];
        values := values[..index] + [newValue] + values[index..];
        k := k + 1;
      }
    }

    /** `remove(*objects)`: the first equal occurrence of each present object is deleted; absent ones are skipped. */
    method Remove(objs: seq<T>)
      requires Valid()
      modifies this
      ensures Valid()
      ensures objects == RemovedAll(old(objects), objs)
    {
      var k := 0;
      assert objs[k..] == objs;
      while k < |objs|
        invariant 0 <= k <= |objs|
        invariant Valid()
        invariant RemovedAll(objects, objs[k..]) == RemovedAll(old(objects), objs)
      {
        RemovedAllStep(objects, objs, k);
        RemoveOne(objs[k]);
        k := k + 1;
      }
    }

    /** One object of `remove(*objects)`: its first occurrence and that key are popped, if it is there. */
    method RemoveOne(removeObj: T)
      requires Valid()
      modifies this
      ensures Valid()
      ensures objects == Removed(old(objects), removeObj)
    {
      if removeObj in objects {
        var index := FirstIndex(objects, removeObj);
        RemoveStep(getValueFunc, objects, values, removeObj);
        objects, values := objects[..index] + objects[index + 1..], values[..index] + values[index + 1..];
      }
    }
  }

  // ================================================================ iterable helpers

  /** `getIterable`: the values of a tuple, list or dict as a list; `None` stands for the `False` it returns otherwise. */
  function GetIterable(obj: Value): (r: Option<seq<Value>>)
    ensures r.Some? <==> obj.Tuple? || obj.List? || obj.Dict?
    ensures (obj.Tuple? || obj.List?) ==> r == Some(obj.items)
    ensures obj.Dict? ==> (r.Some? && |r.value| == |obj.entries| &&
      forall i :: 0 <= i < |obj.entries| ==> r.value[i] == obj.entries[i].1)
  {
    match obj
    case Tuple(items) => Some(items)
    case List(items) => Some(items)
    case Dict(entries) => Some(Values(entries))
    case _ => None
  }

  /** `isIterable`: whether `getIterable` gives a list rather than `False`. */
  predicate IsIterable(obj: Value) {
    GetIterable(obj).Some?
  }

  /**
    Exactly tuples, lists and dicts are iterable here, empty ones included:
    `isIterable(5)` is false and `isIterable([])` is true.
  */
  lemma IsIterableKinds(obj: Value)
    ensures IsIterable(obj) <==> obj.Tuple? || obj.List? || obj.Dict?
    ensures !IsIterable(Int(5)) && IsIterable(List([]))
  {
  }

  /** `dictFirstValue`: the first-inserted value, `None` for an empty dict, and a TypeError for anything else. */
  function DictFirstValue(dictionary: Value): (r: Result<Value>)
    ensures !dictionary.Dict? <==> r == Failure(TypeError)
    ensures dictionary.Dict? && dictionary.entries == [] ==> r == Success(PyNone)
    ensures dictionary.Dict? && dictionary.entries != [] ==>
      r == Success(dictionary.entries[0].1)
  {
    match dictionary
    case Dict(entries) =>
      if entries == [] then Success(PyNone)
      else Success(DictGet(entries, Keys(entries)[0]).value)
    case _ => Failure(TypeError)
  }

  /**
    `iterFirstValue`: element 0 of a tuple or list, the first-inserted value
    of a dict, `None` for an empty container, and a TypeError when the
    object is not iterable.
  */
  function IterFirstValue(obj: Value): (r: Result<Value>)
    ensures !IsIterable(obj) <==> r == Failure(TypeError)
    ensures IsIterable(obj) && GetIterable(obj).value == [] ==> r == Success(PyNone)
    ensures IsIterable(obj) && GetIterable(obj).value != [] ==> r == Success(GetIterable(obj).value[0])
  {
    if !IsIterable(obj) then Failure(TypeError)
    else if obj.Tuple? || obj.List? then
      if obj.items == [] then Success(PyNone) else Success(obj.items[0])
    else
      DictFirstValue(obj)
  }

  // ---------------------------------------------------------------- depth

  /** How many times the first value can be taken while the object is a non-empty tuple, list or dict. */
  function DepthOf(obj: Value): (r: nat)
    ensures r == 0 <==> !IsIterable(obj) || GetIterable(obj).value == []
  {
    match obj
    case Tuple(items) => if items == [] then 0 else 1 + DepthOf(items[0])
    case List(items) => if items == [] then 0 else 1 + DepthOf(items[0])
    case Dict(entries) => if entries == [] then 0 else 1 + DepthOf(entries[0].1)
    case _ => 0
  }

  /** `depth`: walks to the first value while `getIterable` gives a non-empty list. */
  method Depth(obj: Value) returns (depth: nat)
    ensures depth == DepthOf(obj)
  {
    depth := 0;
    var o := obj;
    while true
      invariant depth + DepthOf(o) == DepthOf(obj)
      decreases o
    {
      var it := GetIterable(o);
      if it.Some? && it.value != [] {
        var first := IterFirstValue(o);
        o := first.value;
        depth := depth + 1;
      } else {
        return;
      }
    }
  }

  /** `v` wrapped `k` times in a one-element list. */
  function Nested(v: Value, k: nat): Value {
    if k == 0 then v else List([Nested(v, k - 1)])
  }

  /** Each level of nesting on the first value adds one to the depth. */
  lemma {:induction false} DepthOfNested(v: Value, k: nat)
    ensures DepthOf(Nested(v, k)) == k + DepthOf(v)
  {
    if k > 0 {
      DepthOfNested(v, k - 1);
    }
  }

  /** The depth counts only the chain of first values: later elements do not change it. */
  lemma DepthOfIgnoresRest(first: Value, rest: seq<Value>, others: seq<Value>)
    ensures DepthOf(List([first] + rest)) == DepthOf(Tuple([first] + others))
  {
    assert ([first] + rest)[0] == first && ([first] + others)[0] == first;
  }

  // ---------------------------------------------------------------- addToListInDict

  /**
    The dict after `addToListInDict`: an absent key maps to a new one-element
    list, a present list gets `value` appended. Appending to anything but a
    list is an AttributeError, and an unhashable key a TypeError.
  */
  function AddedToList(entries: seq<(Value, Value)>, key: Value, value: Value): (r: Result<seq<(Value, Value)>>)
    ensures !Hashable(key) ==> r == Failure(TypeError)
    ensures Hashable(key) && key !in Keys(entries) ==>
      r.Success? && DictGet(r.value, key) == Some(List([value])) && Keys(r.value) == Keys(entries) + [key]
    ensures Hashable(key) && key in Keys(entries) ==>
      match DictGet(entries, key).value
      case List(items) =>
        r.Success? && DictGet(r.value, key) == Some(List(items + [value])) && Keys(r.value) == Keys(entries)
      case _ => r == Failure(AttributeError)
    ensures r.Success? ==> forall k :: k != key ==> DictGet(r.value, k) == DictGet(entries, k)
  {
    if !Hashable(key) then Failure(TypeError)
    else
      match DictGet(entries, key)
      case None => Success(DictSet(entries, key, List([value])))
      case Some(List(items)) => Success(DictSet(entries, key, List(items + [value])))
      case Some(_) => Failure(AttributeError)
  }

  /** A dict object, updated in place. */
  class PyDict {
    var entries: seq<(Value, Value)>

    constructor (entries: seq<(Value, Value)>)
      ensures this.entries == entries
    {
      this.entries := entries;
    }
  }

  /**
    `addToListInDict`: updates `dictionary` in place, or raises and leaves it
    as it was.
  */
  method AddToListInDict(dictionary: PyDict, key: Value, value: Value) returns (e: Option<Error>)
    modifies dictionary
    ensures AddedToList(old(dictionary.entries), key, value).Success? ==>
      e == None && dictionary.entries == AddedToList(old(dictionary.entries), key, value).value
    ensures AddedToList(old(dictionary.entries), key, value).Failure? ==>
      e == Some(AddedToList(old(dictionary.entries), key, value).error) && dictionary.entries == old(dictionary.entries)
  {
    if !Hashable(key) {
      return Some(TypeError);
    }
    var current := DictGet(dictionary.entries, key);
    if current.None? {
      dictionary.entries := DictSet(dictionary.entries, key, List([value]));
      e := None;
    } else if current.value.List? {
      dictionary.entries := DictSet(dictionary.entries, key, List(current.value.items + [value]));
      e := None;
    } else {
      e := Some(AttributeError);
    }
  }

  // ---------------------------------------------------------------- rows

  /** Python's `<` between two strings: by code point, a proper prefix first. */
  predicate StrLess(a: string, b: string) {
    if a == [] then b != []
    else b != [] && (a[0] < b[0] || (a[0] == b[0] && StrLess(a[1..], b[1..])))
  }

  /** Two dict keys that `sorted` can compare: both ints or both strings. */
  predicate Comparable(a: Value, b: Value) {
    (a.Int? && b.Int?) || (a.Str? && b.Str?)
  }

  /** `a <= b` for comparable keys. */
  predicate KeyLe(a: Value, b: Value)
    requires Comparable(a, b)
  {
    if a.Int? then a.i <= b.i else a == b || StrLess(a.s, b.s)
  }

  /** `sorted(d.items())` on distinct keys compares keys only; it raises TypeError unless all keys are mutually comparable. */
  predicate SortableKeys(entries: seq<(Value, Value)>) {
    |entries| <= 1 ||
    (forall i :: 0 <= i < |entries| ==> entries[i].0.Int?) ||
    (forall i :: 0 <= i < |entries| ==> entries[i].0.Str?)
  }

  predicate SameKind(entries: seq<(Value, Value)>, k: Value) {
    forall i :: 0 <= i < |entries| ==> Comparable(entries[i].0, k)
  }

  /** Sorted by key, each neighbour not smaller than the one before. */
  predicate SortedByKey(entries: seq<(Value, Value)>) {
    forall i :: 0 <= i < |entries| - 1 ==>
      Comparable(entries[i].0, entries[i + 1].0) && KeyLe(entries[i].0, entries[i + 1].0)
  }

  lemma {:induction false} StrLessTotal(a: string, b: string)
    ensures a == b || StrLess(a, b) || StrLess(b, a)
  {
    if a != [] && b != [] && a[0] == b[0] {
      StrLessTotal(a[1..], b[1..]);
      if a[1..] == b[1..] {
        assert a == [a[0]] + a[1..] && b == [b[0]] + b[1..];
      }
    }
  }

  lemma KeyLeTotal(a: Value, b: Value)
    requires Comparable(a, b)
    ensures KeyLe(a, b) || KeyLe(b, a)
  {
    if a.Str? {
      StrLessTotal(a.s, b.s);
    }
  }

  /** Places `e` before the first entry whose key is not smaller. */
  function InsertByKey(e: (Value, Value), sorted: seq<(Value, Value)>): (r: seq<(Value, Value)>)
    requires SameKind(sorted, e.0)
    ensures multiset(r) == multiset(sorted) + multiset{e}
    ensures |r| == |sorted| + 1
  {
    if sorted == [] || KeyLe(e.0, sorted[0].0) then [e] + sorted
    else
      assert sorted == [sorted[0]] + sorted[1..];
      [sorted[0]] + InsertByKey(e, sorted[1..])
  }

  /** The entries of a dict ordered by key, as `sorted(d.items())` gives them. */
  function SortByKey(entries: seq<(Value, Value)>): (r: seq<(Value, Value)>)
    requires SortableKeys(entries)
    ensures multiset(r) == multiset(entries)
    ensures |r| == |entries|
  {
    if entries == [] then []
    else
      SortableTail(entries);
      var rest := SortByKey(entries[1..]);
      SortedKind(entries, rest);
      assert entries == [entries[0]] + entries[1..];
      InsertByKey(entries[0], rest)
  }

  lemma SortByKeyCons(entries: seq<(Value, Value)>)
    requires SortableKeys(entries) && entries != []
    ensures SortableKeys(entries[1..]) && SameKind(SortByKey(entries[1..]), entries[0].0)
    ensures SortByKey(entries) == InsertByKey(entries[0], SortByKey(entries[1..]))
  {
    SortableTail(entries);
    SortedKind(entries, SortByKey(entries[1..]));
  }

  lemma SortableTail(entries: seq<(Value, Value)>)
    requires SortableKeys(entries) && entries != []
    ensures SortableKeys(entries[1..])
  {
    if |entries| > 1 {
      if forall i :: 0 <= i < |entries| ==> entries[i].0.Int? {
        assert forall i :: 0 <= i < |entries[1..]| ==> entries[1..][i] == entries[i + 1];
      } else {
        assert forall i :: 0 <= i < |entries[1..]| ==> entries[1..][i] == entries[i + 1];
      }
    }
  }

  /** A permutation of the later entries holds only keys comparable with the first. */
  lemma SortedKind(entries: seq<(Value, Value)>, rest: seq<(Value, Value)>)
    requires SortableKeys(entries) && entries != []
    requires multiset(rest) == multiset(entries[1..])
    ensures SameKind(rest, entries[0].0)
  {
    if |entries| == 1 {
      assert |multiset(rest)| == 0;
    } else {
      forall i | 0 <= i < |rest|
        ensures Comparable(rest[i].0, entries[0].0)
      {
        assert rest[i] in multiset(entries[1..]);
        var j :| 0 <= j < |entries[1..]| && entries[1..][j] == rest[i];
        assert entries[j + 1] == rest[i];
      }
    }
  }

  lemma {:induction false} InsertByKeySorted(e: (Value, Value), sorted: seq<(Value, Value)>)
    requires SameKind(sorted, e.0) && SortedByKey(sorted)
    ensures SortedByKey(InsertByKey(e, sorted))
    ensures InsertByKey(e, sorted)[0] == e || (sorted != [] && InsertByKey(e, sorted)[0] == sorted[0])
  {
    if sorted != [] && !KeyLe(e.0, sorted[0].0) {
      InsertByKeySorted(e, sorted[1..]);
      KeyLeTotal(e.0, sorted[0].0);
    }
  }

  /** `SortByKey` is a permutation of the entries sorted by key. */
  lemma {:induction false} SortByKeySorted(entries: seq<(Value, Value)>)
    requires SortableKeys(entries)
    ensures SortedByKey(SortByKey(entries))
  {
    if entries != [] {
      SortableTail(entries);
      var rest := SortByKey(entries[1..]);
      SortByKeySorted(entries[1..]);
      SortedKind(entries, rest);
      InsertByKeySorted(entries[0], rest);
    }
  }

  /**
    The cells `_getRows_getRow` makes: the key when it is truthy, then the
    elements of a list or tuple, or the values of a dict in key order. Any
    other object gives no cells of its own.
  */
  function RowOf(iterableObj: Value, key: Value): (r: Result<seq<Value>>)
    ensures r.Failure? <==> iterableObj.Dict? && !SortableKeys(iterableObj.entries)
    ensures r.Success? ==> |r.value| == (if Truthy(key) then 1 else 0) + |Cells(iterableObj)|
    ensures r.Success? && Truthy(key) ==> r.value[0] == key
  {
    var row := if Truthy(key) then [key] else [];
    match iterableObj
    case List(items) => Success(row + items)
    case Tuple(items) => Success(row + items)
    case Dict(entries) => if SortableKeys(entries) then Success(row + Values(SortByKey(entries))) else Failure(TypeError)
    case _ => Success(row)
  }

  /** What an object contributes to its row, ignoring order. */
  function Cells(obj: Value): seq<Value> {
    match obj
    case List(items) => items
    case Tuple(items) => items
    case Dict(entries) => Values(entries)
    case _ => []
  }

  /**
    A dict's cells are all of its values, once each, with their keys
    ascending.
  */
  lemma RowOfDict(entries: seq<(Value, Value)>, key: Value)
    requires SortableKeys(entries)
    ensures var prefix := if Truthy(key) then [key] else [];
      exists s ::
        && multiset(s) == multiset(entries) && SortedByKey(s)
        && RowOf(Dict(entries), key) == Success(prefix + Values(s))
  {
    SortByKeySorted(entries);
  }

  /** `_getRows_getRow`: the key when truthy, then the object's cells, appended one by one for a dict. */
  method GetRow(iterableObj: Value, key: Value) returns (r: Result<seq<Value>>)
    ensures r == RowOf(iterableObj, key)
  {
    var row := if Truthy(key) then [key] else [];
    if iterableObj.List? || iterableObj.Tuple? {
      row := row + iterableObj.items;
    } else if iterableObj.Dict? {
      if !SortableKeys(iterableObj.entries) {
        return Failure(TypeError);
      }
      var sorted := SortByKey(iterableObj.entries);
      var start := row;
      for i := 0 to |sorted|
        invariant row == start + Values(sorted[..i])
      {
        ValuesSnoc(sorted, i);
        row := row + [sorted[i].1];
      }
      assert sorted[..|sorted|] == sorted;
    }
    r := Success(row);
  }

  lemma ValuesSnoc(entries: seq<(Value, Value)>, i: nat)
    requires i < |entries|
    ensures Values(entries[..i + 1]) == Values(entries[..i]) + [entries[i].1]
  {
    var a := Values(entries[..i + 1]);
    var b := Values(entries[..i]) + [entries[i].1];
    assert |a| == |b|;
    forall j | 0 <= j < |a|
      ensures a[j] == b[j]
    {
    }
  }

  /** The rows of a sequence of sub-objects, each with the key `keys` gives it. */
  function RowsOfEach(subObjs: seq<Value>, keys: seq<Value>): (r: Result<seq<seq<Value>>>)
    requires |keys| == |subObjs|
    ensures r.Failure? <==> exists i :: 0 <= i < |subObjs| && RowOf(subObjs[i], keys[i]).Failure?
    ensures r.Success? ==> (|r.value| == |subObjs| &&
      forall i :: 0 <= i < |subObjs| ==> RowOf(subObjs[i], keys[i]) == Success(r.value[i]))
  {
    if exists i :: 0 <= i < |subObjs| && RowOf(subObjs[i], keys[i]).Failure? then Failure(TypeError)
    else Success(seq(|subObjs|, i requires 0 <= i < |subObjs| => RowOf(subObjs[i], keys[i]).value))
  }

  /**
    `getRows`: `None` and empty containers give no rows; a container whose
    first value is iterable gives one row per value (keyed for a dict); any
    other container gives one row of its own cells; and a value that is not
    iterable is a single cell.
  */
  function RowsOf(obj: Value): (r: Result<seq<seq<Value>>>)
  {
    match obj
    case PyNone => Success([])
    case List(items) => RowsOfSeq(obj, items)
    case Tuple(items) => RowsOfSeq(obj, items)
    case Dict(entries) =>
      if entries == [] then Success([])
      else if IsIterable(entries[0].1) then RowsOfEach(Values(entries), Keys(entries))
      else var row :- RowOf(obj, PyNone); Success([row])
    case _ => Success([[obj]])
  }

  function RowsOfSeq(obj: Value, items: seq<Value>): Result<seq<seq<Value>>> {
    if items == [] then Success([])
    else if IsIterable(items[0]) then RowsOfEach(items, seq(|items|, _ => PyNone))
    else var row :- RowOf(obj, PyNone); Success([row])
  }

  method RowsOfEachLoop(subObjs: seq<Value>, keys: seq<Value>) returns (r: Result<seq<seq<Value>>>)
    requires |keys| == |subObjs|
    ensures r == RowsOfEach(subObjs, keys)
  {
    var rows: seq<seq<Value>> := [];
    for i := 0 to |subObjs|
      invariant |rows| == i
      invariant forall j :: 0 <= j < i ==> RowOf(subObjs[j], keys[j]) == Success(rows[j])
    {
      var row := GetRow(subObjs[i], keys[i]);
      if row.Failure? {
        assert RowOf(subObjs[i], keys[i]).Failure?;
        return Failure(TypeError);
      }
      rows := rows + [row.value];
    }
    assert rows == seq(|subObjs|, i requires 0 <= i < |subObjs| => RowOf(subObjs[i], keys[i]).value);
    r := Success(rows);
  }

  /** `getRows`, appending one row at a time. */
  method GetRows(obj: Value) returns (r: Result<seq<seq<Value>>>)
    ensures r == RowsOf(obj)
  {
    if obj.PyNone? {
      return Success([]);
    }
    if IsIterable(obj) {
      var values := GetIterable(obj).value;
      if |values| == 0 {
        return Success([]);
      }
      if obj.List? || obj.Tuple? {
        if IsIterable(obj.items[0]) {
          r := RowsOfEachLoop(obj.items, seq(|obj.items|, _ => PyNone));
        } else {
          var row := GetRow(obj, PyNone);
          r := Success([row.value]);
        }
      } else {
        var first := DictFirstValue(obj);
        if IsIterable(first.value) {
          r := RowsOfEachLoop(Values(obj.entries), Keys(obj.entries));
        } else {
          var row := GetRow(obj, PyNone);
          if row.Failure? {
            return Failure(row.error);
          }
          r := Success([row.value]);
        }
      }
    } else {
      r := Success([[obj]]);
    }
  }

  /** `getRows` gives no rows exactly for `None` and empty containers, and a single cell for anything not iterable. */
  lemma RowsOfEmptyAndScalar(obj: Value)
    ensures RowsOf(obj) == Success([]) <==> obj.PyNone? || (IsIterable(obj) && GetIterable(obj).value == [])
    ensures !obj.PyNone? && !IsIterable(obj) ==> RowsOf(obj) == Success([[obj]])
  {
  }

  /**
    A non-empty container whose first value is iterable gives one row per
    value, each the row of that value, keyed by its dict key; otherwise the
    container gives exactly one row, its own.
  */
  lemma RowsOfContainer(obj: Value)
    requires IsIterable(obj) && GetIterable(obj).value != []
    ensures var values := GetIterable(obj).value;
      IsIterable(values[0]) && RowsOf(obj).Success? ==>
        && |RowsOf(obj).value| == |values|
        && forall i :: 0 <= i < |values| ==>
             RowOf(values[i], if obj.Dict? then obj.entries[i].0 else PyNone) == Success(RowsOf(obj).value[i])
    ensures !IsIterable(GetIterable(obj).value[0]) ==>
      match RowOf(obj, PyNone)
      case Success(row) => RowsOf(obj) == Success([row])
      case Failure(e) => RowsOf(obj) == Failure(e)
    ensures RowsOf(obj).Failure? ==> RowsOf(obj) == Failure(TypeError)
  {
  }

  /** Rows that each succeed make up the rows of the whole sequence. */
  lemma RowsOfEachAllSucceed(subObjs: seq<Value>, keys: seq<Value>, rows: seq<seq<Value>>)
    requires |keys| == |subObjs| == |rows|
    requires forall i :: 0 <= i < |subObjs| ==> RowOf(subObjs[i], keys[i]) == Success(rows[i])
    ensures RowsOfEach(subObjs, keys) == Success(rows)
  {
    assert !exists i :: 0 <= i < |subObjs| && RowOf(subObjs[i], keys[i]).Failure?;
    assert seq(|subObjs|, i requires 0 <= i < |subObjs| => RowOf(subObjs[i], keys[i]).value) == rows;
  }

  /** The rows `[1, 2, 3]` and `[4, 5, 6]`, which every documented shape below gives. */
  function Expected(): seq<seq<Value>> {
    [[Int(1), Int(2), Int(3)], [Int(4), Int(5), Int(6)]]
  }

  /** Documented shape: a list of lists. */
  lemma RowsOfListOfLists()
    ensures RowsOf(List([List([Int(1), Int(2), Int(3)]), List([Int(4), Int(5), Int(6)])])) == Success(Expected())
  {
    var items := [List([Int(1), Int(2), Int(3)]), List([Int(4), Int(5), Int(6)])];
    var keys := seq(|items|, _ => PyNone);
    assert keys == [PyNone, PyNone];
    assert [] + items[0].items == Expected()[0] && [] + items[1].items == Expected()[1];
    assert RowOf(items[0], keys[0]) == Success(Expected()[0]);
    assert RowOf(items[1], keys[1]) == Success(Expected()[1]);
    RowsOfEachAllSucceed(items, keys, Expected());
  }

  /** A two-entry dict of containers gives each container's row led by its truthy key. */
  lemma RowsOfKeyedPair(ka: Value, a: Value, kb: Value, b: Value, rowA: seq<Value>, rowB: seq<Value>)
    requires IsIterable(a)
    requires RowOf(a, ka) == Success(rowA) && RowOf(b, kb) == Success(rowB)
    ensures RowsOf(Dict([(ka, a), (kb, b)])) == Success([rowA, rowB])
  {
    var entries := [(ka, a), (kb, b)];
    assert Values(entries) == [a, b] && Keys(entries) == [ka, kb];
    RowsOfEachAllSucceed(Values(entries), Keys(entries), [rowA, rowB]);
  }

  /** Documented shape: a dict of lists, each row led by its truthy key. */
  lemma RowsOfDictOfLists()
    ensures RowsOf(Dict([(Int(1), List([Int(2), Int(3)])), (Int(4), List([Int(5), Int(6)]))])) == Success(Expected())
  {
    assert [Int(1)] + [Int(2), Int(3)] == Expected()[0] && [Int(4)] + [Int(5), Int(6)] == Expected()[1];
    RowsOfKeyedPair(Int(1), List([Int(2), Int(3)]), Int(4), List([Int(5), Int(6)]), Expected()[0], Expected()[1]);
  }

  /** Entries already ascending by key come out of the sort unchanged. */
  lemma {:induction false} SortByKeyOfSorted(entries: seq<(Value, Value)>)
    requires SortableKeys(entries) && SortedByKey(entries)
    ensures SortByKey(entries) == entries
  {
    if entries != [] {
      SortableTail(entries);
      SortByKeyOfSorted(entries[1..]);
    }
  }

  /** A dict with ascending string keys gives its values in order, led by a truthy key. */
  lemma RowOfAscendingDict(entries: seq<(Value, Value)>, key: Value)
    requires (forall i :: 0 <= i < |entries| ==> entries[i].0.Str?) && SortedByKey(entries)
    ensures RowOf(Dict(entries), key) == Success((if Truthy(key) then [key] else []) + Values(entries))
  {
    SortByKeyOfSorted(entries);
  }

  /** A two-entry dict with ascending string keys gives its values in order, led by a truthy key. */
  lemma RowOfAscendingPair(k0: string, v0: Value, k1: string, v1: Value, key: Value)
    requires StrLess(k0, k1)
    ensures RowOf(Dict([(Str(k0), v0), (Str(k1), v1)]), key) == Success((if Truthy(key) then [key] else []) + [v0, v1])
    ensures Truthy(key) ==> RowOf(Dict([(Str(k0), v0), (Str(k1), v1)]), key) == Success([key, v0, v1])
  {
    var entries := [(Str(k0), v0), (Str(k1), v1)];
    AscendingPairSorted(entries, k0, k1);
    RowOfAscendingDict(entries, key);
    ValuesOfPair(entries);
    if Truthy(key) {
      assert [key] + [v0, v1] == [key, v0, v1];
    }
  }

  /** Two string keys in ascending order are sorted by key. */
  lemma AscendingPairSorted(entries: seq<(Value, Value)>, k0: string, k1: string)
    requires |entries| == 2 && entries[0].0 == Str(k0) && entries[1].0 == Str(k1)
    requires StrLess(k0, k1)
    ensures (forall i :: 0 <= i < |entries| ==> entries[i].0.Str?) && SortedByKey(entries)
  {
    assert KeyLe(entries[0].0, entries[1].0);
  }

  /** The values of two entries, in order. */
  lemma ValuesOfPair(entries: seq<(Value, Value)>)
    requires |entries| == 2
    ensures Values(entries) == [entries[0].1, entries[1].1]
  {
    var vs := Values(entries);
    assert |vs| == 2 && vs[0] == entries[0].1 && vs[1] == entries[1].1;
  }

  /** Three string keys in ascending order are sorted by key. */
  lemma AscendingTripleSorted(entries: seq<(Value, Value)>, k0: string, k1: string, k2: string)
    requires |entries| == 3 && entries[0].0 == Str(k0) && entries[1].0 == Str(k1) && entries[2].0 == Str(k2)
    requires StrLess(k0, k1) && StrLess(k1, k2)
    ensures (forall i :: 0 <= i < |entries| ==> entries[i].0.Str?) && SortedByKey(entries)
  {
    assert KeyLe(entries[0].0, entries[1].0) && KeyLe(entries[1].0, entries[2].0);
  }

  /** A three-entry dict with ascending string keys gives its values in order. */
  lemma RowOfAscendingTriple(k0: string, v0: Value, k1: string, v1: Value, k2: string, v2: Value)
    requires StrLess(k0, k1) && StrLess(k1, k2)
    ensures RowOf(Dict([(Str(k0), v0), (Str(k1), v1), (Str(k2), v2)]), PyNone) == Success([v0, v1, v2])
  {
    var entries := [(Str(k0), v0), (Str(k1), v1), (Str(k2), v2)];
    AscendingTripleSorted(entries, k0, k1, k2);
    RowOfAscendingDict(entries, PyNone);
    ValuesOfTriple(entries);
  }

  /** The values of three entries, in order. */
  lemma ValuesOfTriple(entries: seq<(Value, Value)>)
    requires |entries| == 3
    ensures [] + Values(entries) == [entries[0].1, entries[1].1, entries[2].1]
  {
    var vs := Values(entries);
    assert |vs| == 3 && vs[0] == entries[0].1 && vs[1] == entries[1].1 && vs[2] == entries[2].1;
  }

  /** A two-item list of containers gives each container's row, with no key in front. */
  lemma RowsOfListPair(a: Value, b: Value, rowA: seq<Value>, rowB: seq<Value>)
    requires IsIterable(a)
    requires RowOf(a, PyNone) == Success(rowA) && RowOf(b, PyNone) == Success(rowB)
    ensures RowsOf(List([a, b])) == Success([rowA, rowB])
  {
    var keys := seq(2, _ => PyNone);
    assert keys == [PyNone, PyNone];
    RowsOfEachAllSucceed([a, b], keys, [rowA, rowB]);
  }

  /** Documented shape: a list of dicts, each dict's values in key order. */
  lemma RowsOfListOfDicts()
    ensures RowsOf(List([Dict([(Str("a"), Int(1)), (Str("b"), Int(2)), (Str("c"), Int(3))]),
                         Dict([(Str("d"), Int(4)), (Str("e"), Int(5)), (Str("f"), Int(6))])])) == Success(Expected())
  {
    assert StrLess("a", "b") && StrLess("b", "c") && StrLess("d", "e") && StrLess("e", "f");
    RowOfAscendingTriple("a", Int(1), "b", Int(2), "c", Int(3));
    RowOfAscendingTriple("d", Int(4), "e", Int(5), "f", Int(6));
    RowsOfListPair(Dict([(Str("a"), Int(1)), (Str("b"), Int(2)), (Str("c"), Int(3))]),
                   Dict([(Str("d"), Int(4)), (Str("e"), Int(5)), (Str("f"), Int(6))]),
                   [Int(1), Int(2), Int(3)], [Int(4), Int(5), Int(6)]);
  }

  /** Documented shape: a dict of dicts, each row led by its truthy key. */
  lemma RowsOfDictOfDicts()
    ensures RowsOf(Dict([(Int(1), Dict([(Str("b"), Int(2)), (Str("c"), Int(3))])),
                         (Int(4), Dict([(Str("e"), Int(5)), (Str("f"), Int(6))]))])) == Success(Expected())
  {
    assert StrLess("b", "c") && StrLess("e", "f");
    RowOfAscendingPair("b", Int(2), "c", Int(3), Int(1));
    RowOfAscendingPair("e", Int(5), "f", Int(6), Int(4));
    RowsOfKeyedPair(Int(1), Dict([(Str("b"), Int(2)), (Str("c"), Int(3))]), Int(4), Dict([(Str("e"), Int(5)), (Str("f"), Int(6))]),
                    [Int(1), Int(2), Int(3)], [Int(4), Int(5), Int(6)]);
  }

  /** A dict's row follows key order, not insertion order: `{a: x, b: y}` with `b < a` gives `[y, x]`. */
  lemma RowOfDictFollowsKeys(a: int, x: Value, b: int, y: Value)
    requires b < a
    ensures RowOf(Dict([(Int(a), x), (Int(b), y)]), PyNone) == Success([y, x])
  {
    var e0, e1 := (Int(a), x), (Int(b), y);
    SortTwo(e0, e1);
    var v := Values([e1, e0]);
    assert v[0] == y && v[1] == x;
    assert v == [y, x];
    assert RowOf(Dict([e0, e1]), PyNone) == Success([] + v);
    assert [] + v == [y, x];
  }

  /** Two int-keyed entries given in descending key order come out swapped. */
  lemma SortTwo(e0: (Value, Value), e1: (Value, Value))
    requires e0.0.Int? && e1.0.Int? && e1.0.i < e0.0.i
    ensures SortableKeys([e0, e1]) && SortByKey([e0, e1]) == [e1, e0]
  {
    var d := [e0, e1];
    SortByKeyCons(d);
    assert d[1..] == [e1];
    SortByKeyCons([e1]);
    assert [e1][1..] == [];
    assert InsertByKey(e0, [e1]) == [e1] + InsertByKey(e0, []);
  }
}
