/**
  The Python runtime values that the library handles, the exceptions it raises,
  and the built-in dict and list operations its code calls (item lookup and
  assignment, `list.extend`, `dict.update`).
*/
module Py {

  datatype Option<+T> = None | Some(value: T)

  /** The exception classes raised by the modelled code and the built-ins it calls. */
  datatype Error = AssertionError | AttributeError | KeyError | TypeError | ValueError | IndexError

  /** A value or the exception that was raised instead. */
  datatype Result<+T> = Success(value: T) | Failure(error: Error) {
    predicate IsFailure() { Failure? }

    function PropagateFailure<U>(): Result<U>
      requires Failure?
    {
      Failure(error)
    }

    function Extract(): T
      requires Success?
    {
      value
    }
  }

  /**
    A Python value. Every callable object is a `Func` with an identity, and
    any other object (a `TreeDiagram` node) an `Obj` with an identity; a dict
    keeps its entries in insertion order.
  */
  datatype Value =
    | PyNone
    | Int(i: int)
    | Str(s: string)
    | Func(id: nat)
    | Obj(id: nat)
    | Tuple(items: seq<Value>)
    | List(items: seq<Value>)
    | Dict(entries: seq<(Value, Value)>)

  /** Python truthiness (`bool(v)`). */
  predicate Truthy(v: Value) {
    match v
    case PyNone => false
    case Int(i) => i != 0
    case Str(s) => s != ""
    case Func(_) => true
    case Obj(_) => true
    case Tuple(items) => items != []
    case List(items) => items != []
    case Dict(entries) => entries != []
  }

  // ---------------------------------------------------------------- dicts

  function Keys(entries: seq<(Value, Value)>): (r: seq<Value>)
    ensures |r| == |entries|
    ensures forall i :: 0 <= i < |r| ==> r[i] == entries[i].0
  {
    if entries == [] then [] else [entries[0].0] + Keys(entries[1..])
  }

  function Values(entries: seq<(Value, Value)>): (r: seq<Value>)
    ensures |r| == |entries|
    ensures forall i :: 0 <= i < |r| ==> r[i] == entries[i].1
  {
    seq(|entries|, i requires 0 <= i < |entries| => entries[i].1)
  }

  /** A dict never holds the same key twice. */
  ghost predicate DistinctKeys(entries: seq<(Value, Value)>) {
    forall i, j :: 0 <= i < j < |entries| ==> entries[i].0 != entries[j].0
  }

  /** Whether Python can hash the value, as a dict key must be; objects hash by identity. */
  predicate Hashable(v: Value) {
    match v
    case List(_) => false
    case Dict(_) => false
    case Tuple(items) => forall i :: 0 <= i < |items| ==> Hashable(items[i])
    case _ => true
  }

  /** `d[k]` when `k in d`. */
  function DictGet(entries: seq<(Value, Value)>, k: Value): (r: Option<Value>)
    ensures r.Some? <==> k in Keys(entries)
    ensures r.Some? ==> exists i :: 0 <= i < |entries| && entries[i] == (k, r.value)
  {
    if entries == [] then None
    else if entries[0].0 == k then Some(entries[0].1)
    else DictGet(entries[1..], k)
  }

  /** `d[k] = v`: an existing key keeps its position, a new key goes last. */
  function DictSet(entries: seq<(Value, Value)>, k: Value, v: Value): (r: seq<(Value, Value)>)
    ensures DictGet(r, k) == Some(v)
    ensures forall k' :: k' != k ==> DictGet(r, k') == DictGet(entries, k')
    ensures Keys(r) == if k in Keys(entries) then Keys(entries) else Keys(entries) + [k]
  {
    SetEntryLookups(entries, k, v);
    SetEntryKeys(entries, k, v);
    SetEntry(entries, k, v)
  }

  function SetEntry(entries: seq<(Value, Value)>, k: Value, v: Value): seq<(Value, Value)> {
    if entries == [] then [(k, v)]
    else if entries[0].0 == k then [(k, v)] + entries[1..]
    else [entries[0]] + SetEntry(entries[1..], k, v)
  }

  lemma {:induction false} SetEntryLookups(entries: seq<(Value, Value)>, k: Value, v: Value)
    ensures forall k' :: DictGet(SetEntry(entries, k, v), k') == if k' == k then Some(v) else DictGet(entries, k')
  {
    if entries == [] {
      Cons((k, v), []);
    } else if entries[0].0 == k {
      Cons(entries[0], entries[1..]);
      Cons((k, v), entries[1..]);
      assert entries == [entries[0]] + entries[1..];
    } else {
      SetEntryLookups(entries[1..], k, v);
      Cons(entries[0], entries[1..]);
      Cons(entries[0], SetEntry(entries[1..], k, v));
      assert entries == [entries[0]] + entries[1..];
    }
  }

  lemma {:induction false} SetEntryKeys(entries: seq<(Value, Value)>, k: Value, v: Value)
    ensures Keys(SetEntry(entries, k, v)) == if k in Keys(entries) then Keys(entries) else Keys(entries) + [k]
  {
    if entries == [] {
      ConsKeys((k, v), []);
    } else {
      var rest := entries[1..];
      assert entries == [entries[0]] + rest;
      ConsKeys(entries[0], rest);
      if entries[0].0 == k {
        ConsKeys((k, v), rest);
        assert Keys(entries)[0] == k;
      } else {
        var kr := Keys(rest);
        SetEntryKeys(rest, k, v);
        ConsKeys(entries[0], SetEntry(rest, k, v));
        assert (k in Keys(entries)) == (k in kr);
        if k !in kr {
          assert [entries[0].0] + (kr + [k]) == ([entries[0].0] + kr) + [k];
        }
      }
    }
  }

  /** The keys of a dict given by its first entry and the rest. */
  lemma ConsKeys(e: (Value, Value), rest: seq<(Value, Value)>)
    ensures Keys([e] + rest) == [e.0] + Keys(rest)
  {
    assert ([e] + rest)[1..] == rest;
  }

  /** Keys and lookups of a dict given by its first entry and the rest. */
  lemma Cons(e: (Value, Value), rest: seq<(Value, Value)>)
    ensures Keys([e] + rest) == [e.0] + Keys(rest)
    ensures forall k :: DictGet([e] + rest, k) == if e.0 == k then Some(e.1) else DictGet(rest, k)
  {
    assert ([e] + rest)[1..] == rest;
  }

  /** The dict as a mapping, for the places where only lookups matter. */
  function ToMap(entries: seq<(Value, Value)>): (r: map<Value, Value>)
    ensures forall k :: k in r <==> k in Keys(entries)
    ensures forall k :: k in r ==> Some(r[k]) == DictGet(entries, k)
  {
    map k | k in Keys(entries) :: DictGet(entries, k).value
  }

  // ---------------------------------------------------------------- built-in list and dict methods

  /** The one-character strings of `s`, as iterating over a str yields them. */
  function Chars(s: string): (r: seq<Value>)
    ensures |r| == |s|
    ensures forall i :: 0 <= i < |s| ==> r[i] == Str([s[i]])
  {
    seq(|s|, i requires 0 <= i < |s| => Str([s[i]]))
  }

  /** `acc.extend(x)`: any iterable is accepted, a dict contributes its keys. */
  function Extend(acc: seq<Value>, x: Value): (r: Result<seq<Value>>)
    ensures r.Success? <==> !(x.PyNone? || x.Int? || x.Func? || x.Obj?)
    ensures (x.Tuple? || x.List?) ==> r == Success(acc + x.items)
  {
    match x
    case Tuple(items) => Success(acc + items)
    case List(items) => Success(acc + items)
    case Dict(entries) => Success(acc + Keys(entries))
    case Str(s) => Success(acc + Chars(s))
    case _ => Failure(TypeError)
  }

  /** One element of the iterable given to `dict.update`, read as a key/value pair. */
  function AsPair(e: Value): Result<(Value, Value)> {
    match e
    case Tuple(items) => if |items| == 2 then Success((items[0], items[1])) else Failure(ValueError)
    case List(items) => if |items| == 2 then Success((items[0], items[1])) else Failure(ValueError)
    case Str(s) => if |s| == 2 then Success((Str([s[0]]), Str([s[1]]))) else Failure(ValueError)
    case Dict(entries) => if |entries| == 2 then Success((entries[0].0, entries[1].0)) else Failure(ValueError)
    case _ => Failure(TypeError)
  }

  /** An element `dict.update` accepts: a key/value pair whose key can be hashed. */
  predicate IsPair(e: Value) {
    AsPair(e).Success? && Hashable(AsPair(e).value.0)
  }

  /** `acc.update(items)` for an iterable of pairs, stored one by one; an unhashable key is a TypeError. */
  function UpdatePairs(acc: map<Value, Value>, items: seq<Value>): Result<map<Value, Value>>
    decreases |items|
  {
    if items == [] then Success(acc)
    else
      var p :- AsPair(items[0]);
      if !Hashable(p.0) then Failure(TypeError)
      else UpdatePairs(acc[p.0 := p.1], items[1..])
  }

  /**
    `dict.update` over pairs succeeds exactly when every element is a pair
    with a hashable key, and when every element is a pair but some key cannot
    be hashed it raises TypeError.
  */
  lemma {:induction false} UpdatePairsOutcome(acc: map<Value, Value>, items: seq<Value>)
    ensures UpdatePairs(acc, items).Success? <==> forall i :: 0 <= i < |items| ==> IsPair(items[i])
    ensures ((forall i :: 0 <= i < |items| ==> AsPair(items[i]).Success?) &&
             (exists i :: 0 <= i < |items| && AsPair(items[i]).Success? && !Hashable(AsPair(items[i]).value.0)))
      ==> UpdatePairs(acc, items) == Failure(TypeError)
    decreases |items|
  {
    if items != [] {
      var p := AsPair(items[0]);
      if p.Success? && Hashable(p.value.0) {
        UpdatePairsOutcome(acc[p.value.0 := p.value.1], items[1..]);
        assert forall i :: 1 <= i < |items| ==> items[i] == items[1..][i - 1];
        if exists i :: 0 <= i < |items| && AsPair(items[i]).Success? && !Hashable(AsPair(items[i]).value.0) {
          var i :| 0 <= i < |items| && AsPair(items[i]).Success? && !Hashable(AsPair(items[i]).value.0);
          assert items[1..][i - 1] == items[i];
        }
      }
    }
  }

  /**
    `acc.update(x)`: a dict merges its entries, any other iterable must yield
    key/value pairs, and a non-iterable is a TypeError.
  */
  function Update(acc: map<Value, Value>, x: Value): (r: Result<map<Value, Value>>)
    ensures x.Dict? ==> r == Success(acc + ToMap(x.entries))
    ensures (x.PyNone? || x.Int? || x.Func? || x.Obj?) ==> r == Failure(TypeError)
  {
    match x
    case Dict(entries) => Success(acc + ToMap(entries))
    case Tuple(items) => UpdatePairs(acc, items)
    case List(items) => UpdatePairs(acc, items)
    case Str(s) => UpdatePairs(acc, Chars(s))
    case _ => Failure(TypeError)
  }

  /**
    `acc.update(x)` with a tuple or list: it succeeds exactly when every
    element is a pair with a hashable key, and raises TypeError when every
    element is a pair but some key cannot be hashed.
  */
  lemma UpdateOutcome(acc: map<Value, Value>, x: Value)
    requires x.Tuple? || x.List?
    ensures Update(acc, x).Success? <==> forall i :: 0 <= i < |x.items| ==> IsPair(x.items[i])
    ensures ((forall i :: 0 <= i < |x.items| ==> AsPair(x.items[i]).Success?) &&
             (exists i :: 0 <= i < |x.items| && AsPair(x.items[i]).Success? && !Hashable(AsPair(x.items[i]).value.0)))
      ==> Update(acc, x) == Failure(TypeError)
  {
    UpdatePairsOutcome(acc, x.items);
  }
}
