/**
  `SigInfo`: a callable's declared parameters, bound to the positional and
  keyword arguments of one call, with name queries, lookup, assignment and
  re-serialisation to flat positional and keyword arguments. Also the
  module-level dict merge `defaults`.

  The declared parameters are given as a list (what the language's signature
  reflection would report); the callable itself is an opaque value.
*/
module Functions {
  import opened Py

  // ================================================================ signature parameters

  datatype Kind = PositionalOnly | PositionalOrKeyword | VarPositional | KeywordOnly | VarKeyword

  /** The order in which a signature lists the kinds. */
  function KindRank(k: Kind): nat {
    match k
    case PositionalOnly => 0
    case PositionalOrKeyword => 1
    case VarPositional => 2
    case KeywordOnly => 3
    case VarKeyword => 4
  }

  predicate IsPacked(k: Kind) {
    k == VarPositional || k == VarKeyword
  }

  /** The kinds that can take a positional argument (`*args` included). */
  predicate TakesPositional(k: Kind) {
    k == PositionalOnly || k == PositionalOrKeyword || k == VarPositional
  }

  /** A declared parameter; `default` is None when the parameter declares none. */
  datatype Param = Param(name: string, kind: Kind, default: Option<Value>)

  /**
    What a callable's signature always satisfies: non-empty distinct names,
    kinds in declaration order, at most one `*args` and one `**kwargs`, and no
    default on either of those.
  */
  ghost predicate WellFormed(ps: seq<Param>) {
    && (forall i :: 0 <= i < |ps| ==> ps[i].name != "")
    && (forall i :: 0 <= i < |ps| && IsPacked(ps[i].kind) ==> ps[i].default.None?)
    && (forall i, j :: 0 <= i < j < |ps| ==> ps[i].name != ps[j].name)
    && (forall i, j :: 0 <= i < j < |ps| ==> KindRank(ps[i].kind) <= KindRank(ps[j].kind))
    && (forall i, j :: 0 <= i < j < |ps| && IsPacked(ps[i].kind) ==> ps[j].kind != ps[i].kind)
  }

  /** `names`: every parameter name in declaration order, packed slots included. */
  function Names(ps: seq<Param>): (r: seq<string>)
    ensures |r| == |ps|
    ensures forall i :: 0 <= i < |ps| ==> r[i] == ps[i].name
  {
    seq(|ps|, i requires 0 <= i < |ps| => ps[i].name)
  }

  /** The names of the parameters that satisfy `keep`, in declaration order. */
  function NamesWhere(ps: seq<Param>, keep: Param -> bool): seq<string> {
    if ps == [] then []
    else (if keep(ps[0]) then [ps[0].name] else []) + NamesWhere(ps[1..], keep)
  }

  predicate PositionalParam(p: Param) {
    TakesPositional(p.kind)
  }

  predicate KeywordParam(p: Param) {
    !TakesPositional(p.kind)
  }

  /** A parameter that is not a key of `defaults`. */
  predicate WithoutDefault(p: Param) {
    p.default.None? && p.name != "self"
  }

  /** `positionalArgNames`. */
  function PositionalArgNames(ps: seq<Param>): seq<string> {
    NamesWhere(ps, PositionalParam)
  }

  /** `names` without the members of `drop`, order kept. */
  function Without(names: seq<string>, drop: seq<string>): seq<string> {
    if names == [] then []
    else (if names[0] in drop then [] else [names[0]]) + Without(names[1..], drop)
  }

  /** `keywordArgNames`: the names that are not in `positionalArgNames`. */
  function KeywordArgNames(ps: seq<Param>): seq<string> {
    Without(Names(ps), PositionalArgNames(ps))
  }

  /** The index of the first parameter of kind `k`. */
  function FirstOfKind(ps: seq<Param>, k: Kind): (r: Option<nat>)
    ensures r.Some? ==> r.value < |ps| && ps[r.value].kind == k
    ensures r.Some? ==> forall j :: 0 <= j < r.value ==> ps[j].kind != k
    ensures r.None? ==> forall j :: 0 <= j < |ps| ==> ps[j].kind != k
  {
    if ps == [] then None
    else if ps[0].kind == k then Some(0)
    else match FirstOfKind(ps[1..], k)
      case None => None
      case Some(i) => Some(i + 1)
  }

  /** `packedArgsName`: the name of the `*args` parameter, or None. */
  function PackedArgsName(ps: seq<Param>): Option<string> {
    match FirstOfKind(ps, VarPositional)
    case None => None
    case Some(i) => Some(ps[i].name)
  }

  /** `packedKwargsName`: the name of the `**kwargs` parameter, or None. */
  function PackedKwargsName(ps: seq<Param>): Option<string> {
    match FirstOfKind(ps, VarKeyword)
    case None => None
    case Some(i) => Some(ps[i].name)
  }

  /** The declared defaults, inserted left to right as the dict comprehension does. */
  function DeclaredDefaults(ps: seq<Param>): map<string, Value> {
    if ps == [] then map[]
    else
      var rest := DeclaredDefaults(ps[..|ps| - 1]);
      var last := ps[|ps| - 1];
      if last.default.Some? then rest[last.name := last.default.value] else rest
  }

  /**
    `defaults`: the declared defaults, plus `"self"` mapped to the callable
    itself when a `self` parameter declares none.
  */
  function SignatureDefaults(callableObject: Value, ps: seq<Param>): map<string, Value> {
    var d := DeclaredDefaults(ps);
    if "self" in Names(ps) && "self" !in d then d["self" := callableObject] else d
  }

  /** `namesWithoutDefaults`: the names that are not keys of `defaults`. */
  function NamesWithoutDefaults(callableObject: Value, ps: seq<Param>): seq<string> {
    NamesNotIn(ps, SignatureDefaults(callableObject, ps))
  }

  function NamesNotIn(ps: seq<Param>, d: map<string, Value>): seq<string> {
    if ps == [] then []
    else (if ps[0].name in d then [] else [ps[0].name]) + NamesNotIn(ps[1..], d)
  }

  function IndexOf(names: seq<string>, name: string): nat
    requires name in names
  {
    if names[0] == name then 0 else 1 + IndexOf(names[1..], name)
  }

  /** `getIndexFromName`: the position of `name` among the names, or None. */
  function GetIndexFromName(ps: seq<Param>, name: string): (r: Option<nat>)
    ensures r.Some? <==> name in Names(ps)
    ensures r.Some? ==> r.value < |ps| && ps[r.value].name == name
    ensures r.Some? ==> forall j :: 0 <= j < r.value ==> ps[j].name != name
  {
    if name in Names(ps) then Some(IndexOfIsFirst(Names(ps), name); IndexOf(Names(ps), name)) else None
  }

  lemma {:induction false} IndexOfIsFirst(names: seq<string>, name: string)
    requires name in names
    ensures IndexOf(names, name) < |names| && names[IndexOf(names, name)] == name
    ensures forall j :: 0 <= j < IndexOf(names, name) ==> names[j] != name
  {
    if names[0] != name {
      IndexOfIsFirst(names[1..], name);
    }
  }

  /** A parameter that `leadingArgNames` collects. */
  predicate IsLeading(p: Param) {
    p.default.None? && p.name != "self" && (p.kind == PositionalOrKeyword || p.kind == PositionalOnly)
  }

  /**
    `leadingArgNames`: the longest run of parameters from the start that have
    no default, are not named `self`, and are ordinary positional parameters.
    The scan stops at the first parameter that fails any of these.
  */
  method LeadingArgNames(ps: seq<Param>) returns (r: seq<string>)
    ensures |r| <= |ps|
    ensures forall i :: 0 <= i < |r| ==> r[i] == ps[i].name && IsLeading(ps[i])
    ensures |r| < |ps| ==> !IsLeading(ps[|r|])
  {
    r := [];
    var i := 0;
    while i < |ps|
      invariant i == |r| <= |ps|
      invariant forall j :: 0 <= j < i ==> r[j] == ps[j].name && IsLeading(ps[j])
    {
      if !IsLeading(ps[i]) {
        break;
      }
      r := r + [ps[i].name];
      i := i + 1;
    }
  }

  // ---------------------------------------------------------------- properties of the name queries

  lemma NamesCons(ps: seq<Param>)
    requires ps != []
    ensures Names(ps) == [ps[0].name] + Names(ps[1..])
  {
    assert forall i :: 0 < i < |ps| ==> Names(ps[1..])[i - 1] == ps[i].name;
  }

  lemma {:induction false} NamesWhereAll(ps: seq<Param>, keep: Param -> bool)
    requires forall i :: 0 <= i < |ps| ==> keep(ps[i])
    ensures NamesWhere(ps, keep) == Names(ps)
  {
    if ps != [] {
      NamesWhereAll(ps[1..], keep);
      NamesCons(ps);
    }
  }

  lemma {:induction false} NamesWhereNone(ps: seq<Param>, keep: Param -> bool)
    requires forall i :: 0 <= i < |ps| ==> !keep(ps[i])
    ensures NamesWhere(ps, keep) == []
  {
    if ps != [] {
      NamesWhereNone(ps[1..], keep);
    }
  }

  /** Dropping the names listed in `drop` keeps exactly the parameters that `keep` accepts. */
  lemma {:induction false} WithoutIsNamesWhere(ps: seq<Param>, drop: seq<string>, keep: Param -> bool)
    requires forall i :: 0 <= i < |ps| ==> (ps[i].name in drop <==> !keep(ps[i]))
    ensures Without(Names(ps), drop) == NamesWhere(ps, keep)
  {
    if ps != [] {
      WithoutIsNamesWhere(ps[1..], drop, keep);
      assert Names(ps)[1..] == Names(ps[1..]);
    }
  }

  lemma {:induction false} NamesNotInIsNamesWhere(ps: seq<Param>, d: map<string, Value>, keep: Param -> bool)
    requires forall i :: 0 <= i < |ps| ==> (ps[i].name in d <==> !keep(ps[i]))
    ensures NamesNotIn(ps, d) == NamesWhere(ps, keep)
  {
    if ps != [] {
      NamesNotInIsNamesWhere(ps[1..], d, keep);
    }
  }

  lemma {:induction false} InNamesWhere(ps: seq<Param>, keep: Param -> bool, i: nat)
    requires i < |ps| && keep(ps[i])
    ensures ps[i].name in NamesWhere(ps, keep)
  {
    if i > 0 {
      InNamesWhere(ps[1..], keep, i - 1);
    }
  }

  lemma {:induction false} NamesWhereMember(ps: seq<Param>, keep: Param -> bool, x: string)
    requires x in NamesWhere(ps, keep)
    ensures exists i :: 0 <= i < |ps| && ps[i].name == x && keep(ps[i])
  {
    if ps[0].name == x && keep(ps[0]) {
    } else {
      NamesWhereMember(ps[1..], keep, x);
      var i :| 0 <= i < |ps[1..]| && ps[1..][i].name == x && keep(ps[1..][i]);
      assert ps[i + 1].name == x;
    }
  }

  /**
    `positionalArgNames` and `keywordArgNames` split `names`: the first is the
    parameters that take a positional argument, the second the rest, each in
    declaration order, and since a signature lists all positional kinds first,
    `names` is the one followed by the other.
  */
  lemma NamesPartition(ps: seq<Param>)
    requires WellFormed(ps)
    ensures KeywordArgNames(ps) == NamesWhere(ps, KeywordParam)
    ensures Names(ps) == PositionalArgNames(ps) + KeywordArgNames(ps)
  {
    forall i | 0 <= i < |ps|
      ensures ps[i].name in PositionalArgNames(ps) <==> !KeywordParam(ps[i])
    {
      if PositionalParam(ps[i]) {
        InNamesWhere(ps, PositionalParam, i);
      } else if ps[i].name in PositionalArgNames(ps) {
        NamesWhereMember(ps, PositionalParam, ps[i].name);
      }
    }
    WithoutIsNamesWhere(ps, PositionalArgNames(ps), KeywordParam);
    OrderedSplit(ps);
  }

  lemma {:induction false} OrderedSplit(ps: seq<Param>)
    requires forall i, j :: 0 <= i < j < |ps| ==> KindRank(ps[i].kind) <= KindRank(ps[j].kind)
    ensures Names(ps) == NamesWhere(ps, PositionalParam) + NamesWhere(ps, KeywordParam)
  {
    if ps == [] {
    } else if PositionalParam(ps[0]) {
      OrderedTail(ps);
      OrderedSplit(ps[1..]);
      OrderedSplitCons(ps);
    } else {
      KeywordTail(ps);
      NamesWhereNone(ps, PositionalParam);
      NamesWhereAll(ps, KeywordParam);
    }
  }

  lemma OrderedTail(ps: seq<Param>)
    requires ps != []
    requires forall i, j :: 0 <= i < j < |ps| ==> KindRank(ps[i].kind) <= KindRank(ps[j].kind)
    ensures forall i, j :: 0 <= i < j < |ps[1..]| ==> KindRank(ps[1..][i].kind) <= KindRank(ps[1..][j].kind)
  {
    var rest := ps[1..];
    forall i, j | 0 <= i < j < |rest|
      ensures KindRank(rest[i].kind) <= KindRank(rest[j].kind)
    {
      assert rest[i] == ps[i + 1] && rest[j] == ps[j + 1];
    }
  }

  lemma OrderedSplitCons(ps: seq<Param>)
    requires ps != [] && PositionalParam(ps[0])
    requires Names(ps[1..]) == NamesWhere(ps[1..], PositionalParam) + NamesWhere(ps[1..], KeywordParam)
    ensures Names(ps) == NamesWhere(ps, PositionalParam) + NamesWhere(ps, KeywordParam)
  {
    NamesCons(ps);
    var head, a, b := [ps[0].name], NamesWhere(ps[1..], PositionalParam), NamesWhere(ps[1..], KeywordParam);
    assert NamesWhere(ps, PositionalParam) == head + a;
    assert NamesWhere(ps, KeywordParam) == b;
    AppendAssoc(head, a, b);
  }

  lemma AppendAssoc<T>(x: seq<T>, y: seq<T>, z: seq<T>)
    ensures x + (y + z) == (x + y) + z
  {
  }

  /** In kind order, everything after a keyword-only parameter is keyword-only too. */
  lemma KeywordTail(ps: seq<Param>)
    requires |ps| > 0 && !TakesPositional(ps[0].kind)
    requires forall i, j :: 0 <= i < j < |ps| ==> KindRank(ps[i].kind) <= KindRank(ps[j].kind)
    ensures forall i :: 0 <= i < |ps| ==> !TakesPositional(ps[i].kind)
  {
    forall i | 0 < i < |ps|
      ensures !TakesPositional(ps[i].kind)
    {
      assert KindRank(ps[0].kind) <= KindRank(ps[i].kind);
    }
  }

  lemma {:induction false} DeclaredDefaultsContents(ps: seq<Param>)
    requires forall i, j :: 0 <= i < j < |ps| ==> ps[i].name != ps[j].name
    ensures forall n :: n in DeclaredDefaults(ps) ==> exists i :: 0 <= i < |ps| && ps[i].name == n && ps[i].default.Some?
    ensures forall i :: 0 <= i < |ps| ==> (ps[i].name in DeclaredDefaults(ps) <==> ps[i].default.Some?)
    ensures forall i :: 0 <= i < |ps| && ps[i].default.Some? ==> DeclaredDefaults(ps)[ps[i].name] == ps[i].default.value
  {
    if ps != [] {
      var init, last := ps[..|ps| - 1], ps[|ps| - 1];
      DeclaredDefaultsContents(init);
      var rest := DeclaredDefaults(init);
      assert DeclaredDefaults(ps) == if last.default.Some? then rest[last.name := last.default.value] else rest;
      assert forall i :: 0 <= i < |init| ==> ps[i] == init[i];
      forall n | n in DeclaredDefaults(ps)
        ensures exists i :: 0 <= i < |ps| && ps[i].name == n && ps[i].default.Some?
      {
        if n == last.name && last.default.Some? {
          assert ps[|ps| - 1].name == n;
        } else {
          assert n in rest;
          var i :| 0 <= i < |init| && init[i].name == n && init[i].default.Some?;
          assert ps[i].name == n;
        }
      }
    }
  }

  /**
    `defaults` holds exactly the parameters that declare a default, mapped to
    that default, plus `self` mapped to the callable when a `self` parameter
    declares none.
  */
  lemma SignatureDefaultsContents(callableObject: Value, ps: seq<Param>)
    requires WellFormed(ps)
    ensures forall n :: n in SignatureDefaults(callableObject, ps) ==> n in Names(ps)
    ensures forall i :: 0 <= i < |ps| ==>
      (ps[i].name in SignatureDefaults(callableObject, ps) <==> ps[i].default.Some? || ps[i].name == "self")
    ensures forall i :: 0 <= i < |ps| && ps[i].default.Some? ==>
      SignatureDefaults(callableObject, ps)[ps[i].name] == ps[i].default.value
    ensures forall i :: 0 <= i < |ps| && ps[i].default.None? && ps[i].name == "self" ==>
      SignatureDefaults(callableObject, ps)["self"] == callableObject
  {
    DeclaredDefaultsContents(ps);
    var dd := DeclaredDefaults(ps);
    var d := SignatureDefaults(callableObject, ps);
    forall n | n in d
      ensures n in Names(ps)
    {
      if n != "self" {
        assert n in dd;
        var i :| 0 <= i < |ps| && ps[i].name == n && ps[i].default.Some?;
        assert Names(ps)[i] == n;
      }
    }
    forall i | 0 <= i < |ps| && ps[i].name == "self"
      ensures "self" in Names(ps)
    {
      assert Names(ps)[i] == "self";
    }
  }

  /** `namesWithoutDefaults` is `names` minus the keys of `defaults`, order kept. */
  lemma NamesWithoutDefaultsContents(callableObject: Value, ps: seq<Param>)
    requires WellFormed(ps)
    ensures NamesWithoutDefaults(callableObject, ps) == NamesWhere(ps, WithoutDefault)
  {
    SignatureDefaultsContents(callableObject, ps);
    NamesNotInIsNamesWhere(ps, SignatureDefaults(callableObject, ps), WithoutDefault);
  }

  // ================================================================ construction (__init__)

  /** Python keyword arguments arrive as a dict: no name twice. */
  ghost predicate DistinctNames(kwargs: seq<(string, Value)>) {
    forall i, j :: 0 <= i < j < |kwargs| ==> kwargs[i].0 != kwargs[j].0
  }

  /** `allArgs[pos[i]] = args[i]` for each of the first `n` positional names. */
  function BindPositional(pos: seq<string>, args: seq<Value>, n: nat): map<string, Value>
    requires n <= |pos| && n <= |args|
  {
    if n == 0 then map[] else BindPositional(pos, args, n - 1)[pos[n - 1] := args[n - 1]]
  }

  /** The slot that an undeclared keyword is written into: the first letter of the `**kwargs` name. */
  function KwargsSlot(packedKwargs: Option<string>): string
    requires packedKwargs.Some? ==> packedKwargs.value != ""
  {
    if packedKwargs.Some? then packedKwargs.value[..1] else ""
  }

  /**
    The keyword pass of `__init__`, one keyword after the other: a declared
    name (packed slots included) is bound directly; any other name needs a
    `**kwargs` parameter and is written into the dict found under the FIRST
    LETTER of that parameter's name.
  */
  function BindKeywords(names: seq<string>, packedKwargs: Option<string>, m: map<string, Value>,
                        kwargs: seq<(string, Value)>): Result<map<string, Value>>
    requires packedKwargs.Some? ==> packedKwargs.value != ""
    decreases |kwargs|
  {
    if kwargs == [] then Success(m)
    else
      var name, value := kwargs[0].0, kwargs[0].1;
      if name in names then BindKeywords(names, packedKwargs, m[name := value], kwargs[1..])
      else if packedKwargs.None? then Failure(AttributeError)
      else
        var slot := KwargsSlot(packedKwargs);
        if slot !in m then Failure(KeyError)
        else if !m[slot].Dict? then Failure(TypeError)
        else BindKeywords(names, packedKwargs, m[slot := Dict(DictSet(m[slot].entries, Str(name), value))], kwargs[1..])
  }

  lemma PackedNamesDeclared(ps: seq<Param>)
    requires WellFormed(ps)
    ensures PackedArgsName(ps).Some? ==> PackedArgsName(ps).value in Names(ps) && PackedArgsName(ps).value != ""
    ensures PackedKwargsName(ps).Some? ==> PackedKwargsName(ps).value in Names(ps) && PackedKwargsName(ps).value != ""
    ensures PackedArgsName(ps).Some? ==> PackedArgsName(ps).value in PositionalArgNames(ps)
  {
    match FirstOfKind(ps, VarPositional)
    case None =>
    case Some(i) =>
      assert Names(ps)[i] == ps[i].name;
      InNamesWhere(ps, PositionalParam, i);
    match FirstOfKind(ps, VarKeyword)
    case None =>
    case Some(i) =>
      assert Names(ps)[i] == ps[i].name;
  }

  /** The state of `allArgs` after the positional pass and the two packed slots, before the keyword pass. */
  function BindPositionalPass(ps: seq<Param>, args: seq<Value>): map<string, Value>
  {
    var pos := PositionalArgNames(ps);
    var pa := PackedArgsName(ps);
    var pk := PackedKwargsName(ps);
    var bound := BindPositional(pos, args, if |args| < |pos| then |args| else |pos|);
    var withArgs :=
      if pa.None? then bound
      else bound[pa.value := if |args| > |pos| then Tuple(args[|pos|..]) else List([])];
    if pk.None? then withArgs else withArgs[pk.value := Dict([])]
  }

  /**
    A keyword named after one of `SigInfo.__init__`'s own parameters, `self`
    or `callableObject`: Python refuses the call with TypeError (multiple
    values for that argument) before the constructor's body runs.
  */
  predicate InitClash(kwargs: seq<(string, Value)>) {
    exists j :: 0 <= j < |kwargs| && (kwargs[j].0 == "self" || kwargs[j].0 == "callableObject")
  }

  /**
    `SigInfo(callableObject, *args, **kwargs)`: the `allArgs` dict it builds, or
    the exception it raises. A keyword `self` or `callableObject` is refused
    first. Every positional name takes the argument at its
    index (the `*args` name included); the `*args` slot is then reset to `[]`
    and, when there are more arguments than positional names, given the ones
    past that count; the `**kwargs` slot starts as `{}`; then the keywords are
    bound in order.
  */
  function Bind(callableObject: Value, ps: seq<Param>, args: seq<Value>, kwargs: seq<(string, Value)>): Result<map<string, Value>>
    requires WellFormed(ps)
  {
    if InitClash(kwargs) then Failure(TypeError)
    else if !callableObject.Func? then Failure(AssertionError)
    else if |args| > |PositionalArgNames(ps)| && PackedArgsName(ps).None? then Failure(AttributeError)
    else
      PackedNamesDeclared(ps);
      BindKeywords(Names(ps), PackedKwargsName(ps), BindPositionalPass(ps, args), kwargs)
  }

  /** `__init__`, proved to build what `Bind` describes. */
  method BindArgs(callableObject: Value, ps: seq<Param>, args: seq<Value>, kwargs: seq<(string, Value)>)
    returns (r: Result<map<string, Value>>)
    requires WellFormed(ps)
    ensures r == Bind(callableObject, ps, args, kwargs)
  {
    if InitClash(kwargs) {
      return Failure(TypeError);
    }
    if !callableObject.Func? {
      return Failure(AssertionError);
    }
    PackedNamesDeclared(ps);
    var pos := PositionalArgNames(ps);
    var allArgs := BindPositionalArgs(pos, args);
    ghost var bound := allArgs;
    var pa := PackedArgsName(ps);
    if pa.Some? {
      allArgs := allArgs[pa.value := List([])];
    }
    if |args| > |pos| {
      if pa.None? {
        return Failure(AttributeError);
      }
      Overwrite(bound, pa.value, List([]), Tuple(args[|pos|..]));
      allArgs := allArgs[pa.value := Tuple(args[|pos|..])];
    }
    ghost var withArgs := allArgs;
    var pk := PackedKwargsName(ps);
    if pk.Some? {
      allArgs := allArgs[pk.value := Dict([])];
    }
    PositionalPassIs(ps, args, bound, withArgs, allArgs);
    r := BindKeywordArgs(Names(ps), pk, allArgs, kwargs);
    BindKeywordsFromSuffix(Names(ps), pk, allArgs, kwargs, 0);
    assert kwargs[0..] == kwargs;
  }

  lemma Overwrite<K, V>(m: map<K, V>, k: K, a: V, b: V)
    ensures m[k := a][k := b] == m[k := b]
  {
  }

  /** The three stages of the positional pass, as `__init__` performs them, build `BindPositionalPass`. */
  lemma PositionalPassIs(ps: seq<Param>, args: seq<Value>, bound: map<string, Value>, withArgs: map<string, Value>,
                         allArgs: map<string, Value>)
    requires var pos := PositionalArgNames(ps); bound == BindPositional(pos, args, if |args| < |pos| then |args| else |pos|)
    requires var pos, pa := PositionalArgNames(ps), PackedArgsName(ps);
      withArgs == if pa.None? then bound else bound[pa.value := if |args| > |pos| then Tuple(args[|pos|..]) else List([])]
    requires var pk := PackedKwargsName(ps); allArgs == if pk.None? then withArgs else withArgs[pk.value := Dict([])]
    ensures allArgs == BindPositionalPass(ps, args)
  {
  }

  /** The positional loop of `__init__`: each positional name takes the argument at its index while there is one. */
  method BindPositionalArgs(pos: seq<string>, args: seq<Value>) returns (allArgs: map<string, Value>)
    ensures allArgs == BindPositional(pos, args, if |args| < |pos| then |args| else |pos|)
  {
    allArgs := map[];
    var i := 0;
    while i < |pos| && i < |args|
      invariant 0 <= i <= |pos| && i <= |args|
      invariant allArgs == BindPositional(pos, args, i)
    {
      allArgs := allArgs[pos[i] := args[i]];
      i := i + 1;
    }
  }

  /** The keyword loop of `__init__`, proved to do what `BindKeywords` describes. */
  method BindKeywordArgs(names: seq<string>, pk: Option<string>, allArgs: map<string, Value>, kwargs: seq<(string, Value)>)
    returns (r: Result<map<string, Value>>)
    requires pk.Some? ==> pk.value != ""
    ensures r == BindKeywordsFrom(names, pk, allArgs, kwargs, 0)
  {
    var m := allArgs;
    var j := 0;
    while j < |kwargs|
      invariant 0 <= j <= |kwargs|
      invariant BindKeywordsFrom(names, pk, m, kwargs, j) == BindKeywordsFrom(names, pk, allArgs, kwargs, 0)
    {
      var name, value := kwargs[j].0, kwargs[j].1;
      if name in names {
        m := m[name := value];
      } else {
        if pk.None? {
          return Failure(AttributeError);
        }
        var slot := pk.value[..1];
        if slot !in m {
          return Failure(KeyError);
        }
        if !m[slot].Dict? {
          return Failure(TypeError);
        }
        m := m[slot := Dict(DictSet(m[slot].entries, Str(name), value))];
      }
      j := j + 1;
    }
    return Success(m);
  }

  /** `BindKeywords` on the keywords from index `j` on, by index rather than by suffix. */
  function BindKeywordsFrom(names: seq<string>, packedKwargs: Option<string>, m: map<string, Value>,
                            kwargs: seq<(string, Value)>, j: nat): Result<map<string, Value>>
    requires packedKwargs.Some? ==> packedKwargs.value != ""
    requires j <= |kwargs|
    decreases |kwargs| - j
  {
    if j == |kwargs| then Success(m)
    else
      var name, value := kwargs[j].0, kwargs[j].1;
      if name in names then BindKeywordsFrom(names, packedKwargs, m[name := value], kwargs, j + 1)
      else if packedKwargs.None? then Failure(AttributeError)
      else
        var slot := KwargsSlot(packedKwargs);
        if slot !in m then Failure(KeyError)
        else if !m[slot].Dict? then Failure(TypeError)
        else BindKeywordsFrom(names, packedKwargs, m[slot := Dict(DictSet(m[slot].entries, Str(name), value))], kwargs, j + 1)
  }

  lemma {:induction false} BindKeywordsFromSuffix(names: seq<string>, packedKwargs: Option<string>, m: map<string, Value>,
                                                  kwargs: seq<(string, Value)>, j: nat)
    requires packedKwargs.Some? ==> packedKwargs.value != ""
    requires j <= |kwargs|
    ensures BindKeywordsFrom(names, packedKwargs, m, kwargs, j) == BindKeywords(names, packedKwargs, m, kwargs[j..])
    decreases |kwargs| - j
  {
    if j < |kwargs| {
      var rest := kwargs[j..];
      assert rest[0] == kwargs[j] && rest[1..] == kwargs[j + 1..];
      var name, value := kwargs[j].0, kwargs[j].1;
      if name in names {
        BindKeywordsFromSuffix(names, packedKwargs, m[name := value], kwargs, j + 1);
      } else if packedKwargs.Some? {
        var slot := KwargsSlot(packedKwargs);
        if slot in m && m[slot].Dict? {
          BindKeywordsFromSuffix(names, packedKwargs, m[slot := Dict(DictSet(m[slot].entries, Str(name), value))], kwargs, j + 1);
        }
      }
    }
  }


  // ---------------------------------------------------------------- properties of construction

  lemma BindPositionalValues(pos: seq<string>, args: seq<Value>, n: nat)
    requires n <= |pos| && n <= |args|
    requires forall i, j :: 0 <= i < j < |pos| ==> pos[i] != pos[j]
    ensures forall x :: x in BindPositional(pos, args, n) <==> x in pos[..n]
    ensures forall i :: 0 <= i < n ==> BindPositional(pos, args, n)[pos[i]] == args[i]
  {
    BindPositionalDomain(pos, args, n);
    forall i | 0 <= i < n
      ensures pos[i] in BindPositional(pos, args, n) && BindPositional(pos, args, n)[pos[i]] == args[i]
    {
      BindPositionalAt(pos, args, n, i);
    }
  }

  lemma {:induction false} BindPositionalDomain(pos: seq<string>, args: seq<Value>, n: nat)
    requires n <= |pos| && n <= |args|
    ensures forall x :: x in BindPositional(pos, args, n) <==> x in pos[..n]
  {
    if n > 0 {
      BindPositionalDomain(pos, args, n - 1);
      assert pos[..n] == pos[..n - 1] + [pos[n - 1]];
    }
  }

  lemma {:induction false} BindPositionalAt(pos: seq<string>, args: seq<Value>, n: nat, i: nat)
    requires i < n <= |pos| && n <= |args|
    requires forall i, j :: 0 <= i < j < |pos| ==> pos[i] != pos[j]
    ensures pos[i] in BindPositional(pos, args, n) && BindPositional(pos, args, n)[pos[i]] == args[i]
  {
    if i < n - 1 {
      BindPositionalAt(pos, args, n - 1, i);
      assert pos[i] != pos[n - 1];
    }
  }

  /** The keyword pass binds only declared names and the slot it writes undeclared keywords into. */
  lemma {:induction false} BindKeywordsFrame(names: seq<string>, packedKwargs: Option<string>, m: map<string, Value>,
                                             kwargs: seq<(string, Value)>, x: string)
    requires packedKwargs.Some? ==> packedKwargs.value != ""
    requires BindKeywords(names, packedKwargs, m, kwargs).Success?
    requires forall j :: 0 <= j < |kwargs| ==> kwargs[j].0 != x
    requires x != KwargsSlot(packedKwargs) || packedKwargs.None?
    ensures var m' := BindKeywords(names, packedKwargs, m, kwargs).value;
      (x in m' <==> x in m) && (x in m ==> m'[x] == m[x])
    decreases |kwargs|
  {
    if kwargs != [] {
      var name, value := kwargs[0].0, kwargs[0].1;
      if name in names {
        BindKeywordsFrame(names, packedKwargs, m[name := value], kwargs[1..], x);
      } else {
        var slot := KwargsSlot(packedKwargs);
        BindKeywordsFrame(names, packedKwargs, m[slot := Dict(DictSet(m[slot].entries, Str(name), value))], kwargs[1..], x);
      }
    }
  }

  lemma {:induction false} BindKeywordsKeys(names: seq<string>, packedKwargs: Option<string>, m: map<string, Value>,
                                            kwargs: seq<(string, Value)>)
    requires packedKwargs.Some? ==> packedKwargs.value != ""
    requires BindKeywords(names, packedKwargs, m, kwargs).Success?
    ensures forall x :: x in BindKeywords(names, packedKwargs, m, kwargs).value ==> x in m || x in names
    ensures m.Keys <= BindKeywords(names, packedKwargs, m, kwargs).value.Keys
    decreases |kwargs|
  {
    if kwargs != [] {
      var name, value := kwargs[0].0, kwargs[0].1;
      if name in names {
        BindKeywordsKeys(names, packedKwargs, m[name := value], kwargs[1..]);
      } else {
        var slot := KwargsSlot(packedKwargs);
        BindKeywordsKeys(names, packedKwargs, m[slot := Dict(DictSet(m[slot].entries, Str(name), value))], kwargs[1..]);
      }
    }
  }

  /** A declared name given as a keyword ends bound to that keyword's value. */
  lemma {:induction false} BindKeywordsBinds(names: seq<string>, packedKwargs: Option<string>, m: map<string, Value>,
                                             kwargs: seq<(string, Value)>, j: nat)
    requires packedKwargs.Some? ==> packedKwargs.value != ""
    requires BindKeywords(names, packedKwargs, m, kwargs).Success?
    requires DistinctNames(kwargs)
    requires j < |kwargs| && kwargs[j].0 in names
    requires packedKwargs.None? || kwargs[j].0 != KwargsSlot(packedKwargs)
    ensures var m' := BindKeywords(names, packedKwargs, m, kwargs).value;
      kwargs[j].0 in m' && m'[kwargs[j].0] == kwargs[j].1
    decreases |kwargs|
  {
    var name, value := kwargs[0].0, kwargs[0].1;
    var next :=
      if name in names then m[name := value]
      else m[KwargsSlot(packedKwargs) := Dict(DictSet(m[KwargsSlot(packedKwargs)].entries, Str(name), value))];
    if j == 0 {
      BindKeywordsFrame(names, packedKwargs, next, kwargs[1..], name);
    } else {
      BindKeywordsBinds(names, packedKwargs, next, kwargs[1..], j - 1);
    }
  }

  /** With no `**kwargs` parameter, any undeclared keyword makes the pass raise AttributeError. */
  lemma {:induction false} BindKeywordsUndeclared(names: seq<string>, m: map<string, Value>,
                                                  kwargs: seq<(string, Value)>, j: nat)
    requires j < |kwargs| && kwargs[j].0 !in names
    ensures BindKeywords(names, None, m, kwargs) == Failure(AttributeError)
    decreases |kwargs|
  {
    if kwargs[0].0 in names {
      BindKeywordsUndeclared(names, m[kwargs[0].0 := kwargs[0].1], kwargs[1..], j - 1);
    }
  }

  /**
    When the first letter of the `**kwargs` name is neither bound nor a
    declared name, any undeclared keyword makes the pass raise KeyError.
  */
  lemma {:induction false} BindKeywordsMissingSlot(names: seq<string>, packedKwargs: Option<string>, m: map<string, Value>,
                                                   kwargs: seq<(string, Value)>, j: nat)
    requires packedKwargs.Some? && packedKwargs.value != ""
    requires KwargsSlot(packedKwargs) !in m && KwargsSlot(packedKwargs) !in names
    requires j < |kwargs| && kwargs[j].0 !in names
    ensures BindKeywords(names, packedKwargs, m, kwargs) == Failure(KeyError)
    decreases |kwargs|
  {
    if kwargs[0].0 in names {
      BindKeywordsMissingSlot(names, packedKwargs, m[kwargs[0].0 := kwargs[0].1], kwargs[1..], j - 1);
    }
  }

  /**
    When the `**kwargs` name is a single letter (so that it is its own first
    letter) and no keyword rebinds it, every undeclared keyword lands in the
    `**kwargs` dict.
  */
  lemma {:induction false} BindKeywordsSingleLetter(names: seq<string>, packedKwargs: Option<string>, m: map<string, Value>,
                                                    kwargs: seq<(string, Value)>)
    requires packedKwargs.Some? && |packedKwargs.value| == 1
    requires packedKwargs.value in m && m[packedKwargs.value].Dict?
    requires forall j :: 0 <= j < |kwargs| ==> kwargs[j].0 != packedKwargs.value
    requires DistinctNames(kwargs)
    ensures BindKeywords(names, packedKwargs, m, kwargs).Success?
    ensures var m' := BindKeywords(names, packedKwargs, m, kwargs).value;
      && packedKwargs.value in m' && m'[packedKwargs.value].Dict?
      && (forall j :: 0 <= j < |kwargs| && kwargs[j].0 !in names ==>
            DictGet(m'[packedKwargs.value].entries, Str(kwargs[j].0)) == Some(kwargs[j].1))
      && (forall k :: (forall j :: 0 <= j < |kwargs| && kwargs[j].0 !in names ==> k != Str(kwargs[j].0)) ==>
            DictGet(m'[packedKwargs.value].entries, k) == DictGet(m[packedKwargs.value].entries, k))
    decreases |kwargs|
  {
    var pk := packedKwargs.value;
    assert KwargsSlot(packedKwargs) == pk;
    if kwargs != [] {
      var name, value, rest := kwargs[0].0, kwargs[0].1, kwargs[1..];
      var d := m[pk].entries;
      var next := if name in names then m[name := value] else m[pk := Dict(DictSet(d, Str(name), value))];
      assert name != pk;
      assert BindKeywords(names, packedKwargs, m, kwargs) == BindKeywords(names, packedKwargs, next, rest);
      assert pk in next && next[pk].Dict?;
      assert forall j :: 0 <= j < |rest| ==> rest[j] == kwargs[j + 1];
      assert DistinctNames(rest);
      BindKeywordsSingleLetter(names, packedKwargs, next, rest);
      var d' := BindKeywords(names, packedKwargs, next, rest).value[pk].entries;
      forall j | 0 <= j < |kwargs| && kwargs[j].0 !in names
        ensures DictGet(d', Str(kwargs[j].0)) == Some(kwargs[j].1)
      {
        if j > 0 {
          assert rest[j - 1] == kwargs[j];
        } else {
          assert forall i :: 0 <= i < |rest| ==> rest[i].0 != name;
          assert DictGet(next[pk].entries, Str(name)) == Some(value);
        }
      }
      forall k | (forall j :: 0 <= j < |kwargs| && kwargs[j].0 !in names ==> k != Str(kwargs[j].0))
        ensures DictGet(d', k) == DictGet(d, k)
      {
        assert forall j :: 0 <= j < |rest| && rest[j].0 !in names ==> k != Str(rest[j].0);
        assert DictGet(d', k) == DictGet(next[pk].entries, k);
        if name !in names {
          assert k != Str(kwargs[0].0);
        }
      }
    }
  }

  /** The write into the `**kwargs` slot only ever replaces a dict by a dict. */
  lemma {:induction false} BindKeywordsSlotKind(names: seq<string>, packedKwargs: Option<string>, m: map<string, Value>,
                                                kwargs: seq<(string, Value)>, x: string)
    requires packedKwargs.Some? ==> packedKwargs.value != ""
    requires BindKeywords(names, packedKwargs, m, kwargs).Success?
    requires forall j :: 0 <= j < |kwargs| ==> kwargs[j].0 != x
    requires x in m
    ensures var m' := BindKeywords(names, packedKwargs, m, kwargs).value;
      x in m' && (m'[x] == m[x] || (m[x].Dict? && m'[x].Dict?))
    decreases |kwargs|
  {
    if kwargs != [] {
      var name, value := kwargs[0].0, kwargs[0].1;
      if name in names {
        BindKeywordsSlotKind(names, packedKwargs, m[name := value], kwargs[1..], x);
      } else {
        var slot := KwargsSlot(packedKwargs);
        BindKeywordsSlotKind(names, packedKwargs, m[slot := Dict(DictSet(m[slot].entries, Str(name), value))], kwargs[1..], x);
      }
    }
  }

  // ---------------------------------------------------------------- structure of a well-formed signature

  /** The parameters that take a positional argument are exactly the leading ones. */
  lemma {:induction false} PositionalPrefix(ps: seq<Param>)
    requires forall i, j :: 0 <= i < j < |ps| ==> KindRank(ps[i].kind) <= KindRank(ps[j].kind)
    ensures |NamesWhere(ps, PositionalParam)| <= |ps|
    ensures forall i :: 0 <= i < |ps| ==> (i < |NamesWhere(ps, PositionalParam)| <==> PositionalParam(ps[i]))
    ensures forall i :: 0 <= i < |NamesWhere(ps, PositionalParam)| ==> NamesWhere(ps, PositionalParam)[i] == ps[i].name
  {
    if ps != [] {
      if PositionalParam(ps[0]) {
        PositionalPrefix(ps[1..]);
        assert forall i :: 1 <= i < |ps| ==> ps[i] == ps[1..][i - 1];
      } else {
        NamesWhereNone(ps, PositionalParam);
      }
    }
  }

  /** `*args`, when declared, is the last of the positional names. */
  lemma PackedArgsIsLastPositional(ps: seq<Param>)
    requires WellFormed(ps) && PackedArgsName(ps).Some?
    ensures var pos := PositionalArgNames(ps); |pos| > 0 && PackedArgsName(ps).value == pos[|pos| - 1]
  {
    PositionalPrefix(ps);
    var pos := PositionalArgNames(ps);
    var k := FirstOfKind(ps, VarPositional).value;
    assert PositionalParam(ps[k]);
  }

  /** `**kwargs`, when declared, is the last parameter. */
  lemma PackedKwargsIsLast(ps: seq<Param>)
    requires WellFormed(ps) && PackedKwargsName(ps).Some?
    ensures |ps| > 0 && PackedKwargsName(ps).value == ps[|ps| - 1].name && ps[|ps| - 1].kind == VarKeyword
  {
    var k := FirstOfKind(ps, VarKeyword).value;
  }

  lemma PositionalNames(ps: seq<Param>)
    requires WellFormed(ps)
    ensures forall i, j :: 0 <= i < j < |PositionalArgNames(ps)| ==> PositionalArgNames(ps)[i] != PositionalArgNames(ps)[j]
    ensures forall x :: x in PositionalArgNames(ps) ==> x in Names(ps)
  {
    PositionalPrefix(ps);
    forall x | x in PositionalArgNames(ps)
      ensures x in Names(ps)
    {
      var i :| 0 <= i < |PositionalArgNames(ps)| && PositionalArgNames(ps)[i] == x;
      assert Names(ps)[i] == x;
    }
  }

  // ---------------------------------------------------------------- what `allArgs` satisfies

  /**
    Only declared names are ever bound, and the packed slots always are: the
    invariant of `allArgs` from construction on.
  */
  predicate Bound(ps: seq<Param>, allArgs: map<string, Value>) {
    && (forall n :: n in allArgs ==> n in Names(ps))
    && (PackedArgsName(ps).Some? ==> PackedArgsName(ps).value in allArgs)
    && (PackedKwargsName(ps).Some? ==> PackedKwargsName(ps).value in allArgs)
  }

  /** The `*args` slot holds a tuple or list and the `**kwargs` slot a dict. */
  predicate Shaped(ps: seq<Param>, allArgs: map<string, Value>) {
    && (PackedArgsName(ps).Some? && PackedArgsName(ps).value in allArgs ==>
          allArgs[PackedArgsName(ps).value].Tuple? || allArgs[PackedArgsName(ps).value].List?)
    && (PackedKwargsName(ps).Some? && PackedKwargsName(ps).value in allArgs ==>
          allArgs[PackedKwargsName(ps).value].Dict?)
  }

  /** After the positional pass only declared names are bound, and both packed slots are. */
  lemma PositionalPassBound(ps: seq<Param>, args: seq<Value>)
    requires WellFormed(ps)
    ensures Bound(ps, BindPositionalPass(ps, args))
  {
    var pos := PositionalArgNames(ps);
    PositionalNames(ps);
    PackedNamesDeclared(ps);
    var n := if |args| < |pos| then |args| else |pos|;
    BindPositionalValues(pos, args, n);
    forall x | x in BindPositional(pos, args, n)
      ensures x in Names(ps)
    {
      assert x in pos;
    }
  }

  /** The `*args` and `**kwargs` names differ. */
  lemma PackedNamesDiffer(ps: seq<Param>)
    requires WellFormed(ps)
    ensures PackedArgsName(ps).Some? && PackedKwargsName(ps).Some? ==> PackedArgsName(ps).value != PackedKwargsName(ps).value
  {
    if PackedArgsName(ps).Some? && PackedKwargsName(ps).Some? {
      PackedKwargsIsLast(ps);
      var k := FirstOfKind(ps, VarPositional).value;
      assert ps[k].name == PackedArgsName(ps).value;
    }
  }

  /** After the positional pass the packed slots hold the extra arguments and an empty dict. */
  lemma PositionalPassSlots(ps: seq<Param>, args: seq<Value>)
    requires WellFormed(ps)
    ensures var m := BindPositionalPass(ps, args); var pos := PositionalArgNames(ps);
      && (PackedArgsName(ps).Some? ==> m[PackedArgsName(ps).value] == if |args| > |pos| then Tuple(args[|pos|..]) else List([]))
      && (PackedKwargsName(ps).Some? ==> m[PackedKwargsName(ps).value] == Dict([]))
  {
    PackedNamesDiffer(ps);
  }

  lemma PositionalPassShaped(ps: seq<Param>, args: seq<Value>)
    requires WellFormed(ps)
    ensures Shaped(ps, BindPositionalPass(ps, args))
  {
    PositionalPassSlots(ps, args);
  }

  /** After the positional pass each ordinary positional name holds the argument at its index. */
  lemma PositionalPassValues(ps: seq<Param>, args: seq<Value>, i: nat)
    requires WellFormed(ps)
    requires i < |PositionalArgNames(ps)| && i < |args|
    requires Some(PositionalArgNames(ps)[i]) != PackedArgsName(ps) && Some(PositionalArgNames(ps)[i]) != PackedKwargsName(ps)
    ensures PositionalArgNames(ps)[i] in BindPositionalPass(ps, args)
    ensures BindPositionalPass(ps, args)[PositionalArgNames(ps)[i]] == args[i]
  {
    var pos := PositionalArgNames(ps);
    PositionalNames(ps);
    var n := if |args| < |pos| then |args| else |pos|;
    BindPositionalValues(pos, args, n);
  }

  /** A successful construction leaves `allArgs` `Bound`. */
  lemma BindBound(callableObject: Value, ps: seq<Param>, args: seq<Value>, kwargs: seq<(string, Value)>)
    requires WellFormed(ps)
    requires Bind(callableObject, ps, args, kwargs).Success?
    ensures Bound(ps, Bind(callableObject, ps, args, kwargs).value)
  {
    PackedNamesDeclared(ps);
    PositionalPassBound(ps, args);
    BindKeywordsKeys(Names(ps), PackedKwargsName(ps), BindPositionalPass(ps, args), kwargs);
  }

  /** When no keyword names a packed slot, construction leaves the slots `Shaped`. */
  lemma BindShaped(callableObject: Value, ps: seq<Param>, args: seq<Value>, kwargs: seq<(string, Value)>)
    requires WellFormed(ps)
    requires Bind(callableObject, ps, args, kwargs).Success?
    requires forall j :: 0 <= j < |kwargs| ==> Some(kwargs[j].0) != PackedArgsName(ps) && Some(kwargs[j].0) != PackedKwargsName(ps)
    ensures Shaped(ps, Bind(callableObject, ps, args, kwargs).value)
  {
    PackedNamesDeclared(ps);
    PositionalPassBound(ps, args);
    PositionalPassShaped(ps, args);
    var m := BindPositionalPass(ps, args);
    if PackedArgsName(ps).Some? {
      BindKeywordsSlotKind(Names(ps), PackedKwargsName(ps), m, kwargs, PackedArgsName(ps).value);
    }
    if PackedKwargsName(ps).Some? {
      BindKeywordsSlotKind(Names(ps), PackedKwargsName(ps), m, kwargs, PackedKwargsName(ps).value);
    }
  }

  /**
    A positional argument stays bound to its name unless a keyword rebinds
    that name, the name is the `*args` slot (reset by the packing step), or it
    is the first letter of the `**kwargs` name (where undeclared keywords are
    written).
  */
  lemma BindPositionalSurvives(callableObject: Value, ps: seq<Param>, args: seq<Value>, kwargs: seq<(string, Value)>, i: nat)
    requires WellFormed(ps)
    requires Bind(callableObject, ps, args, kwargs).Success?
    requires i < |PositionalArgNames(ps)| && i < |args|
    requires Some(PositionalArgNames(ps)[i]) != PackedArgsName(ps)
    requires forall j :: 0 <= j < |kwargs| ==> kwargs[j].0 != PositionalArgNames(ps)[i]
    requires PackedKwargsName(ps).Some? ==> PositionalArgNames(ps)[i] != PackedKwargsName(ps).value[..1]
    ensures var r := Bind(callableObject, ps, args, kwargs).value;
      PositionalArgNames(ps)[i] in r && r[PositionalArgNames(ps)[i]] == args[i]
  {
    PackedNamesDeclared(ps);
    var x := PositionalArgNames(ps)[i];
    if PackedKwargsName(ps).Some? {
      PositionalPrefix(ps);
      PackedKwargsIsLast(ps);
      assert ps[i].name == x && PositionalParam(ps[i]);
    }
    PositionalPassValues(ps, args, i);
    BindKeywordsFrame(Names(ps), PackedKwargsName(ps), BindPositionalPass(ps, args), kwargs, x);
  }

  /**
    A keyword naming a declared parameter ends bound to that name, overwriting
    any positional argument (the first letter of the `**kwargs` name excepted,
    where later undeclared keywords are written).
  */
  lemma BindKeywordWins(callableObject: Value, ps: seq<Param>, args: seq<Value>, kwargs: seq<(string, Value)>, j: nat)
    requires WellFormed(ps)
    requires Bind(callableObject, ps, args, kwargs).Success?
    requires DistinctNames(kwargs)
    requires j < |kwargs| && kwargs[j].0 in Names(ps)
    requires PackedKwargsName(ps).Some? ==> kwargs[j].0 != PackedKwargsName(ps).value[..1]
    ensures var r := Bind(callableObject, ps, args, kwargs).value;
      kwargs[j].0 in r && r[kwargs[j].0] == kwargs[j].1
  {
    PackedNamesDeclared(ps);
    BindKeywordsBinds(Names(ps), PackedKwargsName(ps), BindPositionalPass(ps, args), kwargs, j);
  }

  /** Every exception that construction raises, and when. */
  lemma BindErrors(callableObject: Value, ps: seq<Param>, args: seq<Value>, kwargs: seq<(string, Value)>)
    requires WellFormed(ps)
    ensures InitClash(kwargs) ==> Bind(callableObject, ps, args, kwargs) == Failure(TypeError)
    ensures !InitClash(kwargs) && !callableObject.Func? ==> Bind(callableObject, ps, args, kwargs) == Failure(AssertionError)
    ensures !InitClash(kwargs) && callableObject.Func? && |args| > |PositionalArgNames(ps)| && PackedArgsName(ps).None? ==>
      Bind(callableObject, ps, args, kwargs) == Failure(AttributeError)
    ensures !InitClash(kwargs) && callableObject.Func? && (|args| <= |PositionalArgNames(ps)| || PackedArgsName(ps).Some?) &&
            PackedKwargsName(ps).None? && (exists j :: 0 <= j < |kwargs| && kwargs[j].0 !in Names(ps)) ==>
      Bind(callableObject, ps, args, kwargs) == Failure(AttributeError)
    ensures !InitClash(kwargs) && callableObject.Func? && (|args| <= |PositionalArgNames(ps)| || PackedArgsName(ps).Some?) &&
            PackedKwargsName(ps).Some? && |PackedKwargsName(ps).value| > 1 &&
            PackedKwargsName(ps).value[..1] !in Names(ps) &&
            (exists j :: 0 <= j < |kwargs| && kwargs[j].0 !in Names(ps)) ==>
      Bind(callableObject, ps, args, kwargs) == Failure(KeyError)
    ensures Bind(callableObject, ps, args, kwargs).Failure? ==>
      Bind(callableObject, ps, args, kwargs).error in {AssertionError, AttributeError, KeyError, TypeError}
  {
    PackedNamesDeclared(ps);
    var m := BindPositionalPass(ps, args);
    if !InitClash(kwargs) && callableObject.Func? && (|args| <= |PositionalArgNames(ps)| || PackedArgsName(ps).Some?) {
      if j :| 0 <= j < |kwargs| && kwargs[j].0 !in Names(ps) {
        if PackedKwargsName(ps).None? {
          BindKeywordsUndeclared(Names(ps), m, kwargs, j);
        } else if |PackedKwargsName(ps).value| > 1 && PackedKwargsName(ps).value[..1] !in Names(ps) {
          PositionalPassBound(ps, args);
          BindKeywordsMissingSlot(Names(ps), PackedKwargsName(ps), m, kwargs, j);
        }
      }
      BindKeywordsErrors(Names(ps), PackedKwargsName(ps), m, kwargs);
    }
  }

  /**
    `SigInfo(m, self=o)` for `def m(self, x)`, `SigInfo(f, callableObject=1)`
    for `def f(**k)` and `SigInfo(5, self=1)` all raise TypeError at the call.
  */
  lemma BindInitClashes()
    ensures Bind(Func(0), [Param("self", PositionalOrKeyword, None), Param("x", PositionalOrKeyword, None)], [], [("self", Obj(1))])
      == Failure(TypeError)
    ensures Bind(Func(0), [Param("k", VarKeyword, None)], [], [("callableObject", Int(1))]) == Failure(TypeError)
    ensures Bind(Int(5), [], [], [("self", Int(1))]) == Failure(TypeError)
  {
    assert InitClash([("self", Obj(1))]) by { assert [("self", Obj(1))][0].0 == "self"; }
    assert InitClash([("callableObject", Int(1))]) by { assert [("callableObject", Int(1))][0].0 == "callableObject"; }
    assert InitClash([("self", Int(1))]) by { assert [("self", Int(1))][0].0 == "self"; }
  }

  lemma {:induction false} BindKeywordsErrors(names: seq<string>, packedKwargs: Option<string>, m: map<string, Value>,
                                              kwargs: seq<(string, Value)>)
    requires packedKwargs.Some? ==> packedKwargs.value != ""
    ensures BindKeywords(names, packedKwargs, m, kwargs).Failure? ==>
      BindKeywords(names, packedKwargs, m, kwargs).error in {AttributeError, KeyError, TypeError}
    decreases |kwargs|
  {
    if kwargs != [] {
      var name, value := kwargs[0].0, kwargs[0].1;
      if name in names {
        BindKeywordsErrors(names, packedKwargs, m[name := value], kwargs[1..]);
      } else if packedKwargs.Some? && KwargsSlot(packedKwargs) in m && m[KwargsSlot(packedKwargs)].Dict? {
        var slot := KwargsSlot(packedKwargs);
        BindKeywordsErrors(names, packedKwargs, m[slot := Dict(DictSet(m[slot].entries, Str(name), value))], kwargs[1..]);
      }
    }
  }

  /**
    The `*args` slot ends holding the arguments past the positional count,
    the one at its own index being lost, unless a keyword rebinds it.
  */
  lemma BindPacksArgs(callableObject: Value, ps: seq<Param>, args: seq<Value>, kwargs: seq<(string, Value)>)
    requires WellFormed(ps)
    requires Bind(callableObject, ps, args, kwargs).Success?
    requires PackedArgsName(ps).Some?
    requires forall j :: 0 <= j < |kwargs| ==> kwargs[j].0 != PackedArgsName(ps).value
    ensures var r := Bind(callableObject, ps, args, kwargs).value; var pos := PositionalArgNames(ps);
      && PackedArgsName(ps).value in r
      && r[PackedArgsName(ps).value] == if |args| > |pos| then Tuple(args[|pos|..]) else List([])
  {
    PackedNamesDeclared(ps);
    PositionalPassBound(ps, args);
    PositionalPassSlots(ps, args);
    var m := BindPositionalPass(ps, args);
    var pa := PackedArgsName(ps).value;
    KeepsNonDict(Names(ps), PackedKwargsName(ps), m, kwargs, pa);
  }

  lemma KeepsNonDict(names: seq<string>, packedKwargs: Option<string>, m: map<string, Value>,
                     kwargs: seq<(string, Value)>, x: string)
    requires packedKwargs.Some? ==> packedKwargs.value != ""
    requires BindKeywords(names, packedKwargs, m, kwargs).Success?
    requires forall j :: 0 <= j < |kwargs| ==> kwargs[j].0 != x
    requires x in m && !m[x].Dict?
    ensures x in BindKeywords(names, packedKwargs, m, kwargs).value
    ensures BindKeywords(names, packedKwargs, m, kwargs).value[x] == m[x]
  {
    BindKeywordsSlotKind(names, packedKwargs, m, kwargs, x);
  }

  /**
    With a one-letter `**kwargs` name (its own first letter), construction
    never fails on a keyword other than `self` and `callableObject`, and every undeclared keyword lands in the
    `**kwargs` dict while nothing else does.
  */
  lemma BindCollectsKwargs(callableObject: Value, ps: seq<Param>, args: seq<Value>, kwargs: seq<(string, Value)>)
    requires WellFormed(ps)
    requires callableObject.Func? && (|args| <= |PositionalArgNames(ps)| || PackedArgsName(ps).Some?)
    requires PackedKwargsName(ps).Some? && |PackedKwargsName(ps).value| == 1
    requires forall j :: 0 <= j < |kwargs| ==> kwargs[j].0 != PackedKwargsName(ps).value
    requires DistinctNames(kwargs) && !InitClash(kwargs)
    ensures Bind(callableObject, ps, args, kwargs).Success?
    ensures var r := Bind(callableObject, ps, args, kwargs).value; var pk := PackedKwargsName(ps).value;
      && pk in r && r[pk].Dict?
      && (forall j :: 0 <= j < |kwargs| && kwargs[j].0 !in Names(ps) ==>
            DictGet(r[pk].entries, Str(kwargs[j].0)) == Some(kwargs[j].1))
      && (forall k :: (forall j :: 0 <= j < |kwargs| && kwargs[j].0 !in Names(ps) ==> k != Str(kwargs[j].0)) ==>
            DictGet(r[pk].entries, k) == None)
  {
    PackedNamesDeclared(ps);
    PositionalPassBound(ps, args);
    PositionalPassSlots(ps, args);
    BindKeywordsSingleLetter(Names(ps), PackedKwargsName(ps), BindPositionalPass(ps, args), kwargs);
  }

  /**
    The `**kwargs` dict holds no key that is a declared name, so it never
    shadows a parameter in `unpackedAllArgs`.
  */
  predicate NoShadow(ps: seq<Param>, allArgs: map<string, Value>) {
    PackedKwargsName(ps).Some? && PackedKwargsName(ps).value in allArgs && allArgs[PackedKwargsName(ps).value].Dict? ==>
      forall k :: k in Keys(allArgs[PackedKwargsName(ps).value].entries) ==> !(k.Str? && k.s in Names(ps))
  }

  /** Unless a keyword rebinds the `**kwargs` slot, construction leaves it holding only undeclared names. */
  lemma BindNoShadow(callableObject: Value, ps: seq<Param>, args: seq<Value>, kwargs: seq<(string, Value)>)
    requires WellFormed(ps)
    requires Bind(callableObject, ps, args, kwargs).Success?
    requires DistinctNames(kwargs)
    requires forall j :: 0 <= j < |kwargs| ==> Some(kwargs[j].0) != PackedKwargsName(ps)
    ensures NoShadow(ps, Bind(callableObject, ps, args, kwargs).value)
  {
    if PackedKwargsName(ps).Some? {
      if |PackedKwargsName(ps).value| == 1 {
        BindNoShadowOneLetter(callableObject, ps, args, kwargs);
      } else {
        BindNoShadowLonger(callableObject, ps, args, kwargs);
      }
    }
  }

  lemma BindNoShadowOneLetter(callableObject: Value, ps: seq<Param>, args: seq<Value>, kwargs: seq<(string, Value)>)
    requires WellFormed(ps)
    requires Bind(callableObject, ps, args, kwargs).Success?
    requires DistinctNames(kwargs)
    requires PackedKwargsName(ps).Some? && |PackedKwargsName(ps).value| == 1
    requires forall j :: 0 <= j < |kwargs| ==> kwargs[j].0 != PackedKwargsName(ps).value
    ensures NoShadow(ps, Bind(callableObject, ps, args, kwargs).value)
  {
    var pk := PackedKwargsName(ps).value;
    assert callableObject.Func? && (|args| <= |PositionalArgNames(ps)| || PackedArgsName(ps).Some?);
    BindCollectsKwargs(callableObject, ps, args, kwargs);
    var r := Bind(callableObject, ps, args, kwargs).value;
    var names := Names(ps);
    var entries := r[pk].entries;
    forall k: Value | k.Str? && k.s in names
      ensures k !in Keys(entries)
    {
      forall j | 0 <= j < |kwargs| && kwargs[j].0 !in names
        ensures k != Str(kwargs[j].0)
      {
      }
      assert DictGet(entries, k) == None;
    }
  }

  /** A `**kwargs` name of two or more letters is never its own first letter, so its dict stays empty. */
  lemma BindNoShadowLonger(callableObject: Value, ps: seq<Param>, args: seq<Value>, kwargs: seq<(string, Value)>)
    requires WellFormed(ps)
    requires Bind(callableObject, ps, args, kwargs).Success?
    requires PackedKwargsName(ps).Some? && |PackedKwargsName(ps).value| > 1
    requires forall j :: 0 <= j < |kwargs| ==> kwargs[j].0 != PackedKwargsName(ps).value
    ensures var r := Bind(callableObject, ps, args, kwargs).value;
      PackedKwargsName(ps).value in r && r[PackedKwargsName(ps).value] == Dict([])
  {
    PackedNamesDeclared(ps);
    PositionalPassSlots(ps, args);
    var pk := PackedKwargsName(ps).value;
    var m := BindPositionalPass(ps, args);
    assert pk != KwargsSlot(PackedKwargsName(ps));
    BindKeywordsFrame(Names(ps), PackedKwargsName(ps), m, kwargs, pk);
  }

  // ================================================================ lookup (unpackedAllArgs, __getitem__)

  /** What `unpackedAllArgs` gives a declared name: its bound value, else its default, else None. */
  function Resolved(callableObject: Value, ps: seq<Param>, allArgs: map<string, Value>, n: string): Value {
    if n in allArgs then allArgs[n]
    else if n in SignatureDefaults(callableObject, ps) then SignatureDefaults(callableObject, ps)[n]
    else PyNone
  }

  /**
    `unpackedAllArgs` after its loop has visited the first `i` names: a bound
    name takes its value (and the `**kwargs` one is also merged in with
    `dict.update`), any other name its default or None.
  */
  function AllArgsUpTo(callableObject: Value, ps: seq<Param>, allArgs: map<string, Value>, i: nat): Result<map<Value, Value>>
    requires i <= |ps|
  {
    if i == 0 then Success(map[])
    else
      var acc :- AllArgsUpTo(callableObject, ps, allArgs, i - 1);
      var n := ps[i - 1].name;
      if n in allArgs then
        var withName := acc[Str(n) := allArgs[n]];
        if Some(n) == PackedKwargsName(ps) then Update(withName, allArgs[n]) else Success(withName)
      else Success(acc[Str(n) := Resolved(callableObject, ps, allArgs, n)])
  }

  /** `unpackedAllArgs`. */
  function AllArgsView(callableObject: Value, ps: seq<Param>, allArgs: map<string, Value>): Result<map<Value, Value>> {
    AllArgsUpTo(callableObject, ps, allArgs, |ps|)
  }

  /** The given names, in order, each with what `unpackedAllArgs` gives it. */
  function NamedView(callableObject: Value, ps: seq<Param>, allArgs: map<string, Value>, names: seq<string>): map<Value, Value> {
    if names == [] then map[]
    else NamedView(callableObject, ps, allArgs, names[..|names| - 1])[Str(names[|names| - 1]) := Resolved(callableObject, ps, allArgs, names[|names| - 1])]
  }

  lemma {:induction false} NamedViewContents(callableObject: Value, ps: seq<Param>, allArgs: map<string, Value>, names: seq<string>)
    ensures forall k :: k in NamedView(callableObject, ps, allArgs, names) ==> k.Str? && k.s in names
    ensures forall n :: n in names ==> Str(n) in NamedView(callableObject, ps, allArgs, names)
    ensures forall n :: n in names ==> NamedView(callableObject, ps, allArgs, names)[Str(n)] == Resolved(callableObject, ps, allArgs, n)
    decreases |names|
  {
    if names != [] {
      var init := names[..|names| - 1];
      NamedViewContents(callableObject, ps, allArgs, init);
      assert names == init + [names[|names| - 1]];
    }
  }

  lemma TakeSnoc<T>(s: seq<T>, i: nat)
    requires 0 < i <= |s|
    ensures s[..i] == s[..i - 1] + [s[i - 1]]
  {
  }

  lemma NamedViewSnoc(callableObject: Value, ps: seq<Param>, allArgs: map<string, Value>, names: seq<string>, n: string)
    ensures NamedView(callableObject, ps, allArgs, names + [n]) ==
      NamedView(callableObject, ps, allArgs, names)[Str(n) := Resolved(callableObject, ps, allArgs, n)]
  {
    assert (names + [n])[..|names|] == names;
  }

  lemma {:induction false} AllArgsUpToPrefix(callableObject: Value, ps: seq<Param>, allArgs: map<string, Value>, i: nat)
    requires i <= |ps|
    requires forall j :: 0 <= j < i ==> !(Some(ps[j].name) == PackedKwargsName(ps) && ps[j].name in allArgs)
    ensures AllArgsUpTo(callableObject, ps, allArgs, i) == Success(NamedView(callableObject, ps, allArgs, Names(ps)[..i]))
  {
    if i > 0 {
      AllArgsUpToPrefix(callableObject, ps, allArgs, i - 1);
      var n := ps[i - 1].name;
      TakeSnoc(Names(ps), i);
      NamedViewSnoc(callableObject, ps, allArgs, Names(ps)[..i - 1], n);
      var acc := NamedView(callableObject, ps, allArgs, Names(ps)[..i - 1]);
      assert !(Some(n) == PackedKwargsName(ps) && n in allArgs);
      if n in allArgs {
        assert Resolved(callableObject, ps, allArgs, n) == allArgs[n];
      }
    }
  }

  /**
    `unpackedAllArgs` in closed form: every declared name with its bound
    value, default or None, and then the contents of the `**kwargs` slot
    merged over them.
  */
  lemma AllArgsViewClosedForm(callableObject: Value, ps: seq<Param>, allArgs: map<string, Value>)
    requires WellFormed(ps)
    ensures var named := NamedView(callableObject, ps, allArgs, Names(ps)); var pk := PackedKwargsName(ps);
      AllArgsView(callableObject, ps, allArgs) ==
        if pk.Some? && pk.value in allArgs then Update(named, allArgs[pk.value]) else Success(named)
  {
    var pk := PackedKwargsName(ps);
    if pk.Some? {
      PackedKwargsIsLast(ps);
      assert forall j :: 0 <= j < |ps| - 1 ==> ps[j].name != ps[|ps| - 1].name;
    }
    AllArgsViewLast(callableObject, ps, allArgs, pk);
  }

  /** The closed form of `unpackedAllArgs`, given only that the `**kwargs` name is declared last. */
  lemma AllArgsViewLast(callableObject: Value, ps: seq<Param>, allArgs: map<string, Value>, pk: Option<string>)
    requires pk == PackedKwargsName(ps)
    requires pk.Some? ==> |ps| > 0 && ps[|ps| - 1].name == pk.value
    requires pk.Some? ==> forall j :: 0 <= j < |ps| - 1 ==> ps[j].name != pk.value
    ensures var named := NamedView(callableObject, ps, allArgs, Names(ps));
      AllArgsView(callableObject, ps, allArgs) ==
        if pk.Some? && pk.value in allArgs then Update(named, allArgs[pk.value]) else Success(named)
  {
    assert Names(ps)[..|ps|] == Names(ps);
    if pk.Some? && pk.value in allArgs {
      var last := |ps| - 1;
      AllArgsUpToPrefix(callableObject, ps, allArgs, last);
      assert Names(ps)[..last] == Names(ps)[..|ps| - 1];
    } else {
      AllArgsUpToPrefix(callableObject, ps, allArgs, |ps|);
    }
  }

  /** `sigInfo[name]`: what `unpackedAllArgs` holds for `name`, or None when it holds nothing. */
  function ItemOf(callableObject: Value, ps: seq<Param>, allArgs: map<string, Value>, name: string): Result<Value> {
    var view :- AllArgsView(callableObject, ps, allArgs);
    Success(if Str(name) in view then view[Str(name)] else PyNone)
  }

  /** What `sigInfo[name]` is when the `**kwargs` slot holds a dict and can shadow nothing. */
  function Lookup(callableObject: Value, ps: seq<Param>, allArgs: map<string, Value>, name: string): Value {
    var pk := PackedKwargsName(ps);
    if pk.Some? && pk.value in allArgs && allArgs[pk.value].Dict? && DictGet(allArgs[pk.value].entries, Str(name)).Some?
    then DictGet(allArgs[pk.value].entries, Str(name)).value
    else if name in Names(ps) then Resolved(callableObject, ps, allArgs, name)
    else PyNone
  }

  /**
    Lookup never fails while the packed slots are shaped: a name found in the
    `**kwargs` dict takes its value from there, a declared name its bound value,
    default or None, and any other name None. When the `**kwargs` slot holds
    something that is not iterable, every lookup raises TypeError. When it
    holds a tuple or list, every lookup fails unless each element is a pair
    with a hashable key, and it raises TypeError when each element is a pair
    but some key cannot be hashed.
  */
  lemma ItemOfResolves(callableObject: Value, ps: seq<Param>, allArgs: map<string, Value>, name: string)
    requires WellFormed(ps)
    ensures Shaped(ps, allArgs) ==> ItemOf(callableObject, ps, allArgs, name) == Success(Lookup(callableObject, ps, allArgs, name))
    ensures var pk := PackedKwargsName(ps);
      pk.Some? && pk.value in allArgs && (allArgs[pk.value].PyNone? || allArgs[pk.value].Int? || allArgs[pk.value].Func? || allArgs[pk.value].Obj?) ==>
        ItemOf(callableObject, ps, allArgs, name) == Failure(TypeError)
    ensures var pk := PackedKwargsName(ps);
      pk.Some? && pk.value in allArgs && (allArgs[pk.value].Tuple? || allArgs[pk.value].List?) ==>
        var items := allArgs[pk.value].items;
        && (ItemOf(callableObject, ps, allArgs, name).Success? <==> forall i :: 0 <= i < |items| ==> IsPair(items[i]))
        && ((forall i :: 0 <= i < |items| ==> AsPair(items[i]).Success?) &&
            (exists i :: 0 <= i < |items| && AsPair(items[i]).Success? && !Hashable(AsPair(items[i]).value.0))
            ==> ItemOf(callableObject, ps, allArgs, name) == Failure(TypeError))
  {
    AllArgsViewClosedForm(callableObject, ps, allArgs);
    NamedViewContents(callableObject, ps, allArgs, Names(ps));
    var pk := PackedKwargsName(ps);
    if pk.Some? && pk.value in allArgs && (allArgs[pk.value].Tuple? || allArgs[pk.value].List?) {
      UpdateOutcome(NamedView(callableObject, ps, allArgs, Names(ps)), allArgs[pk.value]);
    }
  }

  /** `def f(**kwargs)` with `kwargs` bound by keyword to `[([1], 2)]`: `sigInfo["x"]` raises TypeError, as the list key cannot be hashed. */
  lemma ItemOfUnhashablePairKey()
    ensures ItemOf(Func(0), [Param("kwargs", VarKeyword, None)], map["kwargs" := List([Tuple([List([Int(1)]), Int(2)])])], "x")
      == Failure(TypeError)
  {
    var ps := [Param("kwargs", VarKeyword, None)];
    var items := [Tuple([List([Int(1)]), Int(2)])];
    assert PackedKwargsName(ps) == Some("kwargs");
    assert AsPair(items[0]) == Success((List([Int(1)]), Int(2)));
    assert !Hashable(List([Int(1)]));
    ItemOfResolves(Func(0), ps, map["kwargs" := List(items)], "x");
  }

  /** `def f(a, **kwargs)` called as `f(1, kwargs=[([1], 2)])`: `unpackedArgs` reads `a` through `__getitem__` and so raises TypeError too. */
  lemma ArgsOfUnhashablePairKey()
    ensures ArgsOf(Func(0), [Param("a", PositionalOrKeyword, None), Param("kwargs", VarKeyword, None)],
                   map["a" := Int(1), "kwargs" := List([Tuple([List([Int(1)]), Int(2)])])])
      == Failure(TypeError)
  {
    var ps := [Param("a", PositionalOrKeyword, None), Param("kwargs", VarKeyword, None)];
    var allArgs := map["a" := Int(1), "kwargs" := List([Tuple([List([Int(1)]), Int(2)])])];
    var items := [Tuple([List([Int(1)]), Int(2)])];
    assert PositionalArgNames(ps) == ["a"];
    assert PackedKwargsName(ps) == Some("kwargs");
    assert PackedArgsName(ps) == None;
    assert AsPair(items[0]) == Success((List([Int(1)]), Int(2)));
    assert !Hashable(List([Int(1)]));
    ItemOfResolves(Func(0), ps, allArgs, "a");
    assert ItemOf(Func(0), ps, allArgs, "a") == Failure(TypeError);
  }

  /** `def f(**kwargs)` with `kwargs` bound by keyword to `[([1], 2)]`: `unpackedKwargs` raises TypeError. */
  lemma KwargsOfUnhashablePairKey()
    ensures KwargsOf(Func(0), [Param("kwargs", VarKeyword, None)], map["kwargs" := List([Tuple([List([Int(1)]), Int(2)])])])
      == Failure(TypeError)
  {
    var ps := [Param("kwargs", VarKeyword, None)];
    var allArgs := map["kwargs" := List([Tuple([List([Int(1)]), Int(2)])])];
    var items := [Tuple([List([Int(1)]), Int(2)])];
    assert KeywordArgNames(ps) == ["kwargs"];
    assert PackedKwargsName(ps) == Some("kwargs");
    assert AsPair(items[0]) == Success((List([Int(1)]), Int(2)));
    assert !Hashable(List([Int(1)]));
    ItemOfResolves(Func(0), ps, allArgs, "kwargs");
  }

  /** A declared name that the `**kwargs` dict does not shadow resolves to its bound value, default or None. */
  lemma ItemOfDeclared(callableObject: Value, ps: seq<Param>, allArgs: map<string, Value>, name: string)
    requires WellFormed(ps) && Shaped(ps, allArgs) && NoShadow(ps, allArgs)
    requires name in Names(ps)
    ensures ItemOf(callableObject, ps, allArgs, name) == Success(Resolved(callableObject, ps, allArgs, name))
  {
    ItemOfResolves(callableObject, ps, allArgs, name);
  }

  // ================================================================ re-serialisation (unpackedArgs, unpackedKwargs)

  /**
    `unpackedArgs` after its loop has visited the first `i` positional names:
    each name's value is appended, except that the `*args` value is spread
    with `list.extend`.
  */
  function ArgsOfUpTo(callableObject: Value, ps: seq<Param>, allArgs: map<string, Value>, i: nat): Result<seq<Value>>
    requires i <= |PositionalArgNames(ps)|
  {
    if i == 0 then Success([])
    else
      var acc :- ArgsOfUpTo(callableObject, ps, allArgs, i - 1);
      var n := PositionalArgNames(ps)[i - 1];
      var v :- ItemOf(callableObject, ps, allArgs, n);
      if Some(n) == PackedArgsName(ps) then Extend(acc, v) else Success(acc + [v])
  }

  /** `unpackedArgs`. */
  function ArgsOf(callableObject: Value, ps: seq<Param>, allArgs: map<string, Value>): Result<seq<Value>> {
    ArgsOfUpTo(callableObject, ps, allArgs, |PositionalArgNames(ps)|)
  }

  /**
    `unpackedKwargs` after its loop has visited the first `i` keyword names:
    each name is stored with its value, except that the `**kwargs` value is
    merged in with `dict.update`.
  */
  function KwargsOfUpTo(callableObject: Value, ps: seq<Param>, allArgs: map<string, Value>, i: nat): Result<map<Value, Value>>
    requires i <= |KeywordArgNames(ps)|
  {
    if i == 0 then Success(map[])
    else
      var acc :- KwargsOfUpTo(callableObject, ps, allArgs, i - 1);
      var n := KeywordArgNames(ps)[i - 1];
      var v :- ItemOf(callableObject, ps, allArgs, n);
      if Some(n) == PackedKwargsName(ps) then Update(acc, v) else Success(acc[Str(n) := v])
  }

  /** `unpackedKwargs`. */
  function KwargsOf(callableObject: Value, ps: seq<Param>, allArgs: map<string, Value>): Result<map<Value, Value>> {
    KwargsOfUpTo(callableObject, ps, allArgs, |KeywordArgNames(ps)|)
  }

  /** The given names' values as `unpackedAllArgs` gives them. */
  function ResolvedSeq(callableObject: Value, ps: seq<Param>, allArgs: map<string, Value>, names: seq<string>): (r: seq<Value>)
    ensures |r| == |names|
    ensures forall i :: 0 <= i < |names| ==> r[i] == Resolved(callableObject, ps, allArgs, names[i])
  {
    seq(|names|, i requires 0 <= i < |names| => Resolved(callableObject, ps, allArgs, names[i]))
  }

  /** The state in which re-serialisation cannot fail: packed slots bound, shaped, and not shadowing. */
  predicate Settled(ps: seq<Param>, allArgs: map<string, Value>) {
    Bound(ps, allArgs) && Shaped(ps, allArgs) && NoShadow(ps, allArgs)
  }

  /** Every one of `names` looks up to its bound value, default or None. */
  ghost predicate ItemsResolve(callableObject: Value, ps: seq<Param>, allArgs: map<string, Value>, names: seq<string>) {
    forall j :: 0 <= j < |names| ==> ItemOf(callableObject, ps, allArgs, names[j]) == Success(Resolved(callableObject, ps, allArgs, names[j]))
  }

  lemma DeclaredItemsResolve(callableObject: Value, ps: seq<Param>, allArgs: map<string, Value>, names: seq<string>)
    requires WellFormed(ps) && Shaped(ps, allArgs) && NoShadow(ps, allArgs)
    requires forall n :: n in names ==> n in Names(ps)
    ensures ItemsResolve(callableObject, ps, allArgs, names)
  {
    forall j | 0 <= j < |names|
      ensures ItemOf(callableObject, ps, allArgs, names[j]) == Success(Resolved(callableObject, ps, allArgs, names[j]))
    {
      ItemOfDeclared(callableObject, ps, allArgs, names[j]);
    }
  }

  lemma {:induction false} ArgsOfPrefix(callableObject: Value, ps: seq<Param>, allArgs: map<string, Value>, i: nat)
    requires i <= |PositionalArgNames(ps)|
    requires ItemsResolve(callableObject, ps, allArgs, PositionalArgNames(ps))
    requires forall j :: 0 <= j < i ==> Some(PositionalArgNames(ps)[j]) != PackedArgsName(ps)
    ensures ArgsOfUpTo(callableObject, ps, allArgs, i) == Success(ResolvedSeq(callableObject, ps, allArgs, PositionalArgNames(ps)[..i]))
  {
    if i > 0 {
      var pos := PositionalArgNames(ps);
      ArgsOfPrefix(callableObject, ps, allArgs, i - 1);
      var n := pos[i - 1];
      assert ItemOf(callableObject, ps, allArgs, n) == Success(Resolved(callableObject, ps, allArgs, n));
      assert Some(n) != PackedArgsName(ps);
      TakeSnoc(pos, i);
      ResolvedSeqSnoc(callableObject, ps, allArgs, pos[..i - 1], n);
    }
  }

  lemma ResolvedSeqSnoc(callableObject: Value, ps: seq<Param>, allArgs: map<string, Value>, names: seq<string>, n: string)
    ensures ResolvedSeq(callableObject, ps, allArgs, names + [n]) ==
      ResolvedSeq(callableObject, ps, allArgs, names) + [Resolved(callableObject, ps, allArgs, n)]
  {
  }

  /**
    `unpackedArgs` in closed form: the values of the positional names in
    order, with the contents of the `*args` tuple or list spliced in last.
  */
  lemma ArgsOfClosedForm(callableObject: Value, ps: seq<Param>, allArgs: map<string, Value>)
    requires WellFormed(ps) && Settled(ps, allArgs)
    ensures var pos := PositionalArgNames(ps); var pa := PackedArgsName(ps);
      ArgsOf(callableObject, ps, allArgs) ==
        if pa.Some? then Success(ResolvedSeq(callableObject, ps, allArgs, pos[..|pos| - 1]) + allArgs[pa.value].items)
        else Success(ResolvedSeq(callableObject, ps, allArgs, pos))
  {
    var pos := PositionalArgNames(ps);
    PositionalNames(ps);
    DeclaredItemsResolve(callableObject, ps, allArgs, pos);
    if PackedArgsName(ps).Some? {
      PackedArgsIsLastPositional(ps);
    }
    ArgsOfResolved(callableObject, ps, allArgs);
  }

  /** `unpackedArgs` in closed form, given that every positional name resolves and `*args`, if any, comes last. */
  lemma ArgsOfResolved(callableObject: Value, ps: seq<Param>, allArgs: map<string, Value>)
    requires ItemsResolve(callableObject, ps, allArgs, PositionalArgNames(ps))
    requires var pos := PositionalArgNames(ps); forall i, j :: 0 <= i < j < |pos| ==> pos[i] != pos[j]
    requires var pos, pa := PositionalArgNames(ps), PackedArgsName(ps);
      pa.Some? ==> |pos| > 0 && pos[|pos| - 1] == pa.value && pa.value in allArgs && (allArgs[pa.value].Tuple? || allArgs[pa.value].List?)
    ensures var pos := PositionalArgNames(ps); var pa := PackedArgsName(ps);
      ArgsOf(callableObject, ps, allArgs) ==
        if pa.Some? then Success(ResolvedSeq(callableObject, ps, allArgs, pos[..|pos| - 1]) + allArgs[pa.value].items)
        else Success(ResolvedSeq(callableObject, ps, allArgs, pos))
  {
    var pos := PositionalArgNames(ps);
    if PackedArgsName(ps).Some? {
      var pa := PackedArgsName(ps).value;
      ArgsOfPrefix(callableObject, ps, allArgs, |pos| - 1);
      ArgsOfLastStep(callableObject, ps, allArgs, pa);
    } else {
      ArgsOfPrefix(callableObject, ps, allArgs, |pos|);
      assert pos[..|pos|] == pos;
    }
  }

  /** The last step of `unpackedArgs` spreads the `*args` tuple or list after what came before. */
  lemma ArgsOfLastStep(callableObject: Value, ps: seq<Param>, allArgs: map<string, Value>, pa: string)
    requires PackedArgsName(ps) == Some(pa)
    requires var pos := PositionalArgNames(ps); |pos| > 0 && pos[|pos| - 1] == pa
    requires pa in allArgs && (allArgs[pa].Tuple? || allArgs[pa].List?)
    requires ItemsResolve(callableObject, ps, allArgs, PositionalArgNames(ps))
    requires var pos := PositionalArgNames(ps);
      ArgsOfUpTo(callableObject, ps, allArgs, |pos| - 1) == Success(ResolvedSeq(callableObject, ps, allArgs, pos[..|pos| - 1]))
    ensures var pos := PositionalArgNames(ps);
      ArgsOf(callableObject, ps, allArgs) == Success(ResolvedSeq(callableObject, ps, allArgs, pos[..|pos| - 1]) + allArgs[pa].items)
  {
    var pos := PositionalArgNames(ps);
    assert ItemOf(callableObject, ps, allArgs, pos[|pos| - 1]) == Success(Resolved(callableObject, ps, allArgs, pa));
  }

  /** `**kwargs`, when declared, is the last of the keyword names. */
  lemma PackedKwargsIsLastKeyword(ps: seq<Param>)
    requires WellFormed(ps) && PackedKwargsName(ps).Some?
    ensures var kw := KeywordArgNames(ps); |kw| > 0 && PackedKwargsName(ps).value == kw[|kw| - 1]
    ensures forall j :: 0 <= j < |KeywordArgNames(ps)| - 1 ==> KeywordArgNames(ps)[j] != PackedKwargsName(ps).value
    ensures forall n :: n in KeywordArgNames(ps) ==> n in Names(ps) && n !in PositionalArgNames(ps)
  {
    NamesPartition(ps);
    PositionalPrefix(ps);
    PackedKwargsIsLast(ps);
    KeywordSuffix(ps, PositionalArgNames(ps), KeywordArgNames(ps), PackedKwargsName(ps).value);
  }

  /**
    With the names split into a positional prefix `pos` and the rest `kw`,
    and the distinct-named last parameter `pk` not positional, `pk` is the
    last of `kw` and nothing in `kw` is positional.
  */
  lemma KeywordSuffix(ps: seq<Param>, pos: seq<string>, kw: seq<string>, pk: string)
    requires Names(ps) == pos + kw
    requires forall i :: 0 <= i < |ps| ==> (i < |pos| <==> PositionalParam(ps[i]))
    requires forall i, j :: 0 <= i < j < |ps| ==> ps[i].name != ps[j].name
    requires |ps| > 0 && ps[|ps| - 1].name == pk && !PositionalParam(ps[|ps| - 1])
    ensures |kw| > 0 && pk == kw[|kw| - 1]
    ensures forall j :: 0 <= j < |kw| - 1 ==> kw[j] != pk
    ensures forall n :: n in kw ==> n in Names(ps) && n !in pos
  {
    assert Names(ps)[|ps| - 1] == pk;
    forall n | n in kw
      ensures n in Names(ps) && n !in pos
    {
      var i :| 0 <= i < |kw| && kw[i] == n;
      assert Names(ps)[|pos| + i] == n;
      forall k | 0 <= k < |pos|
        ensures pos[k] != n
      {
        assert Names(ps)[k] == pos[k];
        assert ps[k].name != ps[|pos| + i].name;
      }
    }
    forall j | 0 <= j < |kw| - 1
      ensures kw[j] != pk
    {
      assert Names(ps)[|pos| + j] == kw[j];
    }
  }

  lemma {:induction false} KwargsOfPrefix(callableObject: Value, ps: seq<Param>, allArgs: map<string, Value>, i: nat)
    requires i <= |KeywordArgNames(ps)|
    requires ItemsResolve(callableObject, ps, allArgs, KeywordArgNames(ps))
    requires forall j :: 0 <= j < i ==> Some(KeywordArgNames(ps)[j]) != PackedKwargsName(ps)
    ensures KwargsOfUpTo(callableObject, ps, allArgs, i) == Success(NamedView(callableObject, ps, allArgs, KeywordArgNames(ps)[..i]))
  {
    if i > 0 {
      var kw := KeywordArgNames(ps);
      KwargsOfPrefix(callableObject, ps, allArgs, i - 1);
      var n := kw[i - 1];
      assert ItemOf(callableObject, ps, allArgs, n) == Success(Resolved(callableObject, ps, allArgs, n));
      assert Some(n) != PackedKwargsName(ps);
      TakeSnoc(kw, i);
      NamedViewSnoc(callableObject, ps, allArgs, kw[..i - 1], n);
    }
  }

  /** The keyword names are declared and distinct. */
  lemma KeywordNames(ps: seq<Param>)
    requires WellFormed(ps)
    ensures forall n :: n in KeywordArgNames(ps) ==> n in Names(ps)
  {
    var kw := KeywordArgNames(ps);
    NamesPartition(ps);
    forall n | n in kw
      ensures n in Names(ps)
    {
      var i :| 0 <= i < |kw| && kw[i] == n;
      assert Names(ps)[|PositionalArgNames(ps)| + i] == n;
    }
  }

  /**
    `unpackedKwargs` in closed form: the keyword names other than `**kwargs`
    with their values, and the contents of the `**kwargs` dict merged over them.
  */
  lemma KwargsOfClosedForm(callableObject: Value, ps: seq<Param>, allArgs: map<string, Value>)
    requires WellFormed(ps) && Settled(ps, allArgs)
    ensures var kw := KeywordArgNames(ps); PackedKwargsName(ps).Some? ==> |kw| > 0
    ensures var kw := KeywordArgNames(ps); var pk := PackedKwargsName(ps);
      KwargsOf(callableObject, ps, allArgs) ==
        if pk.Some? then Success(NamedView(callableObject, ps, allArgs, kw[..|kw| - 1]) + ToMap(allArgs[pk.value].entries))
        else Success(NamedView(callableObject, ps, allArgs, kw))
  {
    var kw := KeywordArgNames(ps);
    KeywordNames(ps);
    DeclaredItemsResolve(callableObject, ps, allArgs, kw);
    if PackedKwargsName(ps).Some? {
      PackedKwargsIsLastKeyword(ps);
    }
    KwargsOfResolved(callableObject, ps, allArgs);
  }

  /** `unpackedKwargs` in closed form, given that every keyword name resolves and `**kwargs`, if any, comes last. */
  lemma KwargsOfResolved(callableObject: Value, ps: seq<Param>, allArgs: map<string, Value>)
    requires ItemsResolve(callableObject, ps, allArgs, KeywordArgNames(ps))
    requires var kw, pk := KeywordArgNames(ps), PackedKwargsName(ps);
      pk.Some? ==> |kw| > 0 && kw[|kw| - 1] == pk.value && pk.value in allArgs && allArgs[pk.value].Dict?
    requires var kw, pk := KeywordArgNames(ps), PackedKwargsName(ps);
      pk.Some? ==> forall j :: 0 <= j < |kw| - 1 ==> kw[j] != pk.value
    ensures var kw := KeywordArgNames(ps); var pk := PackedKwargsName(ps);
      KwargsOf(callableObject, ps, allArgs) ==
        if pk.Some? then Success(NamedView(callableObject, ps, allArgs, kw[..|kw| - 1]) + ToMap(allArgs[pk.value].entries))
        else Success(NamedView(callableObject, ps, allArgs, kw))
  {
    var kw := KeywordArgNames(ps);
    if PackedKwargsName(ps).Some? {
      var pk := PackedKwargsName(ps).value;
      KwargsOfPrefix(callableObject, ps, allArgs, |kw| - 1);
      assert ItemOf(callableObject, ps, allArgs, kw[|kw| - 1]) == Success(Resolved(callableObject, ps, allArgs, pk));
      KwargsOfLastStep(callableObject, ps, allArgs, pk);
    } else {
      KwargsOfPrefix(callableObject, ps, allArgs, |kw|);
      assert kw[..|kw|] == kw;
    }
  }

  /** The last step of `unpackedKwargs` merges the `**kwargs` dict over what came before. */
  lemma KwargsOfLastStep(callableObject: Value, ps: seq<Param>, allArgs: map<string, Value>, pk: string)
    requires PackedKwargsName(ps) == Some(pk)
    requires var kw := KeywordArgNames(ps); |kw| > 0 && kw[|kw| - 1] == pk
    requires pk in allArgs && allArgs[pk].Dict?
    requires ItemOf(callableObject, ps, allArgs, pk) == Success(allArgs[pk])
    requires var kw := KeywordArgNames(ps);
      KwargsOfUpTo(callableObject, ps, allArgs, |kw| - 1) == Success(NamedView(callableObject, ps, allArgs, kw[..|kw| - 1]))
    ensures var kw := KeywordArgNames(ps);
      KwargsOf(callableObject, ps, allArgs) ==
        Success(NamedView(callableObject, ps, allArgs, kw[..|kw| - 1]) + ToMap(allArgs[pk].entries))
  {
  }

  // ---------------------------------------------------------------- round trips

  /** A call that names no packed slot by keyword leaves `allArgs` `Settled`. */
  lemma BindSettled(callableObject: Value, ps: seq<Param>, args: seq<Value>, kwargs: seq<(string, Value)>)
    requires WellFormed(ps)
    requires Bind(callableObject, ps, args, kwargs).Success?
    requires DistinctNames(kwargs)
    requires forall j :: 0 <= j < |kwargs| ==> Some(kwargs[j].0) != PackedArgsName(ps) && Some(kwargs[j].0) != PackedKwargsName(ps)
    ensures Settled(ps, Bind(callableObject, ps, args, kwargs).value)
  {
    BindBound(callableObject, ps, args, kwargs);
    BindShaped(callableObject, ps, args, kwargs);
    BindNoShadow(callableObject, ps, args, kwargs);
  }

  /**
    Binding a call and re-serialising its positional arguments gives them
    back, except that with a `*args` parameter the argument at its index is
    lost: the positional pass binds that argument to the `*args` name and the
    packing step then overwrites it. Keywords must not rebind a positional
    name, and no positional name may be the first letter of the `**kwargs`
    name (undeclared keywords are written there).
  */
  lemma ArgsRoundTrip(callableObject: Value, ps: seq<Param>, args: seq<Value>, kwargs: seq<(string, Value)>)
    requires WellFormed(ps)
    requires Bind(callableObject, ps, args, kwargs).Success?
    requires DistinctNames(kwargs)
    requires |args| >= |PositionalArgNames(ps)|
    requires forall j :: 0 <= j < |kwargs| ==> kwargs[j].0 !in PositionalArgNames(ps) && Some(kwargs[j].0) != PackedKwargsName(ps)
    requires PackedKwargsName(ps).Some? ==> PackedKwargsName(ps).value[..1] !in PositionalArgNames(ps)
    ensures var pos := PositionalArgNames(ps);
      ArgsOf(callableObject, ps, Bind(callableObject, ps, args, kwargs).value) ==
        Success(if PackedArgsName(ps).Some? then args[..|pos| - 1] + args[|pos|..] else args)
  {
    var pos := PositionalArgNames(ps);
    var r := Bind(callableObject, ps, args, kwargs).value;
    PackedNamesDeclared(ps);
    BindSettled(callableObject, ps, args, kwargs);
    ArgsOfClosedForm(callableObject, ps, r);
    PositionalNames(ps);
    var kwNames := KeywordArgNames(ps);
    if PackedKwargsName(ps).Some? {
      PackedKwargsIsLastKeyword(ps);
    }
    var bound := if PackedArgsName(ps).Some? then |pos| - 1 else |pos|;
    if PackedArgsName(ps).Some? {
      PackedArgsIsLastPositional(ps);
    }
    forall i | 0 <= i < bound
      ensures Resolved(callableObject, ps, r, pos[..bound][i]) == args[..bound][i]
    {
      BindPositionalSurvives(callableObject, ps, args, kwargs, i);
    }
    ResolvedSeqIs(callableObject, ps, r, pos[..bound], args[..bound]);
    if PackedArgsName(ps).Some? {
      BindPacksArgs(callableObject, ps, args, kwargs);
      assert r[PackedArgsName(ps).value].items == args[|pos|..];
    } else {
      assert pos[..|pos|] == pos && args[..|pos|] == args;
    }
  }

  lemma ResolvedSeqIs(callableObject: Value, ps: seq<Param>, allArgs: map<string, Value>, names: seq<string>, values: seq<Value>)
    requires |names| == |values|
    requires forall i :: 0 <= i < |names| ==> Resolved(callableObject, ps, allArgs, names[i]) == values[i]
    ensures ResolvedSeq(callableObject, ps, allArgs, names) == values
  {
  }

  /** The keyword names other than `**kwargs`. */
  function PlainKeywordNames(ps: seq<Param>): seq<string>
    requires WellFormed(ps)
  {
    var kw := KeywordArgNames(ps);
    if PackedKwargsName(ps).Some? then (PackedKwargsIsLastKeyword(ps); kw[..|kw| - 1]) else kw
  }

  lemma {:induction false} WithoutMembers(names: seq<string>, drop: seq<string>, x: string)
    ensures x in Without(names, drop) <==> x in names && x !in drop
  {
    if names != [] {
      WithoutMembers(names[1..], drop, x);
      assert names == [names[0]] + names[1..];
    }
  }

  /** A name is a plain keyword name exactly when it is declared, not positional, and not `**kwargs`. */
  lemma PlainKeywordNamesMembers(ps: seq<Param>, n: string)
    requires WellFormed(ps)
    ensures n in PlainKeywordNames(ps) <==> n in Names(ps) && n !in PositionalArgNames(ps) && Some(n) != PackedKwargsName(ps)
  {
    var kw := KeywordArgNames(ps);
    WithoutMembers(Names(ps), PositionalArgNames(ps), n);
    if PackedKwargsName(ps).Some? {
      PackedKwargsIsLastKeyword(ps);
      var last := |kw| - 1;
      if n in kw && Some(n) != PackedKwargsName(ps) {
        var i :| 0 <= i < |kw| && kw[i] == n;
        assert kw[..last][i] == n;
      }
    }
  }

  /** `unpackedKwargs` of a `Settled` state, as its closed form states it. */
  function KwargsClosed(callableObject: Value, ps: seq<Param>, allArgs: map<string, Value>): map<Value, Value>
    requires WellFormed(ps) && Settled(ps, allArgs)
  {
    var pk := PackedKwargsName(ps);
    var named := NamedView(callableObject, ps, allArgs, PlainKeywordNames(ps));
    if pk.Some? then named + ToMap(allArgs[pk.value].entries) else named
  }

  /**
    Binding a call and re-serialising its keyword arguments gives each of
    them back, declared or not, when the `**kwargs` name is one letter long
    (so that it is its own first letter) and no keyword rebinds a positional
    name or the `**kwargs` slot.
  */
  lemma KwargsRoundTrip(callableObject: Value, ps: seq<Param>, args: seq<Value>, kwargs: seq<(string, Value)>)
    requires WellFormed(ps)
    requires Bind(callableObject, ps, args, kwargs).Success?
    requires DistinctNames(kwargs)
    requires PackedKwargsName(ps).None? || |PackedKwargsName(ps).value| == 1
    requires forall j :: 0 <= j < |kwargs| ==> kwargs[j].0 !in PositionalArgNames(ps) && Some(kwargs[j].0) != PackedKwargsName(ps)
    ensures var u := KwargsOf(callableObject, ps, Bind(callableObject, ps, args, kwargs).value);
      && u.Success?
      && forall j :: 0 <= j < |kwargs| ==> Str(kwargs[j].0) in u.value && u.value[Str(kwargs[j].0)] == kwargs[j].1
  {
    var r := Bind(callableObject, ps, args, kwargs).value;
    PackedNamesDeclared(ps);
    BindSettled(callableObject, ps, args, kwargs);
    KwargsOfClosedForm(callableObject, ps, r);
    assert KwargsOf(callableObject, ps, r) == Success(KwargsClosed(callableObject, ps, r));
    forall j | 0 <= j < |kwargs|
      ensures Str(kwargs[j].0) in KwargsClosed(callableObject, ps, r)
      ensures KwargsClosed(callableObject, ps, r)[Str(kwargs[j].0)] == kwargs[j].1
    {
      if kwargs[j].0 in Names(ps) {
        KwargsRoundTripDeclared(callableObject, ps, args, kwargs, j);
      } else {
        KwargsRoundTripUndeclared(callableObject, ps, args, kwargs, j);
      }
    }
  }

  lemma KwargsRoundTripDeclared(callableObject: Value, ps: seq<Param>, args: seq<Value>, kwargs: seq<(string, Value)>, j: nat)
    requires WellFormed(ps)
    requires Bind(callableObject, ps, args, kwargs).Success?
    requires DistinctNames(kwargs)
    requires PackedKwargsName(ps).None? || |PackedKwargsName(ps).value| == 1
    requires forall j :: 0 <= j < |kwargs| ==> kwargs[j].0 !in PositionalArgNames(ps) && Some(kwargs[j].0) != PackedKwargsName(ps)
    requires Settled(ps, Bind(callableObject, ps, args, kwargs).value)
    requires j < |kwargs| && kwargs[j].0 in Names(ps)
    ensures var u := KwargsClosed(callableObject, ps, Bind(callableObject, ps, args, kwargs).value);
      Str(kwargs[j].0) in u && u[Str(kwargs[j].0)] == kwargs[j].1
  {
    var r := Bind(callableObject, ps, args, kwargs).value;
    var n := kwargs[j].0;
    PlainKeywordNamesMembers(ps, n);
    NamedViewContents(callableObject, ps, r, PlainKeywordNames(ps));
    if PackedKwargsName(ps).Some? {
      var pk := PackedKwargsName(ps).value;
      assert pk[..1] == pk;
      assert n != pk;
    }
    BindKeywordWins(callableObject, ps, args, kwargs, j);
    assert Resolved(callableObject, ps, r, n) == kwargs[j].1;
  }

  lemma KwargsRoundTripUndeclared(callableObject: Value, ps: seq<Param>, args: seq<Value>, kwargs: seq<(string, Value)>, j: nat)
    requires WellFormed(ps)
    requires Bind(callableObject, ps, args, kwargs).Success?
    requires DistinctNames(kwargs)
    requires PackedKwargsName(ps).None? || |PackedKwargsName(ps).value| == 1
    requires forall j :: 0 <= j < |kwargs| ==> kwargs[j].0 !in PositionalArgNames(ps) && Some(kwargs[j].0) != PackedKwargsName(ps)
    requires Settled(ps, Bind(callableObject, ps, args, kwargs).value)
    requires j < |kwargs| && kwargs[j].0 !in Names(ps)
    ensures var u := KwargsClosed(callableObject, ps, Bind(callableObject, ps, args, kwargs).value);
      Str(kwargs[j].0) in u && u[Str(kwargs[j].0)] == kwargs[j].1
  {
    BindErrors(callableObject, ps, args, kwargs);
    assert callableObject.Func? && (|args| <= |PositionalArgNames(ps)| || PackedArgsName(ps).Some?);
    BindCollectsKwargs(callableObject, ps, args, kwargs);
  }

  // ================================================================ assignment (__setitem__, setParameters)

  /**
    `sigInfo[name] = value`: an undeclared name needs a `**kwargs` parameter;
    a bound packed slot only takes a tuple or list (`*args`) or a dict
    (`**kwargs`); a declared name is bound; any other name is written into
    the dict held by the `**kwargs` slot.
  */
  function Assign(ps: seq<Param>, allArgs: map<string, Value>, name: string, value: Value): Result<map<string, Value>> {
    var pa, pk := PackedArgsName(ps), PackedKwargsName(ps);
    if name !in Names(ps) && pk.None? then Failure(AttributeError)
    else if name in allArgs then
      if Some(name) == pa && !(value.Tuple? || value.List?) then Failure(AttributeError)
      else if Some(name) == pk && !value.Dict? then Failure(AttributeError)
      else Success(allArgs[name := value])
    else if name in Names(ps) then Success(allArgs[name := value])
    else if pk.value !in allArgs then Failure(KeyError)
    else if !allArgs[pk.value].Dict? then Failure(TypeError)
    else Success(allArgs[pk.value := Dict(DictSet(allArgs[pk.value].entries, Str(name), value))])
  }

  /**
    On a `Bound` state assignment fails exactly when the name is undeclared
    and there is no `**kwargs` parameter, or a packed slot is given a value
    of the wrong type (AttributeError in both cases); on a `Shaped` state
    nothing else can fail.
  */
  lemma AssignFails(ps: seq<Param>, allArgs: map<string, Value>, name: string, value: Value)
    requires Bound(ps, allArgs) && Shaped(ps, allArgs)
    ensures Assign(ps, allArgs, name, value).Failure? <==>
      || (name !in Names(ps) && PackedKwargsName(ps).None?)
      || (Some(name) == PackedArgsName(ps) && !(value.Tuple? || value.List?))
      || (Some(name) == PackedKwargsName(ps) && !value.Dict?)
    ensures Assign(ps, allArgs, name, value).Failure? ==> Assign(ps, allArgs, name, value).error == AttributeError
  {
  }

  /** Assignment keeps `allArgs` `Bound` and `Shaped`. */
  lemma AssignKeepsShape(ps: seq<Param>, allArgs: map<string, Value>, name: string, value: Value)
    requires Bound(ps, allArgs)
    requires Assign(ps, allArgs, name, value).Success?
    ensures Bound(ps, Assign(ps, allArgs, name, value).value)
    ensures Shaped(ps, allArgs) ==> Shaped(ps, Assign(ps, allArgs, name, value).value)
  {
  }

  /** Assigning to any name but `**kwargs` keeps the state `Settled`. */
  lemma AssignKeepsSettled(ps: seq<Param>, allArgs: map<string, Value>, name: string, value: Value)
    requires Settled(ps, allArgs)
    requires Assign(ps, allArgs, name, value).Success?
    requires Some(name) != PackedKwargsName(ps)
    ensures Settled(ps, Assign(ps, allArgs, name, value).value)
  {
    AssignKeepsShape(ps, allArgs, name, value);
    var pk := PackedKwargsName(ps);
    if pk.Some? && name !in Names(ps) {
      var after := Assign(ps, allArgs, name, value).value;
      assert Keys(after[pk.value].entries) == Keys(DictSet(allArgs[pk.value].entries, Str(name), value));
    }
  }

  /**
    Reading a name back after assigning it gives the assigned value, for any
    name but `**kwargs`, declared or not.
  */
  lemma AssignThenItem(callableObject: Value, ps: seq<Param>, allArgs: map<string, Value>, name: string, value: Value)
    requires WellFormed(ps) && Settled(ps, allArgs)
    requires Assign(ps, allArgs, name, value).Success?
    requires Some(name) != PackedKwargsName(ps)
    ensures ItemOf(callableObject, ps, Assign(ps, allArgs, name, value).value, name) == Success(value)
  {
    var after := Assign(ps, allArgs, name, value).value;
    AssignKeepsSettled(ps, allArgs, name, value);
    ItemOfResolves(callableObject, ps, after, name);
    AssignWrites(ps, allArgs, name, value);
    var pk := PackedKwargsName(ps);
    if name in Names(ps) {
      if pk.Some? {
        assert Str(name) !in Keys(after[pk.value].entries);
      }
      assert Resolved(callableObject, ps, after, name) == value;
    } else {
      assert DictGet(after[pk.value].entries, Str(name)) == Some(value);
    }
  }

  /**
    Assigning one name leaves what every other name reads unchanged, the
    `**kwargs` name excepted (its dict is where undeclared names go).
  */
  lemma AssignFrame(callableObject: Value, ps: seq<Param>, allArgs: map<string, Value>, name: string, value: Value, other: string)
    requires WellFormed(ps) && Settled(ps, allArgs)
    requires Assign(ps, allArgs, name, value).Success?
    requires Some(name) != PackedKwargsName(ps) && Some(other) != PackedKwargsName(ps)
    requires other != name
    ensures ItemOf(callableObject, ps, Assign(ps, allArgs, name, value).value, other) == ItemOf(callableObject, ps, allArgs, other)
  {
    var after := Assign(ps, allArgs, name, value).value;
    AssignKeepsSettled(ps, allArgs, name, value);
    ItemOfResolves(callableObject, ps, after, other);
    ItemOfResolves(callableObject, ps, allArgs, other);
    AssignLookupFrame(callableObject, ps, allArgs, name, value, other);
  }

  lemma AssignLookupFrame(callableObject: Value, ps: seq<Param>, allArgs: map<string, Value>, name: string, value: Value, other: string)
    requires Bound(ps, allArgs) && Shaped(ps, allArgs)
    requires Assign(ps, allArgs, name, value).Success?
    requires Some(name) != PackedKwargsName(ps) && Some(other) != PackedKwargsName(ps)
    requires other != name
    ensures Lookup(callableObject, ps, Assign(ps, allArgs, name, value).value, other) == Lookup(callableObject, ps, allArgs, other)
  {
    var after := Assign(ps, allArgs, name, value).value;
    var pk := PackedKwargsName(ps);
    AssignWrites(ps, allArgs, name, value);
    if name in Names(ps) {
      ResolvedAgrees(callableObject, ps, after, allArgs, other);
      LookupAgrees(callableObject, ps, after, allArgs, other);
    } else {
      var d := allArgs[pk.value].entries;
      assert DictGet(DictSet(d, Str(name), value), Str(other)) == DictGet(d, Str(other));
      ResolvedAgrees(callableObject, ps, after, allArgs, other);
      LookupAgrees(callableObject, ps, after, allArgs, other);
    }
  }

  /** What a successful assignment writes: the name itself when declared, otherwise an entry of the `**kwargs` dict. */
  lemma AssignWrites(ps: seq<Param>, allArgs: map<string, Value>, name: string, value: Value)
    requires Assign(ps, allArgs, name, value).Success?
    requires name in allArgs ==> name in Names(ps)
    ensures name in Names(ps) ==> Assign(ps, allArgs, name, value).value == allArgs[name := value]
    ensures name !in Names(ps) ==> var pk := PackedKwargsName(ps);
      && pk.Some? && pk.value in allArgs && allArgs[pk.value].Dict?
      && Assign(ps, allArgs, name, value).value == allArgs[pk.value := Dict(DictSet(allArgs[pk.value].entries, Str(name), value))]
  {
  }

  lemma ResolvedAgrees(callableObject: Value, ps: seq<Param>, a: map<string, Value>, b: map<string, Value>, name: string)
    requires name in a <==> name in b
    requires name in a ==> a[name] == b[name]
    ensures Resolved(callableObject, ps, a, name) == Resolved(callableObject, ps, b, name)
  {
  }

  /** Two states look a name up alike when they agree on the `**kwargs` entry for it and on its resolved value. */
  lemma LookupAgrees(callableObject: Value, ps: seq<Param>, a: map<string, Value>, b: map<string, Value>, name: string)
    requires var pk := PackedKwargsName(ps); pk.Some? ==> (pk.value in a <==> pk.value in b)
    requires var pk := PackedKwargsName(ps); pk.Some? && pk.value in a ==>
      && (a[pk.value].Dict? <==> b[pk.value].Dict?)
      && (a[pk.value].Dict? ==> DictGet(a[pk.value].entries, Str(name)) == DictGet(b[pk.value].entries, Str(name)))
    requires Resolved(callableObject, ps, a, name) == Resolved(callableObject, ps, b, name)
    ensures Lookup(callableObject, ps, a, name) == Lookup(callableObject, ps, b, name)
  {
  }

  /**
    `setParameters(**parameters)`: each parameter assigned in order. The
    result is the state reached and, when an assignment raises, its exception;
    the assignments made before it are kept.
  */
  function AssignAll(ps: seq<Param>, allArgs: map<string, Value>, parameters: seq<(string, Value)>): (map<string, Value>, Option<Error>)
    decreases |parameters|
  {
    if parameters == [] then (allArgs, None)
    else match Assign(ps, allArgs, parameters[0].0, parameters[0].1)
      case Failure(e) => (allArgs, Some(e))
      case Success(next) => AssignAll(ps, next, parameters[1..])
  }

  /**
    When no parameter is `**kwargs` and every assignment succeeds, each
    parameter reads back as the value it was given.
  */
  lemma {:induction false} AssignAllThenItem(callableObject: Value, ps: seq<Param>, allArgs: map<string, Value>,
                                             parameters: seq<(string, Value)>)
    requires WellFormed(ps) && Settled(ps, allArgs)
    requires DistinctNames(parameters)
    requires forall j :: 0 <= j < |parameters| ==> Some(parameters[j].0) != PackedKwargsName(ps)
    requires AssignAll(ps, allArgs, parameters).1.None?
    ensures Settled(ps, AssignAll(ps, allArgs, parameters).0)
    ensures forall j :: 0 <= j < |parameters| ==>
      ItemOf(callableObject, ps, AssignAll(ps, allArgs, parameters).0, parameters[j].0) == Success(parameters[j].1)
    decreases |parameters|
  {
    if parameters != [] {
      var name, value := parameters[0].0, parameters[0].1;
      var next := Assign(ps, allArgs, name, value).value;
      AssignKeepsSettled(ps, allArgs, name, value);
      AssignAllThenItem(callableObject, ps, next, parameters[1..]);
      AssignThenItem(callableObject, ps, allArgs, name, value);
      AssignAllFrame(callableObject, ps, next, parameters[1..], name);
      var final := AssignAll(ps, allArgs, parameters).0;
      forall j | 0 <= j < |parameters|
        ensures ItemOf(callableObject, ps, final, parameters[j].0) == Success(parameters[j].1)
      {
        if j > 0 {
          assert parameters[1..][j - 1] == parameters[j];
        }
      }
    }
  }

  /** Assigning other names leaves what `other` reads unchanged. */
  lemma {:induction false} AssignAllFrame(callableObject: Value, ps: seq<Param>, allArgs: map<string, Value>,
                                          parameters: seq<(string, Value)>, other: string)
    requires WellFormed(ps) && Settled(ps, allArgs)
    requires forall j :: 0 <= j < |parameters| ==> Some(parameters[j].0) != PackedKwargsName(ps) && parameters[j].0 != other
    requires Some(other) != PackedKwargsName(ps)
    requires AssignAll(ps, allArgs, parameters).1.None?
    ensures ItemOf(callableObject, ps, AssignAll(ps, allArgs, parameters).0, other) == ItemOf(callableObject, ps, allArgs, other)
    decreases |parameters|
  {
    if parameters != [] {
      var name, value := parameters[0].0, parameters[0].1;
      AssignKeepsSettled(ps, allArgs, name, value);
      AssignFrame(callableObject, ps, allArgs, name, value, other);
      AssignAllFrame(callableObject, ps, Assign(ps, allArgs, name, value).value, parameters[1..], other);
    }
  }

  // ---------------------------------------------------------------- an exception ends each loop

  lemma {:induction false} AllArgsUpToFails(callableObject: Value, ps: seq<Param>, allArgs: map<string, Value>, i: nat, j: nat)
    requires i <= j <= |ps|
    requires AllArgsUpTo(callableObject, ps, allArgs, i).Failure?
    ensures AllArgsUpTo(callableObject, ps, allArgs, j) == AllArgsUpTo(callableObject, ps, allArgs, i)
    decreases j
  {
    if j > i {
      AllArgsUpToFails(callableObject, ps, allArgs, i, j - 1);
    }
  }

  lemma {:induction false} ArgsOfUpToFails(callableObject: Value, ps: seq<Param>, allArgs: map<string, Value>, i: nat, j: nat)
    requires i <= j <= |PositionalArgNames(ps)|
    requires ArgsOfUpTo(callableObject, ps, allArgs, i).Failure?
    ensures ArgsOfUpTo(callableObject, ps, allArgs, j) == ArgsOfUpTo(callableObject, ps, allArgs, i)
    decreases j
  {
    if j > i {
      ArgsOfUpToFails(callableObject, ps, allArgs, i, j - 1);
    }
  }

  lemma {:induction false} KwargsOfUpToFails(callableObject: Value, ps: seq<Param>, allArgs: map<string, Value>, i: nat, j: nat)
    requires i <= j <= |KeywordArgNames(ps)|
    requires KwargsOfUpTo(callableObject, ps, allArgs, i).Failure?
    ensures KwargsOfUpTo(callableObject, ps, allArgs, j) == KwargsOfUpTo(callableObject, ps, allArgs, i)
    decreases j
  {
    if j > i {
      KwargsOfUpToFails(callableObject, ps, allArgs, i, j - 1);
    }
  }

  // ================================================================ the SigInfo object

  /**
    A `SigInfo`: the callable, its declared parameters, and the `allArgs`
    dict that construction fills and assignment updates.
  */
  class SigInfo {
    const callableObject: Value
    const params: seq<Param>
    var allArgs: map<string, Value>

    /** The callable is a callable, its signature well formed, and `allArgs` `Bound`. */
    ghost predicate Valid()
      reads this
    {
      callableObject.Func? && WellFormed(params) && Bound(params, allArgs)
    }

    constructor (callableObject: Value, params: seq<Param>, allArgs: map<string, Value>)
      requires callableObject.Func? && WellFormed(params) && Bound(params, allArgs)
      ensures Valid()
      ensures this.callableObject == callableObject && this.params == params && this.allArgs == allArgs
    {
      this.callableObject := callableObject;
      this.params := params;
      this.allArgs := allArgs;
    }

    /** `SigInfo(callableObject, *args, **kwargs)`: a new object, or the exception construction raises. */
    static method New(callableObject: Value, params: seq<Param>, args: seq<Value>, kwargs: seq<(string, Value)>)
      returns (r: Result<SigInfo>)
      requires WellFormed(params)
      ensures r.Failure? ==> Bind(callableObject, params, args, kwargs) == Failure(r.error)
      ensures r.Success? ==>
        && Bind(callableObject, params, args, kwargs) == Success(r.value.allArgs)
        && fresh(r.value) && r.value.Valid()
        && r.value.callableObject == callableObject && r.value.params == params
    {
      var bound := BindArgs(callableObject, params, args, kwargs);
      if bound.Failure? {
        return Failure(bound.error);
      }
      BindBound(callableObject, params, args, kwargs);
      var info := new SigInfo(callableObject, params, bound.value);
      return Success(info);
    }

    /** `unpackedAllArgs`. */
    method UnpackedAllArgs() returns (r: Result<map<Value, Value>>)
      ensures r == AllArgsView(callableObject, params, allArgs)
    {
      var defaults := SignatureDefaults(callableObject, params);
      var view: map<Value, Value> := map[];
      var i := 0;
      while i < |params|
        invariant 0 <= i <= |params|
        invariant AllArgsUpTo(callableObject, params, allArgs, i) == Success(view)
      {
        var name := params[i].name;
        if name in allArgs {
          view := view[Str(name) := allArgs[name]];
          if Some(name) == PackedKwargsName(params) {
            var merged := Update(view, allArgs[name]);
            if merged.Failure? {
              AllArgsUpToFails(callableObject, params, allArgs, i + 1, |params|);
              return Failure(merged.error);
            }
            view := merged.value;
          }
        } else if name in defaults {
          view := view[Str(name) := defaults[name]];
        } else {
          view := view[Str(name) := PyNone];
        }
        i := i + 1;
      }
      return Success(view);
    }

    /** `sigInfo[name]`. */
    method GetItem(name: string) returns (r: Result<Value>)
      ensures r == ItemOf(callableObject, params, allArgs, name)
    {
      var view :- UnpackedAllArgs();
      if Str(name) in view {
        return Success(view[Str(name)]);
      }
      return Success(PyNone);
    }

    /** `unpackedArgs`. */
    method UnpackedArgs() returns (r: Result<seq<Value>>)
      ensures r == ArgsOf(callableObject, params, allArgs)
    {
      var pos := PositionalArgNames(params);
      var packed := PackedArgsName(params);
      var args: seq<Value> := [];
      var i := 0;
      while i < |pos|
        invariant 0 <= i <= |pos|
        invariant ArgsOfUpTo(callableObject, params, allArgs, i) == Success(args)
      {
        var value := GetItem(pos[i]);
        if value.Failure? {
          ArgsOfUpToFails(callableObject, params, allArgs, i + 1, |pos|);
          return Failure(value.error);
        }
        if Some(pos[i]) == packed {
          var extended := Extend(args, value.value);
          if extended.Failure? {
            ArgsOfUpToFails(callableObject, params, allArgs, i + 1, |pos|);
            return Failure(extended.error);
          }
          args := extended.value;
        } else {
          args := args + [value.value];
        }
        i := i + 1;
      }
      return Success(args);
    }

    /** `unpackedKwargs`. */
    method UnpackedKwargs() returns (r: Result<map<Value, Value>>)
      ensures r == KwargsOf(callableObject, params, allArgs)
    {
      var kw := KeywordArgNames(params);
      var packed := PackedKwargsName(params);
      var kwargs: map<Value, Value> := map[];
      var i := 0;
      while i < |kw|
        invariant 0 <= i <= |kw|
        invariant KwargsOfUpTo(callableObject, params, allArgs, i) == Success(kwargs)
      {
        var value := GetItem(kw[i]);
        if value.Failure? {
          KwargsOfUpToFails(callableObject, params, allArgs, i + 1, |kw|);
          return Failure(value.error);
        }
        if Some(kw[i]) == packed {
          var merged := Update(kwargs, value.value);
          if merged.Failure? {
            KwargsOfUpToFails(callableObject, params, allArgs, i + 1, |kw|);
            return Failure(merged.error);
          }
          kwargs := merged.value;
        } else {
          kwargs := kwargs[Str(kw[i]) := value.value];
        }
        i := i + 1;
      }
      return Success(kwargs);
    }

    /** `sigInfo[name] = value`: None when the assignment is made, else the exception it raises. */
    method SetItem(name: string, value: Value) returns (e: Option<Error>)
      requires Valid()
      modifies this
      ensures Valid()
      ensures Assign(params, old(allArgs), name, value).Success? ==>
        e.None? && allArgs == Assign(params, old(allArgs), name, value).value
      ensures Assign(params, old(allArgs), name, value).Failure? ==>
        e == Some(Assign(params, old(allArgs), name, value).error) && allArgs == old(allArgs)
    {
      var names := Names(params);
      var packedArgs, packedKwargs := PackedArgsName(params), PackedKwargsName(params);
      if name !in names && packedKwargs.None? {
        return Some(AttributeError);
      }
      if name in allArgs {
        if Some(name) == packedArgs && !(value.Tuple? || value.List?) {
          return Some(AttributeError);
        }
        if Some(name) == packedKwargs && !value.Dict? {
          return Some(AttributeError);
        }
        allArgs := allArgs[name := value];
      } else if name in names {
        allArgs := allArgs[name := value];
      } else {
        var slot := packedKwargs.value;
        if slot !in allArgs {
          return Some(KeyError);
        }
        if !allArgs[slot].Dict? {
          return Some(TypeError);
        }
        allArgs := allArgs[slot := Dict(DictSet(allArgs[slot].entries, Str(name), value))];
      }
      AssignKeepsShape(params, old(allArgs), name, value);
      return None;
    }

    /**
      `setParameters(**parameters)`: assigns each parameter in order and
      returns this object; an exception stops the loop with the earlier
      assignments made.
    */
    method SetParameters(parameters: seq<(string, Value)>) returns (r: Result<SigInfo>)
      requires Valid()
      modifies this
      ensures Valid()
      ensures allArgs == AssignAll(params, old(allArgs), parameters).0
      ensures AssignAll(params, old(allArgs), parameters).1 == if r.Failure? then Some(r.error) else None
      ensures r.Success? ==> r.value == this
    {
      var i := 0;
      assert parameters[i..] == parameters;
      while i < |parameters|
        invariant 0 <= i <= |parameters|
        invariant Valid()
        invariant AssignAll(params, allArgs, parameters[i..]) == AssignAll(params, old(allArgs), parameters)
      {
        assert parameters[i..][1..] == parameters[i + 1..];
        var e := SetItem(parameters[i].0, parameters[i].1);
        if e.Some? {
          return Failure(e.value);
        }
        i := i + 1;
      }
      return Success(this);
    }
  }

  // ================================================================ defaults(dictionary, overwriteNone, **kwargs)

  /**
    `defaults`: every entry of `dictionary` is written over `kwargs` in order,
    except that with `overwriteNone` a None entry leaves a key `kwargs`
    already has alone.
  */
  function DefaultsMerge(dictionary: seq<(Value, Value)>, overwriteNone: bool, kwargs: seq<(Value, Value)>): seq<(Value, Value)>
    decreases |dictionary|
  {
    if dictionary == [] then kwargs
    else
      var key, value := dictionary[0].0, dictionary[0].1;
      var keep := overwriteNone && value == PyNone && key in Keys(kwargs);
      DefaultsMerge(dictionary[1..], overwriteNone, if keep then kwargs else DictSet(kwargs, key, value))
  }

  /** The loop of `defaults`, proved to build what `DefaultsMerge` describes. */
  method Defaults(dictionary: seq<(Value, Value)>, overwriteNone: bool, kwargs: seq<(Value, Value)>)
    returns (r: seq<(Value, Value)>)
    ensures r == DefaultsMerge(dictionary, overwriteNone, kwargs)
  {
    r := kwargs;
    var i := 0;
    assert dictionary[i..] == dictionary;
    while i < |dictionary|
      invariant 0 <= i <= |dictionary|
      invariant DefaultsMerge(dictionary[i..], overwriteNone, r) == DefaultsMerge(dictionary, overwriteNone, kwargs)
    {
      assert dictionary[i..][1..] == dictionary[i + 1..];
      var key, value := dictionary[i].0, dictionary[i].1;
      var dictValueIsNone := value == PyNone;
      var kwargsHasValue := key in Keys(r);
      if !(overwriteNone && dictValueIsNone && kwargsHasValue) {
        r := DictSet(r, key, value);
      }
      i := i + 1;
    }
  }

  /**
    What `defaults` returns: a key of `dictionary` maps to its value there,
    unless `overwriteNone` is set, that value is None and `kwargs` has the
    key, in which case the `kwargs` value stays; every other key keeps its
    `kwargs` value.
  */
  lemma {:induction false} DefaultsContents(dictionary: seq<(Value, Value)>, overwriteNone: bool, kwargs: seq<(Value, Value)>)
    requires DistinctKeys(dictionary)
    ensures var r := DefaultsMerge(dictionary, overwriteNone, kwargs);
      && (forall k :: k in Keys(dictionary) ==>
            DictGet(r, k) == if overwriteNone && DictGet(dictionary, k) == Some(PyNone) && k in Keys(kwargs)
                             then DictGet(kwargs, k) else DictGet(dictionary, k))
      && (forall k :: k !in Keys(dictionary) ==> DictGet(r, k) == DictGet(kwargs, k))
    decreases |dictionary|
  {
    if dictionary != [] {
      var key, value := dictionary[0].0, dictionary[0].1;
      var keep := overwriteNone && value == PyNone && key in Keys(kwargs);
      var next := if keep then kwargs else DictSet(kwargs, key, value);
      var rest := dictionary[1..];
      assert DistinctKeys(rest) by {
        forall i, j | 0 <= i < j < |rest| ensures rest[i].0 != rest[j].0 {
          assert rest[i] == dictionary[i + 1] && rest[j] == dictionary[j + 1];
        }
      }
      DefaultsContents(rest, overwriteNone, next);
      assert Keys(dictionary) == [key] + Keys(rest);
      assert key !in Keys(rest) by {
        forall i | 0 <= i < |rest| ensures Keys(rest)[i] != key {
          assert rest[i] == dictionary[i + 1];
        }
      }
      var r := DefaultsMerge(dictionary, overwriteNone, kwargs);
      assert r == DefaultsMerge(rest, overwriteNone, next);
      assert DictGet(r, key) == DictGet(next, key);
      forall k | k != key
        ensures DictGet(dictionary, k) == DictGet(rest, k)
        ensures k in Keys(next) <==> k in Keys(kwargs)
        ensures DictGet(next, k) == DictGet(kwargs, k)
      {
      }
      forall k | k in Keys(dictionary)
        ensures DictGet(r, k) == if overwriteNone && DictGet(dictionary, k) == Some(PyNone) && k in Keys(kwargs)
                                 then DictGet(kwargs, k) else DictGet(dictionary, k)
      {
        if k != key {
          assert k in Keys(rest);
        }
      }
    }
  }

  /** `defaults` keeps the `kwargs` keys first, in their order. */
  lemma {:induction false} DefaultsKeepsOrder(dictionary: seq<(Value, Value)>, overwriteNone: bool, kwargs: seq<(Value, Value)>)
    ensures |DefaultsMerge(dictionary, overwriteNone, kwargs)| >= |kwargs|
    ensures forall i :: 0 <= i < |kwargs| ==> DefaultsMerge(dictionary, overwriteNone, kwargs)[i].0 == kwargs[i].0
    decreases |dictionary|
  {
    if dictionary != [] {
      var key, value := dictionary[0].0, dictionary[0].1;
      var keep := overwriteNone && value == PyNone && key in Keys(kwargs);
      var next := if keep then kwargs else DictSet(kwargs, key, value);
      DefaultsKeepsOrder(dictionary[1..], overwriteNone, next);
      forall i | 0 <= i < |kwargs|
        ensures next[i].0 == kwargs[i].0
      {
        assert Keys(next)[i] == Keys(kwargs)[i];
      }
    }
  }
}
