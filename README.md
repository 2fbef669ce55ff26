# generallibrary core, modelled in Dafny

This project models four parts of the Python library `generallibrary` and
proves properties about them:

- **`SigInfo`** (`functions.py`) binds a call's positional and keyword
  arguments to a callable's declared parameters. It keeps the binding in an
  `allArgs` dict, reads parameters back (`unpackedArgs`, `unpackedKwargs`,
  `unpackedAllArgs`, `sigInfo[name]`) and assigns them (`sigInfo[name] = v`,
  `setParameters`). The module function `defaults` merges two dicts.
- **`SortedList`** and the iterable helpers (`iterables.py`).
  - `SortedList` keeps objects in ascending order of a key.
  - The helpers are `getIterable`, `isIterable`, `depth`, `dictFirstValue`,
    `iterFirstValue` and `addToListInDict`.
  - `getRows` turns nested lists and dicts into table rows.
- **`CodeGen`** (`code.py`) collects indented code lines and renders them
  between a header and a footer. `args_to_attrs` produces the
  `self.x = x` lines of an `__init__`.
- **`TreeDiagram`** (`diagram.py`) is a tree of nodes linked by a
  `_parent` field and a `children` list. It supports:
  - `set_parent`, with its cycle check;
  - `get_parent` and `all_parents`;
  - `remove`;
  - the recursive `save`;
  - the `__setattr__` hook that mirrors attributes named in `data_keys` into
    `data`.

## Layout

- `Py.dfy` (module `Py`) holds the Python values the library handles:
  - `None`, ints, strings, callables and other objects by identity, tuples,
    lists and dicts;
  - dicts are insertion-ordered sequences of entries, except the dicts that
    `unpackedAllArgs` and `unpackedKwargs` build, which are modelled as
    mappings;
  - `dict[k] = v`, `list.extend` and `dict.update` are written out;
  - exceptions are a `Result` type.
- `Functions.dfy` (module `Functions`) holds:
  - the parameter list and the signature queries;
  - `Bind`, a specification of construction, and `BindArgs`, the loops that
    build it;
  - the read and write operations;
  - class `SigInfo`, whose `allArgs` is the state the methods update;
  - `defaults`.
- `Iterables.dfy` (module `Iterables`) holds:
  - class `SortedList`, its fields updated by `Add` and `Remove`;
  - the helpers as functions, and `depth` as a loop;
  - `addToListInDict` as a method on a dict object;
  - `getRows` and `_getRows_getRow` as loops proved against the functions
    `RowsOf` and `RowOf`.
- `Code.dfy` (module `Code`) holds the `Line` record, class `CodeGen` with
  `Add` and `Generate`, and `ArgsToAttrs`.
- `Diagram.dfy` (module `Diagram`) holds every `TreeDiagram` object of a
  program.
  - The objects are an arena: class `Forest` maps an identity to a `Node`
    holding `_parent`, `children`, `data`, `data_keys`, the other attributes
    and the class name.
  - `SetParentOf` specifies `set_parent` and `Save` specifies `save`.
  - The `Forest` methods make the changes in place.
- The specification functions `Bind`, `ItemOf`, `ArgsOf`, `KwargsOf`,
  `AllArgsView`, `RowsOf`, `Render`, `SetParentOf` and `Save` have no row
  of their own below. Their meaning is carried by the rows of the lemmas
  about them and of the methods proved equal to them:
  - `Bind`: `BindErrors`, `BindKeywordWins`, `BindPacksArgs`, `BindArgs`;
  - `ItemOf`, `ArgsOf`, `KwargsOf` and `AllArgsView`: `ItemOfResolves`,
    `ArgsOfClosedForm`, `KwargsOfClosedForm`, `AllArgsViewClosedForm`;
  - `RowsOf`: `RowsOfEmptyAndScalar`, `RowsOfContainer`, `GetRows`;
  - `Render`: `RenderShape`, `RenderPlacesLine`, `CodeGen.Generate`;
  - `SetParentOf`: `SetParentOfCases`, `SetParentErrors`, `SetParentMoves`;
  - `Save`: `SaveContents`, `SavedChildrenContents`.

## Model

| member | source | states |
|---|---|---|
| Py.Update | generallibrary/functions.py:177 | `dict.update`: a dict merges its entries over the old ones; a non-iterable raises TypeError |
| Py.UpdateOutcome | generallibrary/functions.py:177 | `dict.update` with a tuple or list succeeds exactly when every element is a pair with a hashable key, and raises TypeError when all are pairs but a key cannot be hashed |
| Py.UpdatePairsOutcome | generallibrary/functions.py:177 | `dict.update` over an iterable of pairs succeeds exactly when every element is a pair with a hashable key, whatever the dict held before |
| Functions.Names | generallibrary/functions.py:61-64 | `names` lists every parameter name, packed ones included, in declaration order |
| Functions.NamesPartition | generallibrary/functions.py:117-132 | `keywordArgNames` is exactly the parameters that cannot take a positional argument; `names` is `positionalArgNames` followed by `keywordArgNames` |
| Functions.PositionalPrefix | generallibrary/functions.py:117-123 | the names that take a positional argument are the leading parameters of the signature |
| Functions.PackedArgsIsLastPositional | generallibrary/functions.py:93-123 | a declared `*args` is found by `packedArgsName` and is the last positional name |
| Functions.PackedKwargsIsLast | generallibrary/functions.py:100-105 | a declared `**kwargs` is found by `packedKwargsName` and is the last parameter |
| Functions.PackedNamesDeclared | generallibrary/functions.py:93-105 | the packed names found are declared, non-empty, and `*args` is positional |
| Functions.FirstOfKind | generallibrary/functions.py:93-105 | the scan returns the first parameter of the kind, or nothing when there is none |
| Functions.SignatureDefaultsContents | generallibrary/functions.py:107-115 | `defaults` has exactly the parameters that declare a default (with it) plus `self` mapped to the callable when `self` declares none |
| Functions.DeclaredDefaultsContents | generallibrary/functions.py:110 | the dict comprehension holds each declared default under its name and nothing else |
| Functions.NamesWithoutDefaultsContents | generallibrary/functions.py:66-69 | `namesWithoutDefaults` is the parameters without a default and not named `self`, order kept |
| Functions.LeadingArgNames | generallibrary/functions.py:76-91 | the result is the longest prefix of parameters that have no default, are not `self` and are ordinary positional; the first parameter after it fails the test |
| Functions.GetIndexFromName | generallibrary/functions.py:134-137 | an index exactly when the name is declared; it is the first position holding that name |
| Functions.BindArgs | generallibrary/functions.py:11-50 | the call and the loops of `__init__` build what `Bind` describes, error or dict, a keyword `self` or `callableObject` being refused with TypeError first |
| Functions.BindErrors | generallibrary/functions.py:11-50 | a keyword named `self` or `callableObject` collides with `__init__`'s own parameters and raises TypeError before anything else; otherwise a non-callable raises AssertionError; too many positional arguments without `*args`, or an undeclared keyword without `**kwargs`, raise AttributeError; an undeclared keyword with a longer `**kwargs` name whose first letter is not declared raises KeyError; nothing but these and TypeError is ever raised |
| Functions.BindKeywordsErrors | generallibrary/functions.py:41-50 | the keyword pass raises AttributeError, KeyError or TypeError and nothing else |
| Functions.BindKeywordsUndeclared | generallibrary/functions.py:47-49 | with no `**kwargs` parameter any undeclared keyword raises AttributeError |
| Functions.BindKeywordsMissingSlot | generallibrary/functions.py:50 | when the first letter of the `**kwargs` name is neither bound nor declared, an undeclared keyword raises KeyError |
| Functions.BindKeywordsSingleLetter | generallibrary/functions.py:38-50 | with a one-letter `**kwargs` name every undeclared keyword lands in its dict |
| Functions.BindKeywordsSlotKind | generallibrary/functions.py:50 | the write at the slot only replaces a dict by a dict |
| Functions.BindKeywordsFrame | generallibrary/functions.py:41-50 | a name no keyword mentions, other than the slot, keeps its binding |
| Functions.BindKeywordsKeys | generallibrary/functions.py:41-50 | the keyword pass only adds declared names |
| Functions.BindKeywordsBinds | generallibrary/functions.py:43-44 | a declared keyword ends bound to its value |
| Functions.BindKeywordArgs | generallibrary/functions.py:41-50 | the keyword loop returns what `BindKeywords` describes, error or dict, stopping at the first keyword that raises |
| Functions.BindPositionalValues | generallibrary/functions.py:23-26 | the first `n` positional names are bound to the arguments at their indices and nothing else is |
| Functions.BindPositionalArgs | generallibrary/functions.py:23-26 | the positional loop binds each positional name to the argument at its index while arguments remain (`BindPositional`) |
| Functions.PositionalPassBound | generallibrary/functions.py:23-39 | after the positional pass only declared names are bound, and both packed slots are |
| Functions.PositionalPassSlots | generallibrary/functions.py:29-39 | the `*args` slot holds the arguments past the positional count and the `**kwargs` slot an empty dict |
| Functions.PositionalPassValues | generallibrary/functions.py:23-26 | each ordinary positional name holds the argument at its index |
| Functions.BindBound | generallibrary/functions.py:11-50 | a successful construction binds only declared names and both packed slots |
| Functions.BindShaped | generallibrary/functions.py:29-50 | when no keyword names a packed slot, `*args` holds a sequence and `**kwargs` a dict |
| Functions.BindPositionalSurvives | generallibrary/functions.py:23-50 | a positional argument stays bound unless a keyword rebinds its name, it is the `*args` name, or it is the `**kwargs` first letter |
| Functions.BindKeywordWins | generallibrary/functions.py:41-44 | a keyword naming a declared parameter overwrites the positional argument |
| Functions.BindPacksArgs | generallibrary/functions.py:29-35 | `*args` ends with the arguments past the positional count; the argument at its own index is lost |
| Functions.BindInitClashes | generallibrary/functions.py:11 | `SigInfo(m, self=o)`, `SigInfo(f, callableObject=1)` and `SigInfo(5, self=1)` raise TypeError, the last one before the callable check |
| Functions.BindCollectsKwargs | generallibrary/functions.py:38-50 | with a one-letter `**kwargs` name no keyword other than `self` and `callableObject` fails, and exactly the undeclared keywords land in its dict |
| Functions.BindNoShadow | generallibrary/functions.py:38-50 | unless a keyword rebinds it, the `**kwargs` dict holds only undeclared names |
| Functions.BindNoShadowLonger | generallibrary/functions.py:50 | a `**kwargs` name of two or more letters never receives a keyword: its dict stays empty |
| Functions.BindSettled | generallibrary/functions.py:11-50 | a call that names no packed slot by keyword leaves a state where reading back cannot fail |
| Functions.AllArgsViewClosedForm | generallibrary/functions.py:163-185 | `unpackedAllArgs` is every declared name with its bound value, default or None, with the `**kwargs` value merged over them by `dict.update`, whose TypeError (a non-iterable, a non-pair, an unhashable key) is the result |
| Functions.ItemOfResolves | generallibrary/functions.py:202-205 | `sigInfo[name]` reads the `**kwargs` dict first, then the bound value, default or None; None for any other name; TypeError when the slot is not iterable; with a tuple or list in the slot it succeeds exactly when every element is a pair with a hashable key, and raises TypeError when all are pairs but a key cannot be hashed |
| Functions.ItemOfDeclared | generallibrary/functions.py:202-205 | a declared name not shadowed resolves to its bound value, default or None |
| Functions.ItemOfUnhashablePairKey | generallibrary/functions.py:174-177 | `def f(**kwargs)` called with `kwargs=[([1], 2)]`: `sigInfo["x"]` raises TypeError, since `dict.update` cannot hash the list key |
| Functions.ArgsOfUnhashablePairKey | generallibrary/functions.py:141-150 | `def f(a, **kwargs)` called as `f(1, kwargs=[([1], 2)])`: `unpackedArgs` raises TypeError, as reading `a` goes through `unpackedAllArgs` |
| Functions.KwargsOfUnhashablePairKey | generallibrary/functions.py:152-161 | `def f(**kwargs)` called with `kwargs=[([1], 2)]`: `unpackedKwargs` raises TypeError |
| Functions.ArgsOfClosedForm | generallibrary/functions.py:141-150 | `unpackedArgs` is the values of the positional names in order, with the `*args` contents spliced in last |
| Functions.KwargsOfClosedForm | generallibrary/functions.py:152-161 | `unpackedKwargs` is the keyword names other than `**kwargs` with their values, the `**kwargs` dict merged over them |
| Functions.ArgsRoundTrip | generallibrary/functions.py:141-150 | binding then `unpackedArgs` gives the positional arguments back (but for the one at the `*args` index) |
| Functions.KwargsRoundTrip | generallibrary/functions.py:152-161 | binding then `unpackedKwargs` gives every keyword argument back, declared or not |
| Functions.KwargsRoundTripDeclared | generallibrary/functions.py:152-161 | each declared keyword argument reads back from `unpackedKwargs` |
| Functions.KwargsRoundTripUndeclared | generallibrary/functions.py:152-161 | each undeclared keyword argument reads back from `unpackedKwargs` |
| Functions.Assign | generallibrary/functions.py:207-223 | assignment to a declared name binds it; to an undeclared name writes into the `**kwargs` dict; otherwise fails |
| Functions.AssignFails | generallibrary/functions.py:208-215 | assignment fails exactly when the name is undeclared with no `**kwargs`, or a packed slot gets the wrong type (AttributeError) |
| Functions.AssignKeepsShape | generallibrary/functions.py:207-223 | assignment keeps only declared names bound and the packed slots shaped |
| Functions.AssignKeepsSettled | generallibrary/functions.py:207-223 | assigning any name but `**kwargs` keeps reads from failing |
| Functions.AssignThenItem | generallibrary/functions.py:202-223 | reading a name after assigning it gives the assigned value |
| Functions.AssignFrame | generallibrary/functions.py:207-223 | assigning a name leaves what every other name reads unchanged |
| Functions.AssignLookupFrame | generallibrary/functions.py:207-223 | the same frame property for the lookup of a shaped state |
| Functions.AssignAllThenItem | generallibrary/functions.py:232-236 | after `setParameters` each parameter reads back as given |
| Functions.AssignAllFrame | generallibrary/functions.py:232-236 | `setParameters` leaves every name it does not mention unchanged |
| Functions.SigInfo.New | generallibrary/functions.py:11-50 | the object holds what `Bind` gives, or the exception is returned, the TypeError of a keyword `self` or `callableObject` included |
| Functions.SigInfo.UnpackedAllArgs | generallibrary/functions.py:163-185 | the loop builds `AllArgsView` |
| Functions.SigInfo.GetItem | generallibrary/functions.py:202-205 | the method returns `ItemOf`, TypeError from `unpackedAllArgs` included |
| Functions.SigInfo.UnpackedArgs | generallibrary/functions.py:141-150 | the loop builds `ArgsOf`, stopping at the first read that raises |
| Functions.SigInfo.UnpackedKwargs | generallibrary/functions.py:152-161 | the loop builds `KwargsOf`, stopping at the first read or merge that raises |
| Functions.SigInfo.SetItem | generallibrary/functions.py:207-223 | `allArgs` becomes `Assign`'s result, or is unchanged and the exception returned |
| Functions.SigInfo.SetParameters | generallibrary/functions.py:232-236 | assigns in order, keeping the earlier assignments when one raises; returns the object itself |
| Functions.Defaults | generallibrary/functions.py:280-298 | the loop builds `DefaultsMerge` |
| Functions.DefaultsContents | generallibrary/functions.py:289-296 | a key of `dictionary` gets its value there unless `overwriteNone`, a None value and a key already in `kwargs` keep the `kwargs` value; other keys keep theirs |
| Functions.DefaultsKeepsOrder | generallibrary/functions.py:289-298 | the `kwargs` keys stay first, in order |
| Iterables.SortedList.constructor | generallibrary/iterables.py:7-21 | the new list holds the given objects inserted one by one, ascending by key |
| Iterables.SortedList.Add | generallibrary/iterables.py:29-44 | each object is inserted before the first key not smaller than its own; keys stay in step and ascending |
| Iterables.SortedList.Remove | generallibrary/iterables.py:46-56 | each object present loses its first occurrence, absent ones are skipped; keys stay in step |
| Iterables.SortedList.RemoveOne | generallibrary/iterables.py:50-56 | one object of `remove`: the objects become `Removed` of the old ones and keys stay in step and ascending |
| Iterables.InsertIndex | generallibrary/iterables.py:35-41 | the insertion index has only smaller keys before it and a key not smaller at it |
| Iterables.InsertIndexUnique | generallibrary/iterables.py:35-41 | in an ascending list that index is the only one with that property |
| Iterables.InsertedAscending | generallibrary/iterables.py:33-44 | one insertion keeps the keys ascending |
| Iterables.InsertedContents | generallibrary/iterables.py:43-44 | one insertion adds exactly the object and keeps the order of the others |
| Iterables.InsertedAllProps | generallibrary/iterables.py:29-44 | `add` keeps keys ascending, adds exactly the objects and keeps the earlier ones in order |
| Iterables.RemovedAscending | generallibrary/iterables.py:46-56 | removal keeps keys ascending |
| Iterables.RemovedContents | generallibrary/iterables.py:50-56 | an absent object changes nothing; a present one loses its first occurrence only |
| Iterables.RemovedAllProps | generallibrary/iterables.py:46-56 | `remove` keeps keys ascending and only removes, order kept |
| Iterables.GetIterable | generallibrary/iterables.py:58-87 | a list of items exactly for tuples, lists and dicts (the dict's values in order), else nothing |
| Iterables.IsIterableKinds | generallibrary/iterables.py:89-96 | `isIterable` holds exactly for tuples, lists and dicts, empty ones included (`5` is not iterable, `[]` is) |
| Iterables.DictFirstValue | generallibrary/iterables.py:112-124 | TypeError exactly for non-dicts, None for an empty dict, else the first inserted value |
| Iterables.IterFirstValue | generallibrary/iterables.py:126-142 | TypeError exactly for non-iterables, None when empty, else the first item |
| Iterables.DepthOf | generallibrary/iterables.py:98-110 | the depth is zero exactly for non-iterables and empty containers |
| Iterables.Depth | generallibrary/iterables.py:98-110 | the loop returns `DepthOf` |
| Iterables.DepthOfNested | generallibrary/iterables.py:98-110 | a value wrapped `k` times in a first position has depth `k` plus its own |
| Iterables.DepthOfIgnoresRest | generallibrary/iterables.py:98-110 | only the first item affects the depth |
| Iterables.AddedToList | generallibrary/iterables.py:158-171 | absent key: a new one-item list at the end; present list: the value appended; anything else present: AttributeError; unhashable key: TypeError; other keys unchanged |
| Iterables.AddToListInDict | generallibrary/iterables.py:158-171 | the dict becomes `AddedToList`'s result, or is unchanged and the exception returned |
| Iterables.KeyLeTotal | generallibrary/iterables.py:187 | keys of one kind are totally ordered |
| Iterables.InsertByKeySorted | generallibrary/iterables.py:187 | insertion keeps entries sorted by key |
| Iterables.SortByKey | generallibrary/iterables.py:187 | `sorted(items())` is a permutation of the entries |
| Iterables.SortByKeySorted | generallibrary/iterables.py:187 | the result of `sorted(items())` is sorted by key |
| Iterables.RowOf | generallibrary/iterables.py:175-189 | the row starts with the key when it is truthy, then one cell per item; TypeError exactly for a dict with keys that cannot be compared |
| Iterables.RowOfDict | generallibrary/iterables.py:186-188 | a dict's row is its values in ascending key order |
| Iterables.GetRow | generallibrary/iterables.py:175-189 | the loop builds `RowOf` |
| Iterables.RowsOfEach | generallibrary/iterables.py:211-218 | one row per item, failing exactly when one row does |
| Iterables.RowsOfEachLoop | generallibrary/iterables.py:211-218 | the loop builds `RowsOfEach` |
| Iterables.GetRows | generallibrary/iterables.py:191-223 | the method returns `RowsOf` |
| Iterables.RowsOfEmptyAndScalar | generallibrary/iterables.py:202-222 | no rows exactly for None or an empty container; a scalar is one one-cell row |
| Iterables.RowsOfContainer | generallibrary/iterables.py:209-220 | a flat container is one row; a nested one gives a row per item |
| Iterables.RowsOfEachAllSucceed | generallibrary/iterables.py:211-218 | when every item's row succeeds, the rows come back one per item, in order |
| Iterables.RowsOfListOfLists | generallibrary/iterables.py:193-194 | `[[1, 2, 3], [4, 5, 6]]` gives those rows |
| Iterables.RowsOfKeyedPair | generallibrary/iterables.py:215-218 | a two-entry dict whose first value is iterable gives one row per entry, each led by its key |
| Iterables.RowsOfDictOfLists | generallibrary/iterables.py:197 | `{1: [2, 3], 4: [5, 6]}` gives `[[1, 2, 3], [4, 5, 6]]` |
| Iterables.SortByKeyOfSorted | generallibrary/iterables.py:187 | entries already ascending by key come out of `sorted` unchanged |
| Iterables.RowOfAscendingDict | generallibrary/iterables.py:183-188 | a dict with ascending string keys gives its values in order, led by a truthy key |
| Iterables.RowsOfListPair | generallibrary/iterables.py:209-212 | a two-item list whose first item is iterable gives one row per item, with no key in front |
| Iterables.RowsOfListOfDicts | generallibrary/iterables.py:195 | `[{"a": 1, "b": 2, "c": 3}, {"d": 4, "e": 5, "f": 6}]` gives `[[1, 2, 3], [4, 5, 6]]` |
| Iterables.RowsOfDictOfDicts | generallibrary/iterables.py:196 | `{1: {"b": 2, "c": 3}, 4: {"e": 5, "f": 6}}` gives `[[1, 2, 3], [4, 5, 6]]` |
| Iterables.RowOfDictFollowsKeys | generallibrary/iterables.py:186-188 | an int-keyed dict's row follows its keys, not its insertion order |
| Code.Indentation | generallibrary/code.py:24 | `indent * level` is four spaces per level |
| Code.CodeGen.constructor | generallibrary/code.py:25-26 | a new generator has no lines |
| Code.CodeGen.Add | generallibrary/code.py:28-30 | the line is appended with its indent, code and spacing |
| Code.CodeGen.Generate | generallibrary/code.py:32-41 | the loops produce `Render` of the lines |
| Code.GenerateTwice | generallibrary/code.py:32-41 | generating does not change the generator: two calls agree |
| Code.RenderShape | generallibrary/code.py:32-41 | the output is the header, one block per line, the footer |
| Code.RenderPlacesLine | generallibrary/code.py:34-39 | line `i` sits after the blocks of the lines before it: its blank lines, its indented code, its blank lines |
| Code.BlockContents | generallibrary/code.py:35-39 | one line renders as `space_before` blanks, the text, `space_after` blanks (negative counts as zero) |
| Code.TextIndent | generallibrary/code.py:37 | the text is the indentation followed by the code unchanged |
| Code.TotalSizeAppend | generallibrary/code.py:34-39 | output sizes add up over the lines |
| Code.BlocksAppend | generallibrary/code.py:34-39 | the blocks of two line lists are concatenated |
| Code.BlocksLength | generallibrary/code.py:34-39 | the blocks take exactly the lines' total size |
| Code.BlockAt | generallibrary/code.py:34-39 | each line's block sits at the offset of the lines before it |
| Code.NonSelf | generallibrary/code.py:49-50 | exactly the names other than `self` are kept |
| Code.AttrLines | generallibrary/code.py:49-51 | one line per name, the line at each position being that name's `self.k = k` line |
| Code.ArgsToAttrs | generallibrary/code.py:46-52 | the generator holds `AttrLines` of the names other than `self`: one `self.k = k` line at indent 2 each, in order |
| Code.ArgsToAttrsCovers | generallibrary/code.py:46-52 | a name gets a line exactly when it is not `self` and is in the dict |
| Code.AttrLineInjective | generallibrary/code.py:51 | different names give different lines |
| Diagram.AncestorsWalk | generallibrary/diagram.py:46-51 | `all_parents` is nearest-first: the parent, each one's parent next, ending at a root; it never holds the node and never repeats |
| Diagram.AncestorsStep | generallibrary/diagram.py:46-51 | a node's ancestors are its parent followed by the parent's ancestors |
| Diagram.AncestorsBound | generallibrary/diagram.py:46-51 | a node has fewer ancestors than there are nodes |
| Diagram.Forest.AllParents | generallibrary/diagram.py:46-51 | the loop returns the ancestor chain |
| Diagram.Forest.GetParent | generallibrary/diagram.py:43-44 | index 0 gives `_parent` (which is `all_parents()[0]` when there is one); other indices, negative ones included, index `all_parents()` with IndexError out of range |
| Diagram.Detach | generallibrary/diagram.py:31-32 | the old parent's children lose the first occurrence of the node; no other node and no `_parent` changes |
| Diagram.Adopt | generallibrary/diagram.py:34-40 | the node gets the new `_parent`; the new parent has the node appended last; no other `_parent` or `children` changes |
| Diagram.AdoptData | generallibrary/diagram.py:40 | the assignment to `_parent` goes through `__setattr__`: it is mirrored into the node's `data` when `_parent` is one of its `data_keys`; every other field of every node is unchanged |
| Diagram.SetParentOfCases | generallibrary/diagram.py:29-41 | `set_parent` ends in exactly one of three ways: unchanged with ValueError, detached with AttributeError, or detached then adopted with the node returned |
| Diagram.SetParentErrors | generallibrary/diagram.py:29-41 | ValueError exactly when the old parent does not list the node (nothing changes); AttributeError exactly when the new parent descends from it (the old parent has already lost it); otherwise the node itself is returned |
| Diagram.SetParentMoves | generallibrary/diagram.py:30-41 | success: the old parent loses the node, the new parent has it appended last, `_parent` is the new parent and is mirrored into `data` when `data_keys` lists it, no other node changes |
| Diagram.SetParentKeepsLinked | generallibrary/diagram.py:29-41 | whatever the outcome, every node lists only its own children, once each |
| Diagram.SetParentKeepsAcyclic | generallibrary/diagram.py:36-38 | a parent other than the node itself never creates a cycle |
| Diagram.ReparentAcyclic | generallibrary/diagram.py:36-40 | giving a node a parent that does not descend from it, changing no other `_parent`, keeps every walk to the root finite |
| Diagram.SetParentToSelf | generallibrary/diagram.py:36-51 | `set_parent(self)` passes the check and leaves a node whose walk to the root never ends |
| Diagram.SetParentConsistency | generallibrary/diagram.py:29-41 | in a consistent tree no ValueError arises; success keeps it consistent; AttributeError leaves the node naming a parent that no longer lists it |
| Diagram.MoveKeepsConsistent | generallibrary/diagram.py:30-40 | detaching the node from the parent that lists it and adopting it under the new one keeps `_parent` and `children` in agreement |
| Diagram.ConsistentLinks | generallibrary/diagram.py:29-41 | in a consistent tree `n._parent == p` exactly when `n` occurs once in `p.children`, and otherwise not at all |
| Diagram.Forest.SetParent | generallibrary/diagram.py:29-41 | the method makes the change `SetParentOf` describes, `_parent` mirroring included, and keeps the tree well formed when the parent is not the node itself |
| Diagram.Forest.Remove | generallibrary/diagram.py:74-75 | `set_parent(None)`: the arena becomes what `SetParentOf` gives for no parent, and the error it reports is the one `set_parent` raises (a ValueError when the old parent does not list the node), None on success |
| Diagram.RemoveDetaches | generallibrary/diagram.py:74-75 | `remove` makes the node a root (with None mirrored into `data` when `data_keys` lists `_parent`), drops it from its old parent and leaves every other node, its own children included, unchanged |
| Diagram.Forest.NewNode | generallibrary/diagram.py:13-19 | a fresh node with no children and empty `data` and `data_keys` is attached to its parent, which cannot fail |
| Diagram.NewNodeValid | generallibrary/diagram.py:13-19 | a fresh node keeps the tree well formed and is nobody's ancestor |
| Diagram.AdoptFresh | generallibrary/diagram.py:13-19 | the `set_parent` call of `__init__` on the fresh node succeeds, appends it to the parent and changes no other node |
| Diagram.ChildrenDeeper | generallibrary/diagram.py:55-60 | a child is one step further from the root than its parent, so `save` terminates |
| Diagram.Stamped | generallibrary/diagram.py:57-59 | the copy of `data` keeps its keys in order and gains `children_dicts` and `class_name` |
| Diagram.SaveContents | generallibrary/diagram.py:55-60 | `save` returns `data`'s entries, then `children_dicts` holding the saved children and `class_name` |
| Diagram.SavedChildrenContents | generallibrary/diagram.py:58 | `children_dicts` holds one saved dict per child, in the order of `children` |
| Diagram.Mirrored | generallibrary/diagram.py:80-82 | `__setattr__` stores the value in `data` under the attribute name exactly when the name is in `data_keys`, keeping every other entry |
| Diagram.WithAttr | generallibrary/diagram.py:80-83 | the attribute is set, and mirrored into `data` exactly when its name is in `data_keys` |
| Diagram.WithDataKeys | generallibrary/diagram.py:80-83 | assigning `data_keys` replaces it, mirrored into `data` only when `data_keys` names itself |
| Diagram.ReplaceNode | generallibrary/diagram.py:80-83 | an attribute write that keeps `_parent` and `children` keeps the tree well formed |
| Diagram.Forest.SetAttr | generallibrary/diagram.py:80-83 | the node becomes `WithAttr`'s result and the tree stays well formed |
| Diagram.Forest.SetDataKeys | generallibrary/diagram.py:80-83 | the node becomes `WithDataKeys`'s result |
| Diagram.Forest.Store | generallibrary/diagram.py:80-83 | writing one node's new state that keeps its `_parent` and `children` changes only that node and keeps the tree well formed |

## Notes on the code as written

- `functions.py:35` fills `*args` with the arguments past the positional
  count. The positional loop at lines 23-26 has already bound the argument
  at the `*args` index to the `*args` name, and line 30 overwrote it, so
  that argument is lost. `ArgsRoundTrip` states this loss.
- `functions.py:50` writes undeclared keywords into
  `allArgs[packedKwargsName[0]]`, the FIRST LETTER of the `**kwargs` name,
  not the name itself. The model does the same:
  - with a one-letter name (`**k`) this is the `**kwargs` dict;
  - with a longer name, it raises KeyError when that letter is not bound,
    TypeError when it is bound to something other than a dict, and
    otherwise writes into that other dict.
- `defaults` (`functions.py:280-298`) lets `dictionary` overwrite `kwargs`,
  as its loop does. Its docstring says the opposite ("unless they already
  existed"). The model follows the loop.
- `diagram.py:16` assigns an empty `data_keys` on every instance. A
  `data_keys` declared on a subclass is therefore shadowed, and nothing is
  mirrored into `data` until `data_keys` is assigned on the instance.
  `NewNode` and `SetDataKeys` model exactly this.
- `set_parent(self)` is not refused (`diagram.py:36` only checks the
  ancestors). It makes the node its own parent, after which
  `all_parents` never ends (`SetParentToSelf`).
- The `SortedList` docstring speaks of float keys. The keys are modelled as
  integers.

## Left out

- Functions.ArgsRoundTrip: stated for calls that give every positional name an argument (fewer leave the rest None) and whose keywords rebind no positional name or `**kwargs`; with a `*args` parameter the lost argument is excluded, as stated.
- Functions.KwargsRoundTrip: stated for a one-letter `**kwargs` name (or none), since with a longer name the keywords go to the first letter's slot, not to `**kwargs`.
- Functions.KwargsRoundTripDeclared: stated for a one-letter `**kwargs` name (or none), for the same reason.
- Functions.BindCollectsKwargs: stated for one-letter `**kwargs` names only, for the same reason.
- Functions.AllArgsViewClosedForm: `unpackedAllArgs` is modelled as a mapping from keys to values, so it states which keys the returned dict holds and their values, not their order (declared names first, then the `**kwargs` entries not already present).
- Functions.KwargsOfClosedForm: `unpackedKwargs` is modelled as a mapping, so the order of the returned dict's keys is not stated.
- Functions.SigInfo.UnpackedAllArgs: returns the mapping `AllArgsView`; the key order of the dict Python builds is not modelled.
- Functions.SigInfo.UnpackedKwargs: returns the mapping `KwargsOf`; the key order of the dict Python builds is not modelled.
- `inspect.signature` is not modelled. A signature is given as a well-formed list of parameters: names, kinds and defaults.
- `SigInfo.__call__` is not modelled, because it calls into arbitrary code.
- `copy`, `namesWithoutPacked`, `calculate` and `_tokenize` are not part of this model: they are outside the modelled core.
- Python values are simplified. Floats are modelled as ints and booleans are dropped, because `True == 1` shares a hash with `1`.
- Mutable values are modelled as values. Aliasing between a list held in two places is therefore not modelled, except for the objects modelled as classes.
- The `typeChecker` check of `SortedList.__init__` (`iterables.py:12-13`) is not modelled, because that module is not part of this model. The default `getValueFunc` (the identity) needs integer objects, so the model always takes a key function.
- `joinWithStr` is not part of this model.
- Iterables.RowOf: `sorted` on keys of mixed types, or of types without an order, raises TypeError. The model covers int-only and str-only keys and reports TypeError otherwise, so it does not cover tuple keys, which Python can compare.
- Printing (`CodeGen.print`, the output of `args_to_attrs`), the clipboard helpers, `Config` and `getLocalFeaturesAsMD` are not modelled: they are I/O or outside the modelled core. `ArgsToAttrs` returns the generator instead of printing it.
- `call_hook` and `hook_add_child` are not modelled, because they call into arbitrary code (hooks are None by default).
- `load`, `copy_to` and the `children_dicts` branch of `TreeDiagram.__init__` are not modelled, because they look classes up by name.
- The writes `__init__` makes through `__setattr__` while a class-level `data_keys` is still visible are not modelled. `Forest.SetAttr` covers attributes other than `children`, `data`, `data_keys` and `_parent`, and `SetDataKeys` covers `data_keys`.
- Object identity is an arena of numbered nodes. Equality of nodes is identity, as in the source.
- `object.py` and `objinfo/type.py` are not part of this model.
