/**
  `TreeDiagram`: nodes linked to a parent and to an ordered list of children,
  with re-parenting guarded against cycles, the walk to the root, removal,
  recursive saving, and attributes mirrored into `data`.

  All nodes live in one arena, a map from node identity to node state, so an
  operation that touches several nodes updates one map.
*/
module Diagram {
  import opened Py
  import Iterables

  /** The identity of a `TreeDiagram` object. */
  type Id = nat

  /** The state of one node. */
  datatype Node = Node(
    parent: Option<Id>,          // `_parent`
    children: seq<Id>,           // `children`
    data: seq<(Value, Value)>,   // `data`, keyed by attribute name
    dataKeys: seq<string>,       // `data_keys`
    attrs: map<string, Value>,   // every other attribute, as `object.__setattr__` stores it
    className: string)           // `self.__class__.__name__`

  // ================================================================ the walk to the root

  /** Following `_parent` from `n` reaches a node without a parent in at most `k` steps. */
  predicate ReachesRootIn(nodes: map<Id, Node>, n: Id, k: nat)
    decreases k
  {
    n in nodes &&
    (nodes[n].parent.None? || (k > 0 && ReachesRootIn(nodes, nodes[n].parent.value, k - 1)))
  }

  /** The nodes visited from `n`'s parent up to the root. */
  function Chain(nodes: map<Id, Node>, n: Id, k: nat): seq<Id>
    requires ReachesRootIn(nodes, n, k)
    decreases k
  {
    if nodes[n].parent.None? then [] else [nodes[n].parent.value] + Chain(nodes, nodes[n].parent.value, k - 1)
  }

  /** Every node reaches a root: no node is its own ancestor. */
  ghost predicate Acyclic(nodes: map<Id, Node>) {
    forall n :: n in nodes ==> exists k :: ReachesRootIn(nodes, n, k)
  }

  /** `all_parents()`: the chain of ancestors, nearest first. */
  ghost function Ancestors(nodes: map<Id, Node>, n: Id): seq<Id>
    requires n in nodes && Acyclic(nodes)
  {
    var k: nat :| ReachesRootIn(nodes, n, k); Chain(nodes, n, k)
  }

  lemma {:induction false} ChainFuel(nodes: map<Id, Node>, n: Id, k: nat, k': nat)
    requires ReachesRootIn(nodes, n, k) && ReachesRootIn(nodes, n, k')
    ensures Chain(nodes, n, k) == Chain(nodes, n, k')
    decreases k
  {
    if nodes[n].parent.Some? {
      ChainFuel(nodes, nodes[n].parent.value, k - 1, k' - 1);
    }
  }

  lemma AncestorsIsChain(nodes: map<Id, Node>, n: Id, k: nat)
    requires Acyclic(nodes) && ReachesRootIn(nodes, n, k)
    ensures Ancestors(nodes, n) == Chain(nodes, n, k)
  {
    forall k' | ReachesRootIn(nodes, n, k')
      ensures Chain(nodes, n, k') == Chain(nodes, n, k)
    {
      ChainFuel(nodes, n, k', k);
    }
  }

  /** The chain of a node on the chain is what follows it there. */
  lemma {:induction false} ChainSuffix(nodes: map<Id, Node>, n: Id, k: nat, i: nat)
    requires ReachesRootIn(nodes, n, k) && i < |Chain(nodes, n, k)|
    ensures i < k
    ensures ReachesRootIn(nodes, Chain(nodes, n, k)[i], k - i - 1)
    ensures Chain(nodes, Chain(nodes, n, k)[i], k - i - 1) == Chain(nodes, n, k)[i + 1..]
    decreases i
  {
    var p := nodes[n].parent.value;
    var c := Chain(nodes, n, k);
    assert c == [p] + Chain(nodes, p, k - 1);
    if i > 0 {
      ChainSuffix(nodes, p, k - 1, i - 1);
      assert c[i] == Chain(nodes, p, k - 1)[i - 1];
      assert c[i + 1..] == Chain(nodes, p, k - 1)[i..];
    }
  }

  lemma {:induction false} ChainInNodes(nodes: map<Id, Node>, n: Id, k: nat)
    requires ReachesRootIn(nodes, n, k)
    ensures forall i :: 0 <= i < |Chain(nodes, n, k)| ==> Chain(nodes, n, k)[i] in nodes
    decreases k
  {
    if nodes[n].parent.Some? {
      ChainInNodes(nodes, nodes[n].parent.value, k - 1);
    }
  }

  /** An ancestor's own ancestors are the ones after it. */
  lemma AncestorsSuffix(nodes: map<Id, Node>, n: Id, i: nat)
    requires Acyclic(nodes) && n in nodes && i < |Ancestors(nodes, n)|
    ensures Ancestors(nodes, n)[i] in nodes
    ensures Ancestors(nodes, Ancestors(nodes, n)[i]) == Ancestors(nodes, n)[i + 1..]
  {
    var k: nat :| ReachesRootIn(nodes, n, k);
    AncestorsIsChain(nodes, n, k);
    ChainSuffix(nodes, n, k, i);
    ChainInNodes(nodes, n, k);
    AncestorsIsChain(nodes, Chain(nodes, n, k)[i], k - i - 1);
  }

  /**
    `all_parents()` walks parent links nearest first: it starts at `_parent`,
    each entry is the parent of the one before, and the last has no parent.
    It never lists a node twice, nor the node itself.
  */
  lemma AncestorsWalk(nodes: map<Id, Node>, n: Id)
    requires Acyclic(nodes) && n in nodes
    ensures var a := Ancestors(nodes, n);
      && (a == [] <==> nodes[n].parent.None?)
      && (a != [] ==> a[0] == nodes[n].parent.value)
      && (forall i :: 0 <= i < |a| ==> a[i] in nodes)
      && (forall i :: 0 <= i < |a| - 1 ==> nodes[a[i]].parent == Some(a[i + 1]))
      && (a != [] ==> nodes[a[|a| - 1]].parent.None?)
      && n !in a
      && (forall i, j :: 0 <= i < j < |a| ==> a[i] != a[j])
  {
    var a := Ancestors(nodes, n);
    var k: nat :| ReachesRootIn(nodes, n, k);
    AncestorsIsChain(nodes, n, k);
    ChainInNodes(nodes, n, k);
    forall i | 0 <= i < |a|
      ensures |Ancestors(nodes, a[i])| == |a| - i - 1
      ensures nodes[a[i]].parent == if i < |a| - 1 then Some(a[i + 1]) else None
    {
      AncestorsSuffix(nodes, n, i);
      var ki: nat :| ReachesRootIn(nodes, a[i], ki);
      AncestorsIsChain(nodes, a[i], ki);
      if i < |a| - 1 {
        assert Chain(nodes, a[i], ki)[0] == a[i + 1];
      }
    }
    forall i | 0 <= i < |a|
      ensures a[i] != n
    {
      assert |Ancestors(nodes, a[i])| != |Ancestors(nodes, n)|;
    }
    forall i, j | 0 <= i < j < |a|
      ensures a[i] != a[j]
    {
      assert |Ancestors(nodes, a[i])| != |Ancestors(nodes, a[j])|;
    }
  }

  /** A sequence without repeats has as many distinct elements as entries. */
  lemma {:induction false} DistinctCard(s: seq<Id>)
    requires forall i, j :: 0 <= i < j < |s| ==> s[i] != s[j]
    ensures |set x: Id | x in s| == |s|
  {
    if s == [] {
      assert (set x: Id | x in s) == {};
    } else {
      var rest := s[1..];
      DistinctCard(rest);
      var rs := set x: Id | x in rest;
      assert |rs| == |rest|;
      assert (set x: Id | x in s) == rs + {s[0]};
      assert s[0] !in rs;
      assert |rs + {s[0]}| == |rs| + 1;
    }
  }

  lemma {:induction false} SubsetCard(a: set<Id>, b: set<Id>)
    requires a <= b
    ensures |a| <= |b|
    decreases |a|
  {
    if a != {} {
      var x :| x in a;
      SubsetCard(a - {x}, b - {x});
    }
  }

  /** A node has fewer ancestors than there are nodes. */
  lemma AncestorsBound(nodes: map<Id, Node>, n: Id)
    requires Acyclic(nodes) && n in nodes
    ensures |Ancestors(nodes, n)| < |nodes|
  {
    var a := Ancestors(nodes, n);
    AncestorsWalk(nodes, n);
    DistinctCard(a);
    var inA := set x: Id | x in a;
    assert n !in inA;
    var s := inA + {n};
    assert |s| == |a| + 1;
    SubsetCard(s, nodes.Keys);
    assert |nodes.Keys| == |nodes|;
  }

  /** A node with a parent has that parent followed by the parent's ancestors. */
  lemma AncestorsStep(nodes: map<Id, Node>, n: Id)
    requires Acyclic(nodes) && n in nodes && nodes[n].parent.Some?
    ensures nodes[n].parent.value in nodes
    ensures Ancestors(nodes, n) == [nodes[n].parent.value] + Ancestors(nodes, nodes[n].parent.value)
  {
    var k: nat :| ReachesRootIn(nodes, n, k);
    AncestorsIsChain(nodes, n, k);
    AncestorsIsChain(nodes, nodes[n].parent.value, k - 1);
  }

  /** Walks only read parent links: a map that agrees on them walks the same way. */
  lemma {:induction false} ParentsAgree(a: map<Id, Node>, b: map<Id, Node>, n: Id, k: nat)
    requires forall m :: m in a ==> m in b && b[m].parent == a[m].parent
    requires ReachesRootIn(a, n, k)
    ensures ReachesRootIn(b, n, k) && Chain(b, n, k) == Chain(a, n, k)
    decreases k
  {
    if a[n].parent.Some? {
      ParentsAgree(a, b, a[n].parent.value, k - 1);
    }
  }

  ghost predicate SameParents(a: map<Id, Node>, b: map<Id, Node>) {
    a.Keys == b.Keys && forall m :: m in a ==> b[m].parent == a[m].parent
  }

  lemma SameParentsWalk(a: map<Id, Node>, b: map<Id, Node>)
    requires SameParents(a, b) && Acyclic(a)
    ensures Acyclic(b)
    ensures forall n :: n in a ==> Ancestors(b, n) == Ancestors(a, n)
  {
    forall n | n in b
      ensures exists k :: ReachesRootIn(b, n, k)
    {
      var k: nat :| ReachesRootIn(a, n, k);
      ParentsAgree(a, b, n, k);
    }
    forall n | n in a
      ensures Ancestors(b, n) == Ancestors(a, n)
    {
      var k: nat :| ReachesRootIn(a, n, k);
      ParentsAgree(a, b, n, k);
      AncestorsIsChain(a, n, k);
      AncestorsIsChain(b, n, k);
    }
  }

  // ================================================================ well-formed arenas

  /** Every parent and child a node names is a node. */
  ghost predicate Closed(nodes: map<Id, Node>) {
    forall n :: n in nodes ==>
      && (nodes[n].parent.Some? ==> nodes[n].parent.value in nodes)
      && (forall c :: c in nodes[n].children ==> c in nodes)
  }

  ghost predicate Distinct(s: seq<Id>) {
    forall i, j :: 0 <= i < j < |s| ==> s[i] != s[j]
  }

  /** `p` lists each child once, and only nodes whose `_parent` it is. */
  ghost predicate ListsOwnChildren(nodes: map<Id, Node>, p: Id)
    requires p in nodes
  {
    && (forall c :: c in nodes[p].children ==> c in nodes && nodes[c].parent == Some(p))
    && Distinct(nodes[p].children)
  }

  /** Every node lists only its own children, each once. A failed `set_parent` keeps this. */
  ghost predicate Linked(nodes: map<Id, Node>) {
    forall p :: p in nodes ==> ListsOwnChildren(nodes, p)
  }

  /** And every node with a parent is listed by it. A failed `set_parent` breaks this. */
  ghost predicate Consistent(nodes: map<Id, Node>) {
    && Linked(nodes)
    && forall c :: c in nodes && nodes[c].parent.Some? ==>
         nodes[c].parent.value in nodes && c in nodes[nodes[c].parent.value].children
  }

  /** In a consistent arena, `n._parent == p` exactly when `n` occurs once in `p.children`, and otherwise it does not occur there. */
  lemma ConsistentLinks(nodes: map<Id, Node>, n: Id, p: Id)
    requires Consistent(nodes) && n in nodes && p in nodes
    ensures nodes[n].parent == Some(p) <==> multiset(nodes[p].children)[n] == 1
    ensures nodes[n].parent != Some(p) ==> multiset(nodes[p].children)[n] == 0
  {
    var cs := nodes[p].children;
    assert ListsOwnChildren(nodes, p);
    if n in cs {
      var i :| 0 <= i < |cs| && cs[i] == n;
      assert cs == cs[..i] + [n] + cs[i + 1..];
      assert n !in cs[..i] && n !in cs[i + 1..] by {
        forall j | 0 <= j < |cs| && j != i
          ensures cs[j] != n
        {
        }
      }
      assert multiset(cs)[n] == multiset(cs[..i])[n] + 1 + multiset(cs[i + 1..])[n];
    }
  }

  /** Where each element of `list.remove`'s result came from. */
  lemma RemovedIndex(s: seq<Id>, x: Id)
    requires x in s
    ensures var i := Iterables.FirstIndex(s, x); var r := Iterables.Removed(s, x);
      && |r| == |s| - 1
      && (forall j :: 0 <= j < i ==> r[j] == s[j])
      && (forall j :: i <= j < |r| ==> r[j] == s[j + 1])
  {
  }

  /** `list.remove` on a list without repeats drops exactly that element. */
  lemma RemovedDistinct(s: seq<Id>, x: Id)
    requires Distinct(s)
    ensures Distinct(Iterables.Removed(s, x))
    ensures x !in Iterables.Removed(s, x)
    ensures forall y :: y in Iterables.Removed(s, x) <==> y in s && y != x
  {
    if x in s {
      var i := Iterables.FirstIndex(s, x);
      var r := Iterables.Removed(s, x);
      RemovedIndex(s, x);
      forall a, b | 0 <= a < b < |r|
        ensures r[a] != r[b]
      {
        var a' := if a < i then a else a + 1;
        var b' := if b < i then b else b + 1;
        assert r[a] == s[a'] && r[b] == s[b'];
      }
      forall y | y in r
        ensures y in s && y != x
      {
        var j :| 0 <= j < |r| && r[j] == y;
        var j' := if j < i then j else j + 1;
        assert r[j] == s[j'];
      }
      forall y | y in s && y != x
        ensures y in r
      {
        var j :| 0 <= j < |s| && s[j] == y;
        assert j != i;
        var j' := if j < i then j else j - 1;
        assert r[j'] == y;
      }
    }
  }

  // ================================================================ set_parent

  /** `old_parent.children.remove(self)`. */
  function Detach(nodes: map<Id, Node>, p: Id, c: Id): (r: map<Id, Node>)
    requires p in nodes
    ensures r.Keys == nodes.Keys && r[p].children == Iterables.Removed(nodes[p].children, c)
    ensures forall m :: m in nodes && m != p ==> r[m] == nodes[m]
    ensures r[p].(children := nodes[p].children) == nodes[p]
    ensures forall m :: m in nodes ==> r[m].parent == nodes[m].parent
  {
    nodes[p := nodes[p].(children := Iterables.Removed(nodes[p].children, c))]
  }

  /** `parent.children.append(self)`. */
  function Attach(nodes: map<Id, Node>, p: Id, c: Id): map<Id, Node>
    requires p in nodes
  {
    nodes[p := nodes[p].(children := nodes[p].children + [c])]
  }

  /** The value `self._parent` holds: the parent object, or None. */
  function ParentValue(parent: Option<Id>): (r: Value)
    ensures r == PyNone <==> parent.None?
    ensures parent.Some? ==> r == Obj(parent.value)
  {
    match parent
    case None => PyNone
    case Some(p) => Obj(p)
  }

  /**
    `parent.children.append(self)` when there is a parent, then
    `self._parent = parent`, which goes through `__setattr__` and so is
    mirrored into `data` when `_parent` is one of `data_keys`.
  */
  function Adopt(nodes: map<Id, Node>, self: Id, parent: Option<Id>): (r: map<Id, Node>)
    requires self in nodes && (parent.Some? ==> parent.value in nodes)
    ensures r.Keys == nodes.Keys && r[self].parent == parent
    ensures forall m :: m in nodes && m != self ==> r[m].parent == nodes[m].parent
    ensures forall m :: m in nodes ==>
      r[m].children == if Some(m) == parent then nodes[m].children + [self] else nodes[m].children
  {
    var attached := if parent.Some? then Attach(nodes, parent.value, self) else nodes;
    attached[self := attached[self].(parent := parent, data := Mirrored(attached[self], "_parent", ParentValue(parent)))]
  }

  /** What else `Adopt` changes: only `self`'s `data`, by the mirroring of `_parent`. */
  lemma AdoptData(nodes: map<Id, Node>, self: Id, parent: Option<Id>)
    requires self in nodes && (parent.Some? ==> parent.value in nodes)
    ensures var r := Adopt(nodes, self, parent);
      && r[self].data == Mirrored(nodes[self], "_parent", ParentValue(parent))
      && (forall m :: m in nodes && m != self ==> r[m].data == nodes[m].data)
      && (forall m :: m in nodes ==>
            r[m].(parent := nodes[m].parent, children := nodes[m].children, data := nodes[m].data) == nodes[m])
  {
  }

  /**
    `self.set_parent(parent)`: the arena afterwards and the result. `self` is
    first removed from its old parent's children (a ValueError when it is not
    there); a parent that has `self` among its ancestors is then refused with
    an AttributeError, leaving that removal in place; otherwise `self` is
    appended to the new parent's children and its `_parent` is set.
  */
  ghost function SetParentOf(nodes: map<Id, Node>, self: Id, parent: Option<Id>): (map<Id, Node>, Result<Id>)
    requires Closed(nodes) && Acyclic(nodes) && self in nodes && (parent.Some? ==> parent.value in nodes)
  {
    var oldParent := nodes[self].parent;
    if oldParent.Some? && self !in nodes[oldParent.value].children then (nodes, Failure(ValueError))
    else
      var detached := if oldParent.Some? then Detach(nodes, oldParent.value, self) else nodes;
      if parent.Some? && self in Ancestors(nodes, parent.value) then (detached, Failure(AttributeError))
      else
        (Adopt(detached, self, parent), Success(self))
  }

  /** The three outcomes of `SetParentOf`, one per branch. */
  lemma SetParentOfCases(nodes: map<Id, Node>, self: Id, parent: Option<Id>)
    requires Closed(nodes) && Acyclic(nodes) && self in nodes && (parent.Some? ==> parent.value in nodes)
    ensures var op := nodes[self].parent; var (after, r) := SetParentOf(nodes, self, parent);
      var d := if op.Some? then Detach(nodes, op.value, self) else nodes;
      if op.Some? && self !in nodes[op.value].children then after == nodes && r == Failure(ValueError)
      else if parent.Some? && self in Ancestors(nodes, parent.value) then after == d && r == Failure(AttributeError)
      else after == Adopt(d, self, parent) && r == Success(self)
  {
  }

  /**
    The outcomes of `set_parent`: a ValueError exactly when the old parent
    does not list `self` (nothing changes), an AttributeError exactly when
    the new parent descends from `self` (only the old parent's list has
    lost `self`), and otherwise `self` is returned.
  */
  lemma SetParentErrors(nodes: map<Id, Node>, self: Id, parent: Option<Id>)
    requires Closed(nodes) && Acyclic(nodes) && self in nodes && (parent.Some? ==> parent.value in nodes)
    ensures var (after, r) := SetParentOf(nodes, self, parent); var op := nodes[self].parent;
      && after.Keys == nodes.Keys
      && (r == Failure(ValueError) <==> op.Some? && self !in nodes[op.value].children)
      && (r == Failure(AttributeError) <==>
            !(op.Some? && self !in nodes[op.value].children) && parent.Some? && self in Ancestors(nodes, parent.value))
      && (r.Failure? ==> r.error in {ValueError, AttributeError})
      && (r.Success? ==> r.value == self)
      && (r == Failure(ValueError) ==> after == nodes)
      && (r == Failure(AttributeError) ==>
            && after[self] == nodes[self]
            && (forall m :: m in nodes && Some(m) != op ==> after[m] == nodes[m])
            && (op.Some? ==> after[op.value].children == Iterables.Removed(nodes[op.value].children, self)))
  {
    if nodes[self].parent.Some? {
      AncestorsWalk(nodes, self);
    }
  }

  /**
    A successful `set_parent` moves `self`: the old parent loses it, the new
    parent gets it appended at the end, `self`'s `_parent` is the new parent
    (mirrored into its `data` when `_parent` is one of its `data_keys`), and
    no other node changes.
  */
  lemma SetParentMoves(nodes: map<Id, Node>, self: Id, parent: Option<Id>)
    requires Closed(nodes) && Acyclic(nodes) && self in nodes && (parent.Some? ==> parent.value in nodes)
    requires SetParentOf(nodes, self, parent).1.Success?
    ensures var after := SetParentOf(nodes, self, parent).0; var op := nodes[self].parent;
      && after.Keys == nodes.Keys
      && after[self].parent == parent
      && (parent != Some(self) ==>
            after[self] == nodes[self].(parent := parent, data := Mirrored(nodes[self], "_parent", ParentValue(parent))))
      && (parent.Some? && parent != Some(self) ==>
            after[parent.value].children ==
              (if op == parent then Iterables.Removed(nodes[parent.value].children, self) else nodes[parent.value].children) + [self])
      && (op.Some? && op != parent ==> after[op.value].children == Iterables.Removed(nodes[op.value].children, self))
      && (forall m :: m in nodes && m != self && Some(m) != op && Some(m) != parent ==> after[m] == nodes[m])
  {
    var op := nodes[self].parent;
    if op.Some? {
      AncestorsWalk(nodes, self);
    }
    SetParentOfCases(nodes, self, parent);
    var d := if op.Some? then Detach(nodes, op.value, self) else nodes;
    AdoptData(d, self, parent);
  }

  /** Taking `self` out of its parent's list keeps the arena closed and linked, and leaves `self` in no list. */
  lemma DetachKeepsLinked(nodes: map<Id, Node>, op: Id, self: Id)
    requires Closed(nodes) && Linked(nodes) && op in nodes && self in nodes[op].children
    ensures Closed(Detach(nodes, op, self)) && Linked(Detach(nodes, op, self))
    ensures forall q :: q in nodes ==> self !in Detach(nodes, op, self)[q].children
  {
    var d := Detach(nodes, op, self);
    assert ListsOwnChildren(nodes, op);
    RemovedDistinct(nodes[op].children, self);
    forall q | q in d
      ensures ListsOwnChildren(d, q)
    {
      assert ListsOwnChildren(nodes, q);
    }
    forall q | q in nodes
      ensures self !in d[q].children
    {
      assert ListsOwnChildren(nodes, q);
    }
  }

  /** A node that no list names can be given any parent (or none) and be appended to its list. */
  lemma AdoptKeepsLinked(d: map<Id, Node>, self: Id, parent: Option<Id>)
    requires Closed(d) && Linked(d) && self in d && (parent.Some? ==> parent.value in d)
    requires forall q :: q in d ==> self !in d[q].children
    ensures var after := Adopt(d, self, parent);
      Closed(after) && Linked(after)
  {
    var after := Adopt(d, self, parent);
    forall q | q in after
      ensures ListsOwnChildren(after, q)
    {
      assert ListsOwnChildren(d, q);
      var cs := d[q].children;
      forall c | c in cs
        ensures c in after && after[c].parent == Some(q)
      {
        assert c != self;
      }
      if Some(q) == parent {
        AppendDistinct(cs, self);
      }
    }
    forall q | q in after
      ensures after[q].parent.Some? ==> after[q].parent.value in after
      ensures forall c :: c in after[q].children ==> c in after
    {
    }
  }

  lemma AppendDistinct(s: seq<Id>, x: Id)
    requires Distinct(s) && x !in s
    ensures Distinct(s + [x])
  {
  }

  /** Whatever the outcome, every node still lists only its own children, once each. */
  lemma SetParentKeepsLinked(nodes: map<Id, Node>, self: Id, parent: Option<Id>)
    requires Closed(nodes) && Acyclic(nodes) && Linked(nodes) && self in nodes && (parent.Some? ==> parent.value in nodes)
    ensures Closed(SetParentOf(nodes, self, parent).0) && Linked(SetParentOf(nodes, self, parent).0)
  {
    var op := nodes[self].parent;
    var after := SetParentOf(nodes, self, parent).0;
    SetParentOfCases(nodes, self, parent);
    if op.Some? && self !in nodes[op.value].children {
      assert after == nodes;
    } else {
      var d := if op.Some? then Detach(nodes, op.value, self) else nodes;
      if op.Some? {
        DetachKeepsLinked(nodes, op.value, self);
      } else {
        forall q | q in nodes
          ensures self !in nodes[q].children
        {
          assert ListsOwnChildren(nodes, q);
        }
      }
      if parent.Some? && self in Ancestors(nodes, parent.value) {
        assert after == d;
      } else {
        assert after == Adopt(d, self, parent);
        AdoptKeepsLinked(d, self, parent);
      }
    }
  }

  /** Under the same parent links, the walk to the root is unchanged. */
  lemma SameParentsAcyclic(a: map<Id, Node>, b: map<Id, Node>)
    requires SameParents(a, b) && Acyclic(a)
    ensures Acyclic(b)
  {
    SameParentsWalk(a, b);
  }

  lemma {:induction false} FuelMono(nodes: map<Id, Node>, n: Id, k: nat, k': nat)
    requires ReachesRootIn(nodes, n, k) && k <= k'
    ensures ReachesRootIn(nodes, n, k')
    decreases k
  {
    if nodes[n].parent.Some? {
      FuelMono(nodes, nodes[n].parent.value, k - 1, k' - 1);
    }
  }

  /** A walk that never meets `self` is not affected by a change to `self`'s parent. */
  lemma {:induction false} WalkAvoiding(nodes: map<Id, Node>, after: map<Id, Node>, self: Id, x: Id, k: nat)
    requires forall m :: m in nodes && m != self ==> m in after && after[m].parent == nodes[m].parent
    requires ReachesRootIn(nodes, x, k) && x != self && self !in Chain(nodes, x, k)
    ensures ReachesRootIn(after, x, k)
    decreases k
  {
    if nodes[x].parent.Some? {
      WalkAvoiding(nodes, after, self, nodes[x].parent.value, k - 1);
    }
  }

  /** When `self` reaches a root after the change, so does every node that reached one before. */
  lemma {:induction false} WalkThrough(nodes: map<Id, Node>, after: map<Id, Node>, self: Id, fuel: nat, x: Id, k: nat)
    requires forall m :: m in nodes && m != self ==> m in after && after[m].parent == nodes[m].parent
    requires ReachesRootIn(after, self, fuel)
    requires ReachesRootIn(nodes, x, k)
    ensures ReachesRootIn(after, x, k + fuel)
    decreases k
  {
    if x == self {
      FuelMono(after, self, fuel, k + fuel);
    } else if nodes[x].parent.Some? {
      WalkThrough(nodes, after, self, fuel, nodes[x].parent.value, k - 1);
    }
  }

  /**
    `set_parent` never creates a cycle when the new parent is not `self`
    itself: the refusal of a parent that descends from `self` is exactly
    what keeps every walk to the root finite.
  */
  lemma SetParentKeepsAcyclic(nodes: map<Id, Node>, self: Id, parent: Option<Id>)
    requires Closed(nodes) && Acyclic(nodes) && self in nodes && (parent.Some? ==> parent.value in nodes)
    requires parent != Some(self)
    ensures Acyclic(SetParentOf(nodes, self, parent).0)
  {
    var (after, r) := SetParentOf(nodes, self, parent);
    if r.Failure? {
      SameParentsAcyclic(nodes, after);
    } else {
      var op := nodes[self].parent;
      var d := if op.Some? then Detach(nodes, op.value, self) else nodes;
      assert after == Adopt(d, self, parent);
      ReparentAcyclic(nodes, after, self, parent);
    }
  }

  /** Giving `self` a parent that does not descend from it keeps every walk to the root finite. */
  lemma ReparentAcyclic(nodes: map<Id, Node>, after: map<Id, Node>, self: Id, parent: Option<Id>)
    requires Acyclic(nodes) && self in nodes && parent != Some(self)
    requires parent.Some? ==> parent.value in nodes && self !in Ancestors(nodes, parent.value)
    requires after.Keys == nodes.Keys && after[self].parent == parent
    requires forall m :: m in nodes && m != self ==> after[m].parent == nodes[m].parent
    ensures Acyclic(after)
  {
    var fuel: nat := 0;
    if parent.Some? {
      var p := parent.value;
      var kp: nat :| ReachesRootIn(nodes, p, kp);
      AncestorsIsChain(nodes, p, kp);
      WalkAvoiding(nodes, after, self, p, kp);
      fuel := kp + 1;
    }
    assert ReachesRootIn(after, self, fuel);
    forall x | x in after
      ensures exists k :: ReachesRootIn(after, x, k)
    {
      var k: nat :| ReachesRootIn(nodes, x, k);
      WalkThrough(nodes, after, self, fuel, x, k);
    }
  }

  /**
    `set_parent(self)` is not refused (a node is not among its own
    ancestors), and it leaves `self` as its own parent, so the walk to the
    root from `self` never ends.
  */
  lemma SetParentToSelf(nodes: map<Id, Node>, self: Id)
    requires Closed(nodes) && Acyclic(nodes) && Consistent(nodes) && self in nodes
    ensures SetParentOf(nodes, self, Some(self)).1 == Success(self)
    ensures SetParentOf(nodes, self, Some(self)).0[self].parent == Some(self)
    ensures forall k :: !ReachesRootIn(SetParentOf(nodes, self, Some(self)).0, self, k)
  {
    AncestorsWalk(nodes, self);
    var after := SetParentOf(nodes, self, Some(self)).0;
    forall k: nat
      ensures !ReachesRootIn(after, self, k)
    {
      SelfLoopNeverEnds(after, self, k);
    }
  }

  lemma {:induction false} SelfLoopNeverEnds(nodes: map<Id, Node>, self: Id, k: nat)
    requires self in nodes && nodes[self].parent == Some(self)
    ensures !ReachesRootIn(nodes, self, k)
    decreases k
  {
    if k > 0 {
      SelfLoopNeverEnds(nodes, self, k - 1);
    }
  }

  /**
    In a consistent arena `set_parent` cannot raise a ValueError; when it
    succeeds the arena stays consistent, and when it raises an
    AttributeError `self` still names its old parent, which no longer lists
    it.
  */
  lemma SetParentConsistency(nodes: map<Id, Node>, self: Id, parent: Option<Id>)
    requires Closed(nodes) && Acyclic(nodes) && Consistent(nodes) && self in nodes && (parent.Some? ==> parent.value in nodes)
    ensures SetParentOf(nodes, self, parent).1 != Failure(ValueError)
    ensures SetParentOf(nodes, self, parent).1.Success? ==> Consistent(SetParentOf(nodes, self, parent).0)
    ensures var (after, r) := SetParentOf(nodes, self, parent); var op := nodes[self].parent;
      r == Failure(AttributeError) && op.Some? ==> after[self].parent == op && self !in after[op.value].children
  {
    var op := nodes[self].parent;
    var (after, r) := SetParentOf(nodes, self, parent);
    SetParentOfCases(nodes, self, parent);
    if op.Some? {
      assert self in nodes[op.value].children;
    }
    var d := if op.Some? then Detach(nodes, op.value, self) else nodes;
    if parent.Some? && self in Ancestors(nodes, parent.value) {
      if op.Some? {
        DetachKeepsLinked(nodes, op.value, self);
      }
    } else {
      MoveKeepsConsistent(nodes, self, parent);
    }
  }

  /** Detaching `self` from the parent that lists it and adopting it under a new one keeps the arena consistent. */
  lemma MoveKeepsConsistent(nodes: map<Id, Node>, self: Id, parent: Option<Id>)
    requires Closed(nodes) && Consistent(nodes) && self in nodes && (parent.Some? ==> parent.value in nodes)
    ensures var op := nodes[self].parent; var d := if op.Some? then Detach(nodes, op.value, self) else nodes;
      Consistent(Adopt(d, self, parent))
  {
    var op := nodes[self].parent;
    var d := if op.Some? then Detach(nodes, op.value, self) else nodes;
    if op.Some? {
      DetachKeepsLinked(nodes, op.value, self);
    } else {
      forall q | q in nodes
        ensures self !in nodes[q].children
      {
        assert ListsOwnChildren(nodes, q);
      }
    }
    AdoptKeepsLinked(d, self, parent);
    DetachedStillList(nodes, self);
    StaysListed(nodes, d, self, parent);
  }

  /** Taking `self` out of its parent's list leaves every other node listed by its parent. */
  lemma DetachedStillList(nodes: map<Id, Node>, self: Id)
    requires Consistent(nodes) && self in nodes
    ensures var op := nodes[self].parent; var d := if op.Some? then Detach(nodes, op.value, self) else nodes;
      forall c :: c in nodes && c != self && nodes[c].parent.Some? ==> c in d[nodes[c].parent.value].children
  {
    var op := nodes[self].parent;
    var d := if op.Some? then Detach(nodes, op.value, self) else nodes;
    forall c | c in nodes && c != self && nodes[c].parent.Some?
      ensures c in d[nodes[c].parent.value].children
    {
      var q := nodes[c].parent.value;
      assert ListsOwnChildren(nodes, q);
      if Some(q) == op {
        RemovedDistinct(nodes[q].children, self);
      }
    }
  }

  /** After the move, every node other than `self` is still listed by its parent, and `self` by the new one. */
  lemma StaysListed(nodes: map<Id, Node>, d: map<Id, Node>, self: Id, parent: Option<Id>)
    requires Consistent(nodes) && self in nodes && d.Keys == nodes.Keys && (parent.Some? ==> parent.value in d)
    requires forall c :: c in d && c != self ==> d[c].parent == nodes[c].parent
    requires forall c :: c in nodes && c != self && nodes[c].parent.Some? ==> c in d[nodes[c].parent.value].children
    ensures var after := Adopt(d, self, parent);
      forall c :: c in after && after[c].parent.Some? ==>
        after[c].parent.value in after && c in after[after[c].parent.value].children
  {
    var attached := if parent.Some? then Attach(d, parent.value, self) else d;
    var after := Adopt(d, self, parent);
    forall c | c in after && after[c].parent.Some?
      ensures after[c].parent.value in after && c in after[after[c].parent.value].children
    {
      if c != self {
        var q := nodes[c].parent.value;
        assert c in d[q].children;
        assert forall x :: x in d[q].children ==> x in attached[q].children;
      }
    }
  }

  // ================================================================ save

  /** A child is one step further from the root than its parent, and still nearer than the number of nodes. */
  lemma ChildrenDeeper(nodes: map<Id, Node>, n: Id)
    requires Closed(nodes) && Acyclic(nodes) && Linked(nodes) && n in nodes
    ensures forall c :: c in nodes[n].children ==>
      c in nodes && |Ancestors(nodes, c)| == |Ancestors(nodes, n)| + 1 && |Ancestors(nodes, c)| < |nodes|
  {
    assert ListsOwnChildren(nodes, n);
    forall c | c in nodes[n].children
      ensures c in nodes && |Ancestors(nodes, c)| == |Ancestors(nodes, n)| + 1 && |Ancestors(nodes, c)| < |nodes|
    {
      AncestorsStep(nodes, c);
      AncestorsBound(nodes, c);
    }
  }

  /**
    The dict `save()` returns, given the saved children: a copy of `data`
    whose keys keep their order, with `children_dicts` and `class_name` set.
  */
  function Stamped(data: seq<(Value, Value)>, saved: seq<Value>, className: string): (r: seq<(Value, Value)>)
    ensures DictGet(r, Str("class_name")) == Some(Str(className))
    ensures DictGet(r, Str("children_dicts")) == Some(List(saved))
    ensures forall k :: k != Str("class_name") && k != Str("children_dicts") ==> DictGet(r, k) == DictGet(data, k)
    ensures |Keys(r)| >= |Keys(data)| && Keys(r)[..|Keys(data)|] == Keys(data)
  {
    var withChildren := DictSet(data, Str("children_dicts"), List(saved));
    KeysPrefix(data, withChildren, Str("children_dicts"), List(saved));
    KeysPrefix(withChildren, DictSet(withChildren, Str("class_name"), Str(className)), Str("class_name"), Str(className));
    PrefixTrans(Keys(data), Keys(withChildren), Keys(DictSet(withChildren, Str("class_name"), Str(className))));
    DictSet(withChildren, Str("class_name"), Str(className))
  }

  /** `d[k] = v` keeps the keys `d` had, first and in order. */
  lemma KeysPrefix(data: seq<(Value, Value)>, r: seq<(Value, Value)>, k: Value, v: Value)
    requires r == DictSet(data, k, v)
    ensures |Keys(r)| >= |Keys(data)| && Keys(r)[..|Keys(data)|] == Keys(data)
  {
  }

  lemma PrefixTrans(a: seq<Value>, b: seq<Value>, c: seq<Value>)
    requires |b| >= |a| && b[..|a|] == a && |c| >= |b| && c[..|b|] == b
    ensures |c| >= |a| && c[..|a|] == a
  {
    assert c[..|a|] == c[..|b|][..|a|];
  }

  /** `save()`: the node's dict, with every child saved the same way, in order. */
  function Save(nodes: map<Id, Node>, n: Id): Value
    requires Closed(nodes) && Acyclic(nodes) && Linked(nodes) && n in nodes
    decreases |nodes| - |Ancestors(nodes, n)|, 1
  {
    Dict(Stamped(nodes[n].data, SavedChildren(nodes, n), nodes[n].className))
  }

  /** `[child.save() for child in self.children]`. */
  function SavedChildren(nodes: map<Id, Node>, n: Id): seq<Value>
    requires Closed(nodes) && Acyclic(nodes) && Linked(nodes) && n in nodes
    decreases |nodes| - |Ancestors(nodes, n)|, 0
  {
    ChildrenDeeper(nodes, n);
    var children := nodes[n].children;
    assert forall i :: 0 <= i < |children| ==> children[i] in children;
    assert forall i :: 0 <= i < |children| ==>
      children[i] in nodes && |Ancestors(nodes, n)| < |Ancestors(nodes, children[i])| < |nodes|;
    seq(|children|, i requires 0 <= i < |children| => Save(nodes, children[i]))
  }

  /**
    The saved dict keeps `data`'s keys first and in order and every other
    key's value, holds the class name, and holds the saves of the children
    (one per child, in order: `SavedChildrenContents`).
  */
  lemma SaveContents(nodes: map<Id, Node>, n: Id)
    requires Closed(nodes) && Acyclic(nodes) && Linked(nodes) && n in nodes
    ensures Save(nodes, n).Dict?
    ensures var d := Save(nodes, n).entries; var data := nodes[n].data;
      && DictGet(d, Str("class_name")) == Some(Str(nodes[n].className))
      && DictGet(d, Str("children_dicts")) == Some(List(SavedChildren(nodes, n)))
      && (forall k :: k != Str("class_name") && k != Str("children_dicts") ==> DictGet(d, k) == DictGet(data, k))
      && |Keys(d)| >= |Keys(data)|
      && Keys(d)[..|Keys(data)|] == Keys(data)
  {
    SaveIs(nodes, n);
  }

  lemma SaveIs(nodes: map<Id, Node>, n: Id)
    requires Closed(nodes) && Acyclic(nodes) && Linked(nodes) && n in nodes
    ensures Save(nodes, n) == Dict(Stamped(nodes[n].data, SavedChildren(nodes, n), nodes[n].className))
  {
  }

  /** One save per child, in order. */
  lemma SavedChildrenContents(nodes: map<Id, Node>, n: Id)
    requires Closed(nodes) && Acyclic(nodes) && Linked(nodes) && n in nodes
    ensures |SavedChildren(nodes, n)| == |nodes[n].children|
    ensures forall i :: 0 <= i < |nodes[n].children| ==>
      nodes[n].children[i] in nodes && SavedChildren(nodes, n)[i] == Save(nodes, nodes[n].children[i])
  {
    var children := nodes[n].children;
    ChildrenDeeper(nodes, n);
    forall i | 0 <= i < |children|
      ensures children[i] in nodes
    {
      assert children[i] in children;
    }
  }

  // ================================================================ attributes

  /** Attributes that name the node's own structure, which `__setattr__` is not used for here. */
  const Structural: set<string> := {"children", "data", "data_keys", "_parent"}

  /**
    `data` after `__setattr__(key, value)`: the value is stored under `key`
    when `key` is one of `data_keys`, and every other entry is kept.
  */
  function Mirrored(node: Node, key: string, value: Value): (r: seq<(Value, Value)>)
    ensures key in node.dataKeys ==> DictGet(r, Str(key)) == Some(value)
    ensures key !in node.dataKeys ==> r == node.data
    ensures forall k :: k != Str(key) ==> DictGet(r, k) == DictGet(node.data, k)
  {
    if key in node.dataKeys then DictSet(node.data, Str(key), value) else node.data
  }

  /**
    The node after `__setattr__(key, value)`: the attribute is set, and
    mirrored into `data` when `key` is one of `data_keys`; nothing else
    changes.
  */
  function WithAttr(node: Node, key: string, value: Value): (r: Node)
    ensures r.attrs == node.attrs[key := value]
    ensures key in node.dataKeys ==> DictGet(r.data, Str(key)) == Some(value)
    ensures key !in node.dataKeys ==> r.data == node.data
    ensures forall k :: k != Str(key) ==> DictGet(r.data, k) == DictGet(node.data, k)
    ensures r.(data := node.data, attrs := node.attrs) == node
  {
    node.(data := Mirrored(node, key, value), attrs := node.attrs[key := value])
  }

  /**
    The node after `self.data_keys = keys`, which also goes through
    `__setattr__`: mirrored into `data` only when `data_keys` itself is one
    of the current data keys.
  */
  function WithDataKeys(node: Node, keys: seq<string>): (r: Node)
    ensures r.dataKeys == keys
    ensures "data_keys" in node.dataKeys ==>
      (exists v :: DictGet(r.data, Str("data_keys")) == Some(v) && v.List? && |v.items| == |keys|
         && forall i :: 0 <= i < |keys| ==> v.items[i] == Str(keys[i]))
    ensures "data_keys" !in node.dataKeys ==> r.data == node.data
    ensures forall k :: k != Str("data_keys") ==> DictGet(r.data, k) == DictGet(node.data, k)
    ensures r.(data := node.data, dataKeys := node.dataKeys) == node
  {
    node.(data := Mirrored(node, "data_keys", KeysValue(keys)), dataKeys := keys)
  }

  /** A list of names as the Python list of strings `data_keys` holds. */
  function KeysValue(keys: seq<string>): (r: Value)
    ensures r.List? && |r.items| == |keys| && forall i :: 0 <= i < |keys| ==> r.items[i] == Str(keys[i])
  {
    List(seq(|keys|, i requires 0 <= i < |keys| => Str(keys[i])))
  }

  // ================================================================ the nodes

  /** Every `TreeDiagram` object, by identity. */
  class Forest {
    var nodes: map<Id, Node>
    var nextId: Id

    ghost predicate Valid()
      reads this
    {
      Closed(nodes) && Acyclic(nodes) && Linked(nodes) && forall n :: n in nodes ==> n < nextId
    }

    constructor ()
      ensures Valid() && nodes == map[]
    {
      nodes := map[];
      nextId := 0;
    }

    /** `all_parents()`: follows `_parent` until a node has none, collecting each one. */
    method AllParents(n: Id) returns (parents: seq<Id>)
      requires n in nodes && Acyclic(nodes)
      ensures parents == Ancestors(nodes, n)
    {
      ghost var k: nat :| ReachesRootIn(nodes, n, k);
      ghost var fuel := k;
      parents := [];
      var part := n;
      while nodes[part].parent.Some?
        invariant ReachesRootIn(nodes, part, fuel)
        invariant parents + Chain(nodes, part, fuel) == Chain(nodes, n, k)
        decreases fuel
      {
        part := nodes[part].parent.value;
        parents := parents + [part];
        fuel := fuel - 1;
      }
      AncestorsIsChain(nodes, n, k);
    }

    /**
      `get_parent(index)`: `_parent` for index 0, otherwise entry `index` of
      `all_parents()`, negative indices counting from the root end.
    */
    method GetParent(n: Id, index: int) returns (r: Result<Option<Id>>)
      requires n in nodes && Acyclic(nodes)
      ensures index == 0 ==> r == Success(nodes[n].parent)
      ensures index == 0 && nodes[n].parent.Some? ==> r == Success(Some(Ancestors(nodes, n)[0]))
      ensures index != 0 ==>
        var a := Ancestors(nodes, n);
        r == if -|a| <= index < |a| then Success(Some(a[if index < 0 then index + |a| else index])) else Failure(IndexError)
    {
      if index == 0 {
        AncestorsWalk(nodes, n);
        return Success(nodes[n].parent);
      }
      var parents := AllParents(n);
      if -|parents| <= index < |parents| {
        r := Success(Some(parents[if index < 0 then index + |parents| else index]));
      } else {
        r := Failure(IndexError);
      }
    }

    /** `set_parent(parent)`, as `SetParentOf` describes it. */
    method SetParent(self: Id, parent: Option<Id>) returns (r: Result<Id>)
      requires Valid() && self in nodes && (parent.Some? ==> parent.value in nodes)
      modifies this
      ensures nodes == SetParentOf(old(nodes), self, parent).0 && r == SetParentOf(old(nodes), self, parent).1
      ensures nextId == old(nextId)
      ensures parent != Some(self) ==> Valid()
    {
      ghost var before := nodes;
      SetParentOfCases(before, self, parent);
      SetParentKeepsLinked(before, self, parent);
      var oldParent := nodes[self].parent;
      if oldParent.Some? {
        var op := oldParent.value;
        if self !in nodes[op].children {
          return Failure(ValueError);
        }
        nodes := Detach(nodes, op, self);
      }
      if parent.Some? {
        SameParentsWalk(before, nodes);
        var ancestors := AllParents(parent.value);
        if self in ancestors {
          return Failure(AttributeError);
        }
      }
      nodes := Adopt(nodes, self, parent);
      r := Success(self);
      if parent != Some(self) {
        SetParentKeepsAcyclic(before, self, parent);
      }
    }

    /** `remove()`: `set_parent(None)`; it returns nothing, but an error it meets propagates. */
    method Remove(self: Id) returns (e: Option<Error>)
      requires Valid() && self in nodes
      modifies this
      ensures nodes == SetParentOf(old(nodes), self, None).0
      ensures e == if SetParentOf(old(nodes), self, None).1.Failure? then Some(SetParentOf(old(nodes), self, None).1.error) else None
      ensures Valid()
    {
      var r := SetParent(self, None);
      e := if r.Failure? then Some(r.error) else None;
    }

    /**
      `TreeDiagram(parent)`: a new node with no children and empty `data`
      and `data_keys`, then `set_parent(parent)`, which cannot fail for a
      node nothing descends from.
    */
    method NewNode(parent: Option<Id>, className: string) returns (self: Id)
      requires Valid() && (parent.Some? ==> parent.value in nodes)
      modifies this
      ensures Valid()
      ensures self !in old(nodes) && nodes.Keys == old(nodes).Keys + {self}
      ensures nodes[self] == Node(parent, [], [], [], map[], className)
      ensures parent.Some? ==> nodes[parent.value].children == old(nodes)[parent.value].children + [self]
      ensures forall m :: m in old(nodes) && Some(m) != parent ==> nodes[m] == old(nodes)[m]
    {
      ghost var before := nodes;
      self := nextId;
      assert self !in before && parent != Some(self);
      nextId := nextId + 1;
      nodes := nodes[self := Node(None, [], [], [], map[], className)];
      assert forall n :: n in nodes ==> n < nextId;
      AdoptFresh(before, nodes, self, parent, className);
      var r := SetParent(self, parent);
    }

    /** `__setattr__(key, value)` for an attribute other than the node's own structure. */
    method SetAttr(self: Id, key: string, value: Value)
      requires Valid() && self in nodes && key !in Structural
      modifies this
      ensures nodes == old(nodes)[self := WithAttr(old(nodes)[self], key, value)]
      ensures nextId == old(nextId)
      ensures Valid()
    {
      var node := nodes[self];
      var data := node.data;
      if key in node.dataKeys {
        data := DictSet(data, Str(key), value);
      }
      assert data == Mirrored(node, key, value);
      Store(self, node.(data := data, attrs := node.attrs[key := value]));
    }

    /** `self.data_keys = keys`: the keys whose later assignments are mirrored into `data`. */
    method SetDataKeys(self: Id, keys: seq<string>)
      requires Valid() && self in nodes
      modifies this
      ensures nodes == old(nodes)[self := WithDataKeys(old(nodes)[self], keys)]
      ensures nextId == old(nextId)
      ensures Valid()
    {
      var node := nodes[self];
      var data := node.data;
      if "data_keys" in node.dataKeys {
        data := DictSet(data, Str("data_keys"), KeysValue(keys));
      }
      assert data == Mirrored(node, "data_keys", KeysValue(keys));
      Store(self, node.(data := data, dataKeys := keys));
    }

    /** Writes the new state of one node whose `_parent` and `children` stay as they were. */
    method Store(self: Id, node: Node)
      requires Valid() && self in nodes
      requires node.parent == nodes[self].parent && node.children == nodes[self].children
      modifies this
      ensures nodes == old(nodes)[self := node]
      ensures nextId == old(nextId)
      ensures Valid()
    {
      ReplaceNode(nodes, self, node);
      nodes := nodes[self := node];
    }
  }

  /** Changing what nodes hold, but not their parents or children, keeps the arena well formed. */
  lemma ShapeKept(before: map<Id, Node>, after: map<Id, Node>)
    requires Closed(before) && Acyclic(before) && Linked(before)
    requires after.Keys == before.Keys
    requires forall n :: n in before ==> after[n].parent == before[n].parent && after[n].children == before[n].children
    ensures Closed(after) && Acyclic(after) && Linked(after)
  {
    SameParentsAcyclic(before, after);
    forall p | p in after
      ensures ListsOwnChildren(after, p)
    {
      assert ListsOwnChildren(before, p);
    }
  }

  /** Replacing one node by a node with the same parent and children keeps the arena well formed. */
  lemma ReplaceNode(before: map<Id, Node>, self: Id, node: Node)
    requires Closed(before) && Acyclic(before) && Linked(before) && self in before
    requires node.parent == before[self].parent && node.children == before[self].children
    ensures before[self := node].Keys == before.Keys
    ensures Closed(before[self := node]) && Acyclic(before[self := node]) && Linked(before[self := node])
  {
    ShapeKept(before, before[self := node]);
  }

  /** Adding a fresh node without parent or children keeps the arena well formed, and makes the check in `set_parent` pass for it. */
  lemma NewNodeValid(before: map<Id, Node>, after: map<Id, Node>, self: Id)
    requires Closed(before) && Acyclic(before) && Linked(before) && self !in before
    requires self in after && after == before[self := after[self]] && after[self].parent.None? && after[self].children == []
    ensures Closed(after) && Acyclic(after) && Linked(after)
    ensures forall p :: p in before ==> self !in Ancestors(after, p)
  {
    forall x | x in after
      ensures exists k :: ReachesRootIn(after, x, k)
    {
      if x != self {
        var k: nat :| ReachesRootIn(before, x, k);
        ParentsAgree(before, after, x, k);
      } else {
        assert ReachesRootIn(after, self, 0);
      }
    }
    forall p | p in after
      ensures ListsOwnChildren(after, p)
    {
      if p != self {
        assert ListsOwnChildren(before, p);
      }
    }
    forall p | p in before
      ensures self !in Ancestors(after, p)
    {
      var k: nat :| ReachesRootIn(before, p, k);
      ParentsAgree(before, after, p, k);
      ChainInNodes(before, p, k);
      AncestorsIsChain(after, p, k);
    }
  }

  /** `set_parent` on a fresh node, which has no parent and nothing descends from, appends it to the new parent. */
  lemma AdoptFresh(before: map<Id, Node>, mid: map<Id, Node>, self: Id, parent: Option<Id>, className: string)
    requires Closed(before) && Acyclic(before) && Linked(before) && self !in before
    requires mid == before[self := Node(None, [], [], [], map[], className)]
    requires parent.Some? ==> parent.value in before
    ensures Closed(mid) && Acyclic(mid) && Linked(mid) && self in mid && (parent.Some? ==> parent.value in mid)
    ensures SetParentOf(mid, self, parent).1 == Success(self)
    ensures var after := SetParentOf(mid, self, parent).0;
      && after.Keys == before.Keys + {self}
      && after[self] == Node(parent, [], [], [], map[], className)
      && (parent.Some? ==> after[parent.value].children == before[parent.value].children + [self])
      && (forall m :: m in before && Some(m) != parent ==> after[m] == before[m])
  {
    NewNodeValid(before, mid, self);
    SetParentOfCases(mid, self, parent);
    assert SetParentOf(mid, self, parent) == (Adopt(mid, self, parent), Success(self));
    AdoptFreshNode(before, self, parent, className);
  }

  lemma AdoptFreshNode(before: map<Id, Node>, self: Id, parent: Option<Id>, className: string)
    requires self !in before && (parent.Some? ==> parent.value in before)
    ensures var after := Adopt(before[self := Node(None, [], [], [], map[], className)], self, parent);
      && after.Keys == before.Keys + {self}
      && after[self] == Node(parent, [], [], [], map[], className)
      && (parent.Some? ==> after[parent.value].children == before[parent.value].children + [self])
      && (forall m :: m in before && Some(m) != parent ==> after[m] == before[m])
  {
    var mid := before[self := Node(None, [], [], [], map[], className)];
    var after := Adopt(mid, self, parent);
    assert after[self].(parent := None, children := []) == mid[self];
    forall m | m in before && Some(m) != parent
      ensures after[m] == before[m]
    {
      assert after[m].(parent := mid[m].parent, children := mid[m].children) == mid[m];
    }
  }

  /**
    `remove()` makes the node a root and drops it from its old parent's
    children; every other node, including the node's own children, is left
    as it was.
  */
  lemma RemoveDetaches(nodes: map<Id, Node>, self: Id)
    requires Closed(nodes) && Acyclic(nodes) && Consistent(nodes) && self in nodes
    ensures var (after, r) := SetParentOf(nodes, self, None); var op := nodes[self].parent;
      && r == Success(self)
      && after[self] == nodes[self].(parent := None, data := Mirrored(nodes[self], "_parent", PyNone))
      && Acyclic(after) && Ancestors(after, self) == []
      && (op.Some? ==> self !in after[op.value].children)
      && (forall m :: m in nodes && m != self && Some(m) != op ==> after[m] == nodes[m])
  {
    SetParentConsistency(nodes, self, None);
    SetParentMoves(nodes, self, None);
    SetParentKeepsAcyclic(nodes, self, None);
    var after := SetParentOf(nodes, self, None).0;
    AncestorsWalk(after, self);
  }
}
