/** Classes, interfaces and arrays, and the two subtype tests. */
module ClassGraph {
  import opened Options
  import opened Reachability

  type Id = nat

  /** The name and the descriptor that identify a method in a class. */
  type Signature = (string, string)

  datatype Access = Public | Protected | Package | Private

  datatype Method = Method(signature: Signature, access: Access, isStatic: bool, isAbstract: bool)

  /**
   The parts of a ClassFile that the class algorithms read. `element` is set iff this is an array class. Superclass,
   interfaces and element type have a smaller rank, so the graph is acyclic.
   */
  datatype Class = Class(
    rank: nat,
    isInterface: bool,
    super: Option<Id>,
    interfaces: seq<Id>,
    element: Option<Id>,
    package: string,
    methods: seq<Method>)

  datatype Hierarchy = Hierarchy(classes: map<Id, Class>, root: Id, cloneable: Id, serializable: Id)

  // ---- well-formed hierarchies ----

  ghost predicate Refers(h: Hierarchy, c: Id, d: Id)
  {
    d in h.classes && c in h.classes && h.classes[d].rank < h.classes[c].rank
  }

  ghost predicate Resolved(h: Hierarchy, c: Id)
    requires c in h.classes
  {
    var k := h.classes[c];
    && (k.super.Some? ==> Refers(h, c, k.super.value))
    && (k.element.Some? ==> Refers(h, c, k.element.value))
    && forall i {:trigger k.interfaces[i]} :: 0 <= i < |k.interfaces| ==> Refers(h, c, k.interfaces[i])
  }

  /** A class that others may extend: its super chain ends at Object, and it is neither an interface nor an array. */
  ghost predicate Extensible(h: Hierarchy, c: Id)
  {
    && c in h.classes && !h.classes[c].isInterface && h.classes[c].element.None?
    && (c == h.root || h.classes[c].super.Some?)
  }

  ghost predicate IsInterface(h: Hierarchy, c: Id)
  {
    c in h.classes && h.classes[c].isInterface
  }

  /** Only Object and the primitive classes have no superclass. */
  ghost predicate ClassOk(h: Hierarchy, c: Id)
    requires c in h.classes
  {
    var k := h.classes[c];
    && Resolved(h, c)
    && (if k.super.Some? then Extensible(h, k.super.value)
        else k.interfaces == [] && k.element.None? && !k.isInterface)
    && (forall i {:trigger k.interfaces[i]} :: 0 <= i < |k.interfaces| ==> IsInterface(h, k.interfaces[i]))
    && (k.isInterface ==> k.super == Some(h.root) && k.element.None?)
    && (k.element.Some? ==> k.super == Some(h.root) && k.interfaces == [h.cloneable, h.serializable])
  }

  ghost predicate IsMarkerInterface(h: Hierarchy, c: Id)
  {
    IsInterface(h, c) && h.classes[c].interfaces == []
  }

  ghost predicate WellFormed(h: Hierarchy)
  {
    && h.root in h.classes && h.classes[h.root].super.None?
    && IsMarkerInterface(h, h.cloneable) && IsMarkerInterface(h, h.serializable)
    && forall c {:trigger ClassOk(h, c)} :: c in h.classes ==> ClassOk(h, c)
  }

  function Minimal(): Hierarchy
  {
    var top := Class(0, false, None, [], None, "java.lang", []);
    var marker := Class(1, true, Some(0), [], None, "java.lang", []);
    Hierarchy(map[0 := top, 1 := marker, 2 := marker], 0, 1, 2)
  }

  type Types = h: Hierarchy | WellFormed(h) ghost witness Minimal()

  ghost predicate Supers(h: Types, c: Id, d: Id)
  {
    c in h.classes && (h.classes[c].super == Some(d) || d in h.classes[c].interfaces)
  }

  lemma SupersRank(h: Types, c: Id, d: Id)
    requires Supers(h, c, d)
    ensures d in h.classes && h.classes[d].rank < h.classes[c].rank
  {
    assert ClassOk(h, c);
  }

  // ---- the tests ----

  /** ClassFile::is_subclass_of */
  predicate IsSubclassOf(h: Types, c: Id, other: Id)
    requires c in h.classes && other in h.classes
    decreases h.classes[c].rank
  {
    var k := h.classes[c];
    assert ClassOk(h, c);
    || k.super == Some(other)
    || (h.classes[other].isInterface && other in k.interfaces)
    || (k.super.Some? && IsSubclassOf(h, k.super.value, other))
    || (h.classes[other].isInterface
        && exists i :: 0 <= i < |k.interfaces| && IsSubclassOf(h, k.interfaces[i], other))
  }

  /** ClassFile::is_instance_of */
  predicate IsInstanceOf(h: Types, c: Id, parent: Id)
    requires c in h.classes && parent in h.classes
    decreases h.classes[c].rank
  {
    assert ClassOk(h, c) && ClassOk(h, parent);
    if c == parent || IsSubclassOf(h, c, parent) then true
    else if h.classes[c].element.None? || h.classes[parent].element.None? then false
    else IsInstanceOf(h, h.classes[c].element.value, h.classes[parent].element.value)
  }

  // ---- is_subclass_of is the transitive closure of extends and implements ----

  ghost function SupersOf(h: Types, c: Id): iset<Id>
  {
    iset d | Supers(h, c, d)
  }

  /** An edge from each class to its superclass and to each interface it implements or extends directly. */
  ghost function SupertypeGraph(h: Types): Graph
  {
    map c | c in h.classes :: SupersOf(h, c)
  }

  /** A path of at least one edge. */
  ghost predicate IsProperSupertype(h: Types, c: Id, d: Id)
  {
    exists e :: Supers(h, c, e) && HasPath(SupertypeGraph(h), e, d)
  }

  lemma RootIsAbove(h: Types, c: Id)
    requires c in h.classes && h.classes[c].super.Some?
    ensures IsSubclassOf(h, c, h.root)
    decreases h.classes[c].rank
  {
    assert ClassOk(h, c);
    var s := h.classes[c].super.value;
    if s != h.root {
      RootIsAbove(h, s);
    }
  }

  lemma OnlyRootAboveInterface(h: Types, i: Id, d: Id)
    requires IsInterface(h, i) && d in h.classes && !h.classes[d].isInterface && IsSubclassOf(h, i, d)
    ensures d == h.root
  {
    assert ClassOk(h, i) && ClassOk(h, h.root);
  }

  /** The guards on interfaces lose nothing: a path through an interface to a class can only end at Object. */
  lemma SubclassStep(h: Types, c: Id, e: Id, d: Id)
    requires Supers(h, c, e) && d in h.classes && e in h.classes && (e == d || IsSubclassOf(h, e, d))
    ensures IsSubclassOf(h, c, d)
  {
    var k := h.classes[c];
    assert ClassOk(h, c);
    if k.super != Some(e) {
      var i :| 0 <= i < |k.interfaces| && k.interfaces[i] == e;
      if !h.classes[d].isInterface {
        OnlyRootAboveInterface(h, e, d);
        RootIsAbove(h, c);
      }
    }
  }

  lemma {:induction false} PathIsSubclass(h: Types, p: seq<Id>, c: Id, e: Id, d: Id)
    requires Supers(h, c, e) && IsPathBetween(SupertypeGraph(h), p, e, d)
    ensures d in h.classes && IsSubclassOf(h, c, d)
    decreases |p|
  {
    SupersRank(h, c, e);
    if |p| == 1 {
      SubclassStep(h, c, e, d);
    } else {
      assert IsEdge(SupertypeGraph(h), p[0], p[1]);
      assert IsPathBetween(SupertypeGraph(h), p[1..], p[1], d) by {
        forall i, j | 0 <= i && j == i + 1 < |p[1..]| ensures IsEdge(SupertypeGraph(h), p[1..][i], p[1..][j]) {
          assert IsEdge(SupertypeGraph(h), p[i + 1], p[j + 1]);
        }
      }
      PathIsSubclass(h, p[1..], e, p[1], d);
      SubclassStep(h, c, e, d);
    }
  }

  lemma AboveDirectSuper(h: Types, c: Id, e: Id, d: Id)
    requires Supers(h, c, e) && (e == d || IsProperSupertype(h, e, d))
    ensures IsProperSupertype(h, c, d)
  {
    var g := SupertypeGraph(h);
    if e == d {
      PathRefl(g, d);
    } else {
      var f :| Supers(h, e, f) && HasPath(g, f, d);
      EdgePath(g, e, f, d);
    }
  }

  lemma {:induction false} SubclassIsAbove(h: Types, c: Id, d: Id)
    requires c in h.classes && d in h.classes && IsSubclassOf(h, c, d)
    ensures IsProperSupertype(h, c, d)
    decreases h.classes[c].rank
  {
    var k := h.classes[c];
    assert ClassOk(h, c);
    if Supers(h, c, d) {
      AboveDirectSuper(h, c, d, d);
    } else if k.super.Some? && IsSubclassOf(h, k.super.value, d) {
      SubclassIsAbove(h, k.super.value, d);
      AboveDirectSuper(h, c, k.super.value, d);
    } else {
      var i :| 0 <= i < |k.interfaces| && IsSubclassOf(h, k.interfaces[i], d);
      SubclassIsAbove(h, k.interfaces[i], d);
      AboveDirectSuper(h, c, k.interfaces[i], d);
    }
  }

  /** is_subclass_of is the transitive closure of the extends and implements edges. */
  lemma SubclassIffPath(h: Types, c: Id, d: Id)
    requires c in h.classes && d in h.classes
    ensures IsSubclassOf(h, c, d) <==> IsProperSupertype(h, c, d)
  {
    if IsSubclassOf(h, c, d) {
      SubclassIsAbove(h, c, d);
    }
    if IsProperSupertype(h, c, d) {
      var e :| Supers(h, c, e) && HasPath(SupertypeGraph(h), e, d);
      var p :| IsPathBetween(SupertypeGraph(h), p, e, d);
      PathIsSubclass(h, p, c, e, d);
    }
  }

  lemma {:induction false} SubclassTransitive(h: Types, a: Id, b: Id, c: Id)
    requires a in h.classes && b in h.classes && c in h.classes && IsSubclassOf(h, a, b) && IsSubclassOf(h, b, c)
    ensures IsSubclassOf(h, a, c)
    decreases h.classes[a].rank
  {
    var k := h.classes[a];
    assert ClassOk(h, a);
    if Supers(h, a, b) {
      SubclassStep(h, a, b, c);
    } else if k.super.Some? && IsSubclassOf(h, k.super.value, b) {
      SubclassTransitive(h, k.super.value, b, c);
    } else {
      var i :| 0 <= i < |k.interfaces| && IsSubclassOf(h, k.interfaces[i], b);
      SubclassTransitive(h, k.interfaces[i], b, c);
      SubclassStep(h, a, k.interfaces[i], c);
    }
  }

  lemma {:induction false} SubclassRank(h: Types, c: Id, d: Id)
    requires c in h.classes && d in h.classes && IsSubclassOf(h, c, d)
    ensures h.classes[d].rank < h.classes[c].rank
    decreases h.classes[c].rank
  {
    var k := h.classes[c];
    assert ClassOk(h, c);
    if !Supers(h, c, d) {
      if k.super.Some? && IsSubclassOf(h, k.super.value, d) {
        SubclassRank(h, k.super.value, d);
      } else {
        var i :| 0 <= i < |k.interfaces| && IsSubclassOf(h, k.interfaces[i], d);
        SubclassRank(h, k.interfaces[i], d);
      }
    }
  }

  /** So it is a strict order; in particular no class is a subclass of itself. */
  lemma SubclassIsStrict(h: Types, c: Id, d: Id)
    requires c in h.classes && d in h.classes && IsSubclassOf(h, c, d)
    ensures !IsSubclassOf(h, d, c)
  {
    SubclassRank(h, c, d);
    if IsSubclassOf(h, d, c) {
      SubclassRank(h, d, c);
    }
  }

  // ---- is_instance_of: arrays ----

  /** Every array class is below exactly Object, Cloneable and Serializable. */
  lemma AboveArray(h: Types, a: Id, d: Id)
    requires a in h.classes && d in h.classes && h.classes[a].element.Some?
    ensures IsSubclassOf(h, a, d) <==> d in {h.root, h.cloneable, h.serializable}
  {
    assert ClassOk(h, a) && ClassOk(h, h.root) && ClassOk(h, h.cloneable) && ClassOk(h, h.serializable);
    assert h.classes[a].interfaces[0] == h.cloneable && h.classes[a].interfaces[1] == h.serializable;
    NothingAboveRoot(h, d);
    AboveMarker(h, h.cloneable, d);
    AboveMarker(h, h.serializable, d);
  }

  lemma NothingAboveRoot(h: Types, d: Id)
    requires d in h.classes
    ensures !IsSubclassOf(h, h.root, d)
  {
    assert ClassOk(h, h.root);
  }

  lemma AboveMarker(h: Types, i: Id, d: Id)
    requires IsMarkerInterface(h, i) && d in h.classes
    ensures IsSubclassOf(h, i, d) <==> d == h.root
  {
    assert ClassOk(h, i);
    NothingAboveRoot(h, d);
  }

  lemma ArrayIsNotAbove(h: Types, c: Id, a: Id)
    requires c in h.classes && a in h.classes && h.classes[a].element.Some?
    ensures !IsSubclassOf(h, c, a)
    decreases h.classes[c].rank
  {
    var k := h.classes[c];
    assert ClassOk(h, c) && ClassOk(h, a);
    if k.super.Some? {
      ArrayIsNotAbove(h, k.super.value, a);
    }
  }

  function Dimensions(h: Types, c: Id): nat
    requires c in h.classes
    decreases h.classes[c].rank
  {
    assert ClassOk(h, c);
    if h.classes[c].element.None? then 0 else 1 + Dimensions(h, h.classes[c].element.value)
  }

  function BaseType(h: Types, c: Id): (b: Id)
    requires c in h.classes
    ensures b in h.classes && h.classes[b].element.None?
    decreases h.classes[c].rank
  {
    assert ClassOk(h, c);
    if h.classes[c].element.None? then c else BaseType(h, h.classes[c].element.value)
  }

  /** The type rules of section 6.5 of JVMS SE 16 (instanceof), for arrays of any depth, in closed form. */
  ghost predicate IsAssignable(h: Types, c: Id, d: Id)
    requires c in h.classes && d in h.classes
  {
    var b, b' := BaseType(h, c), BaseType(h, d);
    if Dimensions(h, c) == Dimensions(h, d) then b == b' || IsProperSupertype(h, b, b')
    else Dimensions(h, c) > Dimensions(h, d) && b' in {h.root, h.cloneable, h.serializable}
  }

  /** Two array classes of one element type are one class. */
  ghost predicate ArraysAreUnique(h: Types)
  {
    forall a, b :: a in h.classes && b in h.classes && SameElement(h.classes[a], h.classes[b]) ==> a == b
  }

  predicate SameElement(a: Class, b: Class)
  {
    a.element.Some? && a.element == b.element
  }

  lemma {:induction false} InstanceIffAssignable(h: Types, c: Id, d: Id)
    requires c in h.classes && d in h.classes
    ensures IsInstanceOf(h, c, d) <==> IsAssignable(h, c, d)
    decreases h.classes[c].rank
  {
    assert ClassOk(h, c) && ClassOk(h, d);
    if h.classes[d].element.Some? {
      ArrayIsNotAbove(h, c, d);
      if h.classes[c].element.Some? {
        InstanceIffAssignable(h, h.classes[c].element.value, h.classes[d].element.value);
      }
    } else if h.classes[c].element.Some? {
      AboveArray(h, c, d);
    } else {
      SubclassIffPath(h, c, d);
    }
  }

  /** Arrays are covariant. */
  lemma ArraysAreCovariant(h: Types, a: Id, b: Id)
    requires a in h.classes && b in h.classes && h.classes[a].element.Some? && h.classes[b].element.Some?
    ensures ClassOk(h, a) && ClassOk(h, b)
    ensures IsInstanceOf(h, a, b) <==> IsInstanceOf(h, h.classes[a].element.value, h.classes[b].element.value)
  {
    assert ClassOk(h, a) && ClassOk(h, b);
    InstanceIffAssignable(h, a, b);
    InstanceIffAssignable(h, h.classes[a].element.value, h.classes[b].element.value);
  }

  lemma InstanceReflexive(h: Types, c: Id)
    requires c in h.classes
    ensures IsInstanceOf(h, c, c)
  {
  }

  lemma {:induction false} InstanceTransitive(h: Types, a: Id, b: Id, c: Id)
    requires a in h.classes && b in h.classes && c in h.classes && IsInstanceOf(h, a, b) && IsInstanceOf(h, b, c)
    ensures IsInstanceOf(h, a, c)
  {
    InstanceIffAssignable(h, a, b);
    InstanceIffAssignable(h, b, c);
    InstanceIffAssignable(h, a, c);
    var x, y, z := BaseType(h, a), BaseType(h, b), BaseType(h, c);
    if IsProperSupertype(h, y, z) {
      MarkersAreTop(h, y, z);
      if IsProperSupertype(h, x, y) {
        PathsCompose(h, x, y, z);
      }
    }
  }

  lemma PathsCompose(h: Types, x: Id, y: Id, z: Id)
    requires x in h.classes && y in h.classes && z in h.classes
    requires IsProperSupertype(h, x, y) && IsProperSupertype(h, y, z)
    ensures IsProperSupertype(h, x, z)
  {
    SubclassIffPath(h, x, y);
    SubclassIffPath(h, y, z);
    SubclassTransitive(h, x, y, z);
    SubclassIffPath(h, x, z);
  }

  lemma MarkersAreTop(h: Types, y: Id, z: Id)
    requires y in h.classes && z in h.classes && IsProperSupertype(h, y, z)
    ensures y in {h.root, h.cloneable, h.serializable} ==> z == h.root
  {
    SubclassIffPath(h, y, z);
    NothingAboveRoot(h, z);
    AboveMarker(h, h.cloneable, z);
    AboveMarker(h, h.serializable, z);
  }

  lemma {:induction false} SameArray(h: Types, c: Id, d: Id)
    requires c in h.classes && d in h.classes && ArraysAreUnique(h)
    requires Dimensions(h, c) == Dimensions(h, d) && BaseType(h, c) == BaseType(h, d)
    ensures c == d
    decreases h.classes[c].rank
  {
    assert ClassOk(h, c) && ClassOk(h, d);
    if h.classes[c].element.Some? {
      SameArray(h, h.classes[c].element.value, h.classes[d].element.value);
      assert SameElement(h.classes[c], h.classes[d]);
    }
  }

  /** Mutually assignable classes are the same class. */
  lemma InstanceAntisymmetric(h: Types, c: Id, d: Id)
    requires c in h.classes && d in h.classes && ArraysAreUnique(h)
    ensures IsInstanceOf(h, c, d) && IsInstanceOf(h, d, c) ==> c == d
  {
    InstanceIffAssignable(h, c, d);
    InstanceIffAssignable(h, d, c);
    if IsInstanceOf(h, c, d) && IsInstanceOf(h, d, c) {
      var b, b' := BaseType(h, c), BaseType(h, d);
      if b != b' {
        SubclassIffPath(h, b, b');
        SubclassIffPath(h, b', b);
        SubclassIsStrict(h, b, b');
      }
      SameArray(h, c, d);
    }
  }
}
