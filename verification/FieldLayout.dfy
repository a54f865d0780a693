/** Class resolution: the slot numbers of instance and static fields. */
module FieldLayout {
  import opened Options

  type Id = nat

  /** `wide` is the category that resolution computes from the descriptor. */
  datatype Field = Field(isStatic: bool, descriptor: string, index: nat, wide: bool)

  /** A CONSTANT_Class_info; those of array classes are linked from the start. */
  datatype ClassInfo = ClassInfo(id: Id, linked: bool)

  /** The parts of a ClassFile that resolution reads and writes. `super` is None before resolution. */
  datatype File = File(
    superRef: Option<ClassInfo>,
    super: Option<Id>,
    interfaces: seq<ClassInfo>,
    fields: seq<Field>,
    declared: nat,
    total: nat,
    statics: nat,
    resolved: bool)

  type Files = map<Id, File>

  type Ranks = Id -> nat

  // ---- the layout ----

  /** How many of these fields are static, or are not. */
  function Count(fields: seq<Field>, isStatic: bool): nat
  {
    if fields == [] then 0
    else Count(fields[..|fields| - 1], isStatic) + if fields[|fields| - 1].isStatic == isStatic then 1 else 0
  }

  function Numbered(fields: seq<Field>, parent: nat, k: nat): Field
    requires k < |fields|
  {
    var f := fields[k];
    f.(index := Count(fields[..k], f.isStatic) + if f.isStatic then 0 else parent,
       wide := f.descriptor == "D" || f.descriptor == "J")
  }

  function NumberedFields(fields: seq<Field>, parent: nat): seq<Field>
  {
    seq(|fields|, k requires 0 <= k < |fields| => Numbered(fields, parent, k))
  }

  /** The superclass whose slots a class inherits, if there is one to resolve. */
  function Parent(files: Files, rank: Ranks, c: Id): Option<Id>
    requires c in files
  {
    var f := files[c];
    if f.super.None? && f.superRef.Some? && f.superRef.value.id in files && rank(f.superRef.value.id) < rank(c)
    then Some(f.superRef.value.id) else None
  }

  /** The number of instance fields of a class and of all classes that it extends. */
  function Total(files: Files, rank: Ranks, c: Id): nat
    requires c in files
    decreases rank(c)
  {
    Count(files[c].fields, false) + ParentTotal(files, rank, c)
  }

  function ParentTotal(files: Files, rank: Ranks, c: Id): nat
    requires c in files
    decreases rank(c), 0
  {
    match Parent(files, rank, c)
    case None => 0
    case Some(s) => Total(files, rank, s)
  }

  /** What resolution makes of a class, whatever was resolved before. */
  function Laid(files: Files, rank: Ranks, c: Id): File
    requires c in files
  {
    var f := files[c];
    File(f.superRef,
         if f.super.None? && f.superRef.Some? then Some(f.superRef.value.id) else f.super,
         f.interfaces,
         NumberedFields(f.fields, ParentTotal(files, rank, c)),
         Count(f.fields, false),
         Total(files, rank, c),
         Count(f.fields, true),
         true)
  }

  // ---- distinct slots without gaps ----

  /** The positions of the static fields, or of the others, in order. */
  function Positions(fields: seq<Field>, isStatic: bool): (ps: seq<nat>)
    ensures |ps| == Count(fields, isStatic)
  {
    if fields == [] then []
    else
      Positions(fields[..|fields| - 1], isStatic)
      + if fields[|fields| - 1].isStatic == isStatic then [|fields| - 1] else []
  }

  /** Counting the fields before it and looking up a position are inverse. */
  lemma {:induction false} PositionOf(fields: seq<Field>, isStatic: bool, k: nat)
    requires k < |fields| && fields[k].isStatic == isStatic
    ensures Count(fields[..k], isStatic) < Count(fields, isStatic)
    ensures Positions(fields, isStatic)[Count(fields[..k], isStatic)] == k
    decreases |fields|
  {
    var front := fields[..|fields| - 1];
    if k < |front| {
      PositionOf(front, isStatic, k);
      assert front[..k] == fields[..k];
    }
  }

  lemma {:induction false} FieldAtPosition(fields: seq<Field>, isStatic: bool, n: nat)
    requires n < Count(fields, isStatic)
    ensures var k := Positions(fields, isStatic)[n];
            k < |fields| && fields[k].isStatic == isStatic && Count(fields[..k], isStatic) == n
    decreases |fields|
  {
    var front := fields[..|fields| - 1];
    if n < Count(front, isStatic) {
      FieldAtPosition(front, isStatic, n);
      var k := Positions(front, isStatic)[n];
      assert front[..k] == fields[..k];
    }
  }

  /** A field of a class. */
  datatype Owner = Owner(clazz: Id, field: nat)

  /** c or a class that c extends. */
  ghost predicate Extends(files: Files, rank: Ranks, c: Id, d: Id)
    requires c in files
    decreases rank(c)
  {
    d == c || match Parent(files, rank, c) { case None => false case Some(s) => Extends(files, rank, s, d) }
  }

  /** An instance field that objects of class c have. */
  ghost predicate HasField(files: Files, rank: Ranks, c: Id, o: Owner)
    requires c in files
  {
    && o.clazz in files && Extends(files, rank, c, o.clazz)
    && o.field < |files[o.clazz].fields| && !files[o.clazz].fields[o.field].isStatic
  }

  function SlotOf(files: Files, rank: Ranks, o: Owner): nat
    requires o.clazz in files && o.field < |files[o.clazz].fields|
  {
    Laid(files, rank, o.clazz).fields[o.field].index
  }

  /** The field that has slot n in objects of class c. */
  function OwnerOf(files: Files, rank: Ranks, c: Id, n: nat): Owner
    requires c in files && n < Total(files, rank, c)
    decreases rank(c)
  {
    var parent := ParentTotal(files, rank, c);
    if n < parent then OwnerOf(files, rank, Parent(files, rank, c).value, n)
    else Owner(c, Positions(files[c].fields, false)[n - parent])
  }

  /** Every slot below the total belongs to a field. */
  lemma {:induction false} SlotsAreCovered(files: Files, rank: Ranks, c: Id, n: nat)
    requires c in files && n < Total(files, rank, c)
    ensures HasField(files, rank, c, OwnerOf(files, rank, c, n))
    ensures SlotOf(files, rank, OwnerOf(files, rank, c, n)) == n
    decreases rank(c)
  {
    var parent := ParentTotal(files, rank, c);
    if n < parent {
      SlotsAreCovered(files, rank, Parent(files, rank, c).value, n);
    } else {
      FieldAtPosition(files[c].fields, false, n - parent);
    }
  }

  /** Every field has a slot below the total, and no other field has the same one. */
  lemma {:induction false} FieldsHaveSlots(files: Files, rank: Ranks, c: Id, o: Owner)
    requires c in files && HasField(files, rank, c, o)
    ensures SlotOf(files, rank, o) < Total(files, rank, c)
    ensures OwnerOf(files, rank, c, SlotOf(files, rank, o)) == o
    decreases rank(c)
  {
    if o.clazz == c {
      PositionOf(files[c].fields, false, o.field);
    } else {
      FieldsHaveSlots(files, rank, Parent(files, rank, c).value, o);
    }
  }

  /** So in objects of one class no two fields alias. */
  lemma FieldsNeverAlias(files: Files, rank: Ranks, c: Id, o: Owner, o': Owner)
    requires c in files && HasField(files, rank, c, o) && HasField(files, rank, c, o')
    ensures SlotOf(files, rank, o) == SlotOf(files, rank, o') ==> o == o'
  {
    FieldsHaveSlots(files, rank, c, o);
    FieldsHaveSlots(files, rank, c, o');
  }

  /** The slots of a superclass stay the same in every subclass, so its code works on objects of all of them. */
  lemma {:induction false} ParentSlotsAreKept(files: Files, rank: Ranks, c: Id, d: Id, n: nat)
    requires c in files && d in files && Extends(files, rank, c, d) && n < Total(files, rank, d)
    ensures Total(files, rank, d) <= Total(files, rank, c)
    ensures OwnerOf(files, rank, c, n) == OwnerOf(files, rank, d, n)
    decreases rank(c)
  {
    if d != c {
      ParentSlotsAreKept(files, rank, Parent(files, rank, c).value, d, n);
    }
  }

  /** The static fields of a class have exactly the slots 0 to n - 1. */
  lemma StaticSlotsAreDistinct(files: Files, rank: Ranks, c: Id, k: nat)
    requires c in files && k < |files[c].fields| && files[c].fields[k].isStatic
    ensures var f := Laid(files, rank, c);
            && f.fields[k].index < f.statics
            && Positions(files[c].fields, true)[f.fields[k].index] == k
  {
    PositionOf(files[c].fields, true, k);
  }

  lemma StaticSlotsAreCovered(files: Files, rank: Ranks, c: Id, n: nat)
    requires c in files && n < Laid(files, rank, c).statics
    ensures var k := Positions(files[c].fields, true)[n];
            k < |files[c].fields| && files[c].fields[k].isStatic && Laid(files, rank, c).fields[k].index == n
  {
    FieldAtPosition(files[c].fields, true, n);
  }

  lemma {:induction false} CountsAddUp(fields: seq<Field>)
    ensures Count(fields, true) + Count(fields, false) == |fields|
  {
    if fields != [] {
      CountsAddUp(fields[..|fields| - 1]);
    }
  }

  // ---- the layout in terms of the class files ----

  function Indices(fields: seq<Field>, isStatic: bool, n: nat): set<int>
    requires n <= |fields|
  {
    set k | 0 <= k < n && fields[k].isStatic == isStatic
  }

  lemma {:induction false} CountIsSize(fields: seq<Field>, isStatic: bool, n: nat)
    requires n <= |fields|
    ensures Count(fields[..n], isStatic) == |Indices(fields, isStatic, n)|
    decreases n
  {
    if n > 0 {
      CountIsSize(fields, isStatic, n - 1);
      assert fields[..n][..n - 1] == fields[..n - 1] && fields[..n][n - 1] == fields[n - 1];
      IndicesNext(fields, isStatic, n);
    }
  }

  lemma IndicesNext(fields: seq<Field>, isStatic: bool, n: nat)
    requires 0 < n <= |fields|
    ensures |Indices(fields, isStatic, n)| ==
      |Indices(fields, isStatic, n - 1)| + if fields[n - 1].isStatic == isStatic then 1 else 0
  {
    assert Indices(fields, isStatic, n) ==
      Indices(fields, isStatic, n - 1) + if fields[n - 1].isStatic == isStatic then {n - 1} else {};
  }

  /** The first slot for a field that the class declares: the superclass has those before it. */
  function FirstSlot(files: Files, rank: Ranks, c: Id): nat
    requires c in files
  {
    var f := files[c];
    if f.super.None? && f.superRef.Some? && f.superRef.value.id in files
    then Laid(files, rank, f.superRef.value.id).total else 0
  }

  /** Instance fields follow those of the superclass, static fields begin at 0, both in the order of the class file. */
  lemma SlotIs(files: Files, rank: Ranks, c: Id, k: nat)
    requires Acyclic(files, rank) && c in files && k < |files[c].fields|
    ensures var f, l := files[c].fields[k], Laid(files, rank, c);
            && |l.fields| == |files[c].fields|
            && l.fields[k].isStatic == f.isStatic && l.fields[k].descriptor == f.descriptor
            && (l.fields[k].wide <==> f.descriptor == "D" || f.descriptor == "J")
            && l.fields[k].index == |Indices(files[c].fields, f.isStatic, k)|
                                    + if f.isStatic then 0 else FirstSlot(files, rank, c)
  {
    assert RefersDown(files[c], rank, c);
    CountIsSize(files[c].fields, files[c].fields[k].isStatic, k);
  }

  lemma SizesAre(files: Files, rank: Ranks, c: Id)
    requires Acyclic(files, rank) && c in files
    ensures var fields, l := files[c].fields, Laid(files, rank, c);
            && l.total == FirstSlot(files, rank, c) + |Indices(fields, false, |fields|)|
            && l.statics == |Indices(fields, true, |fields|)|
            && l.declared == |Indices(fields, false, |fields|)|
            && l.resolved && l.superRef == files[c].superRef && l.interfaces == files[c].interfaces
            && (files[c].super.None? && files[c].superRef.Some? ==> l.super == Some(files[c].superRef.value.id))
  {
    assert RefersDown(files[c], rank, c);
    CountIsSize(files[c].fields, true, |files[c].fields|);
    CountIsSize(files[c].fields, false, |files[c].fields|);
    assert files[c].fields[..|files[c].fields|] == files[c].fields;
  }

  /** Classes, each but the first the one that the class file before it names as its superclass. */
  ghost predicate IsChain(files: Files, chain: seq<Id>)
  {
    && 0 < |chain| && (forall k :: 0 <= k < |chain| ==> chain[k] in files)
    && forall k :: 0 <= k < |chain| - 1 ==> Names(files[chain[k]], chain[k + 1])
  }

  predicate Names(f: File, s: Id)
  {
    f.super.None? && f.superRef.Some? && f.superRef.value.id == s
  }

  lemma {:induction false} ChainExtends(files: Files, rank: Ranks, chain: seq<Id>, k: nat)
    requires Acyclic(files, rank) && IsChain(files, chain) && k < |chain|
    ensures Extends(files, rank, chain[0], chain[k])
    decreases k
  {
    if k > 0 {
      assert RefersDown(files[chain[0]], rank, chain[0]);
      var rest := chain[1..];
      assert forall j :: 0 <= j < |rest| ==> rest[j] == chain[j + 1];
      forall j | 0 <= j < |rest| - 1 ensures Names(files[rest[j]], rest[j + 1]) {
        assert Names(files[chain[j + 1]], chain[j + 2]);
      }
      ChainExtends(files, rank, rest, k - 1);
    }
  }

  /** Instance field number j of a class has a slot in objects of each subclass, and shares it with no other field. */
  lemma ChainsNeverAlias(files: Files, rank: Ranks, chain: seq<Id>, k: nat, j: nat, k': nat, j': nat)
    requires Acyclic(files, rank) && IsChain(files, chain) && k < |chain| && k' < |chain|
    requires j < |files[chain[k]].fields| && !files[chain[k]].fields[j].isStatic
    requires j' < |files[chain[k']].fields| && !files[chain[k']].fields[j'].isStatic
    ensures var slot := Laid(files, rank, chain[k]).fields[j].index;
            && slot < Laid(files, rank, chain[0]).total
            && (slot == Laid(files, rank, chain[k']).fields[j'].index ==> chain[k] == chain[k'] && j == j')
  {
    ChainExtends(files, rank, chain, k);
    ChainExtends(files, rank, chain, k');
    FieldsHaveSlots(files, rank, chain[0], Owner(chain[k], j));
    FieldsNeverAlias(files, rank, chain[0], Owner(chain[k], j), Owner(chain[k'], j'));
  }

  // ---- resolution ----

  /** As the parser and make_builtin_class leave a class; an array class has no fields. */
  predicate IsFresh(f: File)
  {
    !f.resolved && f.declared == 0 && (f.super.Some? ==> f.fields == [])
  }

  /** Superclass and interfaces have a smaller rank. */
  ghost predicate Acyclic(files: Files, rank: Ranks)
  {
    forall c :: c in files ==> RefersDown(files[c], rank, c)
  }

  ghost predicate RefersDown(f: File, rank: Ranks, c: Id)
  {
    && (f.superRef.Some? ==> rank(f.superRef.value.id) < rank(c))
    && (f.super.None? && f.superRef.Some? ==> !f.superRef.value.linked)
    && forall i :: 0 <= i < |f.interfaces| ==> rank(f.interfaces[i].id) < rank(c)
  }

  ghost predicate FindsAll(files: Files, c: Id)
    requires c in files
  {
    var f := files[c];
    && (f.superRef.Some? ==> f.superRef.value.id in files)
    && forall i :: 0 <= i < |f.interfaces| ==> f.interfaces[i].id in files
  }

  /** A resolved class has a resolved superclass and resolved interfaces; array classes are linked from the start. */
  ghost predicate RefsResolved(base: Files, files: Files, c: Id)
    requires c in base
  {
    SuperIsResolved(base, files, c) && FirstAreResolved(files, base[c].interfaces, |base[c].interfaces|)
  }

  ghost predicate SuperIsResolved(base: Files, files: Files, c: Id)
    requires c in base
  {
    var f := base[c];
    f.super.None? && f.superRef.Some? ==> IsResolved(files, f.superRef.value)
  }

  ghost predicate FirstAreResolved(files: Files, infos: seq<ClassInfo>, n: nat)
    requires n <= |infos|
  {
    forall i :: 0 <= i < n ==> IsResolved(files, infos[i])
  }

  ghost predicate IsResolved(files: Files, info: ClassInfo)
  {
    info.linked || (info.id in files && files[info.id].resolved)
  }

  ghost predicate AllRefsResolved(base: Files, files: Files)
  {
    forall c :: c in base && c in files && files[c].resolved ==> RefsResolved(base, files, c)
  }

  lemma RefsOfResolved(base: Files, files: Files, c: Id, info: ClassInfo)
    requires AllRefsResolved(base, files) && c in base && c in files && files[c].resolved && !info.linked
    requires info in base[c].interfaces || (base[c].super == None && base[c].superRef == Some(info))
    ensures info.id in files && files[info.id].resolved
  {
    assert RefsResolved(base, files, c);
  }

  /** Marking a class as resolved is right once all that it refers to is resolved. */
  lemma MarkKeepsRefs(base: Files, files: Files, c: Id)
    requires AllRefsResolved(base, files) && c in base && c in files && RefsResolved(base, files, c)
    ensures AllRefsResolved(base, files[c := files[c].(resolved := true)])
  {
    var files' := files[c := files[c].(resolved := true)];
    forall d | d in base && d in files' && files'[d].resolved ensures RefsResolved(base, files', d) {
      assert RefsResolved(base, files, d);
    }
  }

  /** Everything but the mark may change. */
  lemma ChangeKeepsRefs(base: Files, files: Files, c: Id, f: File)
    requires AllRefsResolved(base, files) && c in files && f.resolved == files[c].resolved
    ensures AllRefsResolved(base, files[c := f])
    ensures forall info {:trigger IsResolved(files, info)} ::
      IsResolved(files, info) ==> IsResolved(files[c := f], info)
  {
    var files' := files[c := f];
    forall d | d in base && d in files' && files'[d].resolved ensures RefsResolved(base, files', d) {
      assert RefsResolved(base, files, d);
    }
  }

  /** Classes that get their layout stay resolved. */
  lemma LayoutKeepsMarks(base: Files, rank: Ranks, before: Files, files: Files)
    requires before.Keys == files.Keys == base.Keys
    requires forall d :: d in files ==> files[d] == before[d] || files[d] == Laid(base, rank, d)
    ensures forall info {:trigger IsResolved(before, info)} :: IsResolved(before, info) ==> IsResolved(files, info)
  {
  }

  lemma NextIsResolved(base: Files, rank: Ranks, before: Files, files: Files, infos: seq<ClassInfo>, n: nat)
    requires before.Keys == files.Keys == base.Keys && n < |infos|
    requires forall d :: d in files ==> files[d] == before[d] || files[d] == Laid(base, rank, d)
    requires FirstAreResolved(before, infos, n) && IsResolved(files, infos[n])
    ensures FirstAreResolved(files, infos, n + 1)
  {
    LayoutKeepsMarks(base, rank, before, files);
  }

  /** FindsAll asks for nothing but the classes that the class file names. */
  lemma FindsAllIff(files: Files, c: Id)
    requires c in files
    ensures FindsAll(files, c) <==>
      && (files[c].superRef.Some? ==> files[c].superRef.value.id in files)
      && forall info :: info in files[c].interfaces ==> info.id in files
  {
  }

  method Number(fields: seq<Field>, parent: nat) returns (done: seq<Field>)
    ensures done == NumberedFields(fields, parent)
  {
    var staticIndex, instanceIndex := 0, parent;
    done := [];
    for i := 0 to |fields|
      invariant |done| == i && forall k :: 0 <= k < i ==> done[k] == Numbered(fields, parent, k)
      invariant staticIndex == Count(fields[..i], true) && instanceIndex == parent + Count(fields[..i], false)
    {
      assert fields[..i + 1][..i] == fields[..i];
      var f := fields[i];
      if f.isStatic {
        f := f.(index := staticIndex);
        staticIndex := staticIndex + 1;
      } else {
        f := f.(index := instanceIndex);
        instanceIndex := instanceIndex + 1;
      }
      done := done + [f.(wide := f.descriptor == "D" || f.descriptor == "J")];
    }
  }

  class Resolver {
    ghost const base: Files
    ghost const rank: Ranks
    var files: Files

    constructor (files: Files, ghost rank: Ranks)
      requires Acyclic(files, rank) && forall c :: c in files ==> IsFresh(files[c])
      ensures this.files == files && base == files && this.rank == rank && Valid() && AllSettled()
      ensures AllRefsResolved(base, this.files)
    {
      this.files, base, this.rank := files, files, rank;
    }

    ghost predicate Valid()
      reads this
    {
      && files.Keys == base.Keys && Acyclic(base, rank)
      && forall c :: c in base ==> IsFresh(base[c])
    }

    /** Each class is untouched or has its final layout. */
    ghost predicate Settled(c: Id)
      reads this
      requires Valid() && c in files
    {
      files[c] == base[c] || files[c] == Laid(base, rank, c)
    }

    ghost predicate AllSettled()
      reads this
      requires Valid()
    {
      forall d :: d in files ==> Settled(d)
    }

    ghost predicate SettledBelow(n: int)
      reads this
      requires Valid()
    {
      forall d :: d in files && rank(d) < n ==> Settled(d)
    }

    /** Below rank n some classes got their final layout; no class but perhaps `except` changed otherwise. */
    twostate predicate Progress(n: int, except: Option<Id>)
      reads this
      requires old(Valid()) && Valid()
    {
      forall d :: d in files && except != Some(d) ==>
        files[d] == old(files[d]) || (rank(d) < n && files[d] == Laid(base, rank, d))
    }

    /** An exception included: only classes below rank n changed, and no class is marked resolved without its layout. */
    twostate predicate NoFalseLayout(n: int, except: Option<Id>)
      reads this
      requires old(Valid()) && Valid()
    {
      forall d :: d in files && except != Some(d) ==>
        files[d] == old(files[d]) || (rank(d) < n && (files[d] == Laid(base, rank, d) || !files[d].resolved))
    }

    /** Every class that one of rank below n refers to can be found. */
    ghost predicate Complete(n: int)
      reads this
      requires Valid()
    {
      forall d :: d in base && rank(d) < n ==> FindsAll(base, d)
    }

    /** resolve_class(ClassFile *); false stands for the exception when a class is not found. */
    method ResolveClass(c: Id) returns (ok: bool)
      requires Valid() && c in files && SettledBelow(rank(c) + 1) && AllRefsResolved(base, files)
      modifies this
      ensures Valid() && AllRefsResolved(base, files)
      ensures ok ==> files[c] == Laid(base, rank, c) && SettledBelow(rank(c) + 1) && Progress(rank(c) + 1, None)
      ensures old(files[c].resolved) ==> ok && files == old(files)
      ensures Complete(rank(c) + 1) ==> ok
      ensures NoFalseLayout(rank(c) + 1, None)
      decreases rank(c), 3
    {
      assert IsFresh(base[c]);
      if files[c].resolved {
        return true;
      }
      ok := ResolveFresh(c);
      if ok {
        MarkKeepsRefs(base, files, c);
        files := files[c := files[c].(resolved := true)];
      }
    }

    method ResolveFresh(c: Id) returns (ok: bool)
      requires Valid() && c in files && files[c] == base[c] && SettledBelow(rank(c))
      requires AllRefsResolved(base, files)
      modifies this
      ensures Valid() && !files[c].resolved && AllRefsResolved(base, files)
      ensures ok ==> RefsResolved(base, files, c)
      ensures ok ==> files[c] == Laid(base, rank, c).(resolved := false)
      ensures ok ==> SettledBelow(rank(c)) && Progress(rank(c), Some(c))
      ensures Complete(rank(c) + 1) ==> ok
      ensures NoFalseLayout(rank(c), Some(c))
      decreases rank(c), 2
    {
      assert IsFresh(base[c]);
      ChangeKeepsRefs(base, files, c, base[c].(declared := Count(base[c].fields, false)));
      CountDeclared(c);
      var parent: nat;
      ok, parent := LinkSuper(c);
      if ok {
        ok := LayOut(c, parent);
      }
    }

    /** The slots, then the interfaces. */
    method LayOut(c: Id, parent: nat) returns (ok: bool)
      requires Valid() && c in files && parent == ParentTotal(base, rank, c) && SettledBelow(rank(c))
      requires files[c] == base[c].(declared := Count(base[c].fields, false), super := Laid(base, rank, c).super)
      requires AllRefsResolved(base, files) && SuperIsResolved(base, files, c)
      modifies this
      ensures Valid() && AllRefsResolved(base, files)
      ensures ok ==> RefsResolved(base, files, c)
      ensures files[c] == Laid(base, rank, c).(resolved := false)
      ensures ok ==> SettledBelow(rank(c)) && Progress(rank(c), Some(c))
      ensures Complete(rank(c) + 1) ==> ok
      ensures NoFalseLayout(rank(c), Some(c))
      decreases rank(c), 1
    {
      assert IsFresh(base[c]);
      ChangeKeepsRefs(base, files, c, Laid(base, rank, c).(resolved := false));
      NumberFields(c, parent);
      ghost var before := files;
      ok := LinkInterfaces(c);
      if ok {
        LayoutKeepsMarks(base, rank, before, files);
      }
    }

    method CountDeclared(c: Id)
      requires Valid() && c in files && files[c] == base[c]
      modifies this
      ensures Valid() && files == old(files)[c := base[c].(declared := Count(base[c].fields, false))]
    {
      var fields := files[c].fields;
      for i := 0 to |fields|
        invariant Valid() && files == old(files)[c := base[c].(declared := Count(fields[..i], false))]
      {
        assert fields[..i + 1][..i] == fields[..i];
        if !fields[i].isStatic {
          files := files[c := files[c].(declared := files[c].declared + 1)];
        }
      }
      assert fields[..|fields|] == fields;
    }

    /** resolve_class(CONSTANT_Class_info *) */
    method ResolveInfo(info: ClassInfo) returns (ok: bool)
      requires Valid() && SettledBelow(rank(info.id) + 1) && AllRefsResolved(base, files)
      modifies this
      ensures Valid() && AllRefsResolved(base, files)
      ensures ok ==> IsResolved(files, info)
      ensures ok ==> SettledBelow(rank(info.id) + 1) && Progress(rank(info.id) + 1, None)
      ensures ok && !info.linked ==> info.id in files && files[info.id] == Laid(base, rank, info.id)
      ensures info.linked || (info.id in base && Complete(rank(info.id) + 1)) ==> ok
      ensures NoFalseLayout(rank(info.id) + 1, None)
      decreases rank(info.id), 4
    {
      if info.linked {
        return true;
      }
      if info.id !in files {
        return false;
      }
      ok := ResolveClass(info.id);
    }

    /** The superclass first: its size is where the slots of c begin. */
    method ResolveSuper(c: Id) returns (ok: bool, parent: nat)
      requires Valid() && c in files && SettledBelow(rank(c))
      requires files[c] == base[c].(declared := Count(base[c].fields, false)) && AllRefsResolved(base, files)
      modifies this
      ensures Valid() && AllRefsResolved(base, files)
      ensures ok ==> SuperIsResolved(base, files, c)
      ensures ok ==> SettledBelow(rank(c)) && Progress(rank(c), None)
      ensures ok ==> parent == ParentTotal(base, rank, c)
      ensures files[c] == old(files[c])
      ensures Complete(rank(c) + 1) ==> ok
      ensures NoFalseLayout(rank(c), None)
      decreases rank(c), 0
    {
      assert RefersDown(base[c], rank, c);
      ok, parent := true, 0;
      if files[c].super.None? && files[c].superRef.Some? {
        var info := files[c].superRef.value;
        assert Complete(rank(c) + 1) ==> FindsAll(base, c);
        ok := ResolveInfo(info);
        if ok {
          parent := files[info.id].total;
        }
      }
    }

    method LinkSuper(c: Id) returns (ok: bool, parent: nat)
      requires Valid() && c in files && SettledBelow(rank(c))
      requires files[c] == base[c].(declared := Count(base[c].fields, false)) && AllRefsResolved(base, files)
      modifies this
      ensures Valid() && AllRefsResolved(base, files)
      ensures ok ==> SuperIsResolved(base, files, c)
      ensures ok ==> SettledBelow(rank(c)) && Progress(rank(c), Some(c))
      ensures ok ==> files[c] == old(files[c]).(super := Laid(base, rank, c).super)
      ensures ok ==> parent == ParentTotal(base, rank, c)
      ensures files[c] == old(files[c]) || ok
      ensures Complete(rank(c) + 1) ==> ok
      ensures NoFalseLayout(rank(c), Some(c))
      decreases rank(c), 1
    {
      ok, parent := ResolveSuper(c);
      if ok && files[c].super.None? && files[c].superRef.Some? {
        var f := files[c].(super := Some(files[c].superRef.value.id));
        ChangeKeepsRefs(base, files, c, f);
        files := files[c := f];
      }
    }

    method NumberFields(c: Id, parent: nat)
      requires Valid() && c in files && parent == ParentTotal(base, rank, c)
      requires files[c] == base[c].(declared := Count(base[c].fields, false), super := Laid(base, rank, c).super)
      modifies this
      ensures Valid() && files == old(files)[c := Laid(base, rank, c).(resolved := false)]
    {
      var fields := Number(files[c].fields, parent);
      CountsAddUp(base[c].fields);
      files := files[c := files[c].(fields := fields, total := files[c].declared + parent,
                                    statics := |fields| - files[c].declared)];
    }

    method LinkInterfaces(c: Id) returns (ok: bool)
      requires Valid() && c in files && SettledBelow(rank(c))
      requires files[c] == Laid(base, rank, c).(resolved := false) && AllRefsResolved(base, files)
      modifies this
      ensures Valid() && AllRefsResolved(base, files)
      ensures ok ==> FirstAreResolved(files, base[c].interfaces, |base[c].interfaces|)
      ensures files[c] == old(files[c])
      ensures ok ==> SettledBelow(rank(c)) && Progress(rank(c), Some(c))
      ensures Complete(rank(c) + 1) ==> ok
      ensures NoFalseLayout(rank(c), Some(c))
      decreases rank(c), 0
    {
      assert RefersDown(base[c], rank, c);
      assert Complete(rank(c) + 1) ==> FindsAll(base, c);
      var interfaces := files[c].interfaces;
      for i := 0 to |interfaces|
        invariant Valid() && SettledBelow(rank(c)) && Progress(rank(c), None) && AllRefsResolved(base, files)
        invariant FirstAreResolved(files, interfaces, i)
      {
        ghost var before := files;
        ok := ResolveInfo(interfaces[i]);
        if !ok {
          return;
        }
        NextIsResolved(base, rank, before, files, interfaces, i);
      }
      ok := true;
    }

    method Request(c: Id) returns (ok: bool)
      requires Valid() && AllSettled() && AllRefsResolved(base, files) && c in files
      modifies this
      ensures Valid() && AllRefsResolved(base, files)
      ensures ok ==> AllSettled() && files[c] == Laid(base, rank, c)
      ensures ok ==> forall d :: d in files && old(files[d]) == Laid(base, rank, d) ==> files[d] == old(files[d])
      ensures forall d :: d in files && files[d].resolved ==> files[d] == Laid(base, rank, d)
      ensures (forall d :: d in base ==> FindsAll(base, d)) ==> ok
    {
      ok := ResolveClass(c);
    }

    /**
     Any requests in any order: what a class gets does not depend on it. A request fails only if a class cannot be
     found, and even then no class is marked as resolved without its layout.
     */
    method ResolveAll(requests: seq<Id>) returns (ok: bool)
      requires Valid() && AllSettled() && AllRefsResolved(base, files) && forall c :: c in requests ==> c in files
      modifies this
      ensures Valid() && AllRefsResolved(base, files)
      ensures ok ==> AllSettled() && forall c :: c in requests ==> files[c] == Laid(base, rank, c)
      ensures forall d :: d in files && files[d].resolved ==> files[d] == Laid(base, rank, d)
      ensures (forall d :: d in base ==> FindsAll(base, d)) ==> ok
    {
      for i := 0 to |requests|
        invariant Valid() && AllSettled() && AllRefsResolved(base, files)
        invariant forall j :: 0 <= j < i ==> files[requests[j]] == Laid(base, rank, requests[j])
      {
        ok := Request(requests[i]);
        if !ok {
          return;
        }
      }
      ok := true;
    }
  }
}
