/** Classes come into the heap when they are loaded, and get their links and static fields when they are resolved. */
module HeapClasses {
  import opened Options
  import opened Reachability
  import opened HeapModel

  ghost predicate IsClassOrNull(objects: Objects, c: Addr)
  {
    c == NULL || IsClass(objects, c)
  }

  /** What the C++ representation of class c may contain when it is loaded or resolved. */
  ghost predicate FileOk(objects: Objects, ctx: Context, c: Addr, file: ClassFile)
  {
    && (file.superClass != NULL ==>
          && IsClass(objects, file.superClass) && !File(objects, file.superClass).isArray
          && ctx.rank(file.superClass) < ctx.rank(c))
    && (forall i :: i in file.interfaces ==> IsClassOrNull(objects, i))
    && (file.isArray ==> IsClass(objects, file.arrayElement))
    && (forall i :: 0 <= i < |file.statics| ==> file.statics[i] == NULL)
    && (file.resolved ==> forall i: nat :: DeclaresSlot(file, true, i) ==> i < |file.statics|)
  }

  /** java.lang.Class is an ordinary class, and no class but an array class extends c already. */
  ghost predicate MayChange(objects: Objects, ctx: Context, c: Addr)
    requires Shaped(objects, ctx)
  {
    && c != NULL && c != ctx.javaLangClass && !File(objects, ctx.javaLangClass).isArray
    && forall d :: IsClass(objects, d) && File(objects, d).superClass == c ==> File(objects, d).isArray
  }

  // ---- the two operations ----

  ghost predicate DataOk(objects: Objects, ctx: Context, data: seq<Addr>)
    requires Shaped(objects, ctx)
  {
    forall i: nat :: IsInstanceSlot(objects, ctx.rank, ctx.javaLangClass, i) ==>
      i < |data| && IsClassOrNull(objects, data[i])
  }

  /** allocate_class and the parser, or make_builtin_class: only an array class has a superclass from the start. */
  ghost predicate CanLoadClass(s: HeapState, ctx: Context, c: Addr, file: ClassFile, data: seq<Addr>)
    requires Shaped(s.objects, ctx)
  {
    && c !in s.objects && IsPotentialPointer(c) && MayChange(s.objects, ctx, c)
    && FileOk(s.objects, ctx, c, file) && DataOk(s.objects, ctx, data)
    && !file.resolved && (file.superClass != NULL ==> file.isArray)
  }

  function ClassObject(ctx: Context, file: ClassFile, data: seq<Addr>, serial: nat): Object
  {
    Object(ctx.javaLangClass, data, Some(file), serial)
  }

  function LoadedClass(s: HeapState, ctx: Context, c: Addr, file: ClassFile, data: seq<Addr>): HeapState
  {
    s.(objects := s.objects[c := ClassObject(ctx, file, data, s.nextSerial)],
       gcBit := s.gcBit[c := false],
       classes := s.classes + [c],
       nextSerial := s.nextSerial + 1)
  }

  /** resolve_class: superclass, interfaces, field slots and zeroed static fields. */
  ghost predicate CanResolveClass(s: HeapState, ctx: Context, c: Addr, file: ClassFile)
    requires Shaped(s.objects, ctx)
  {
    && IsClass(s.objects, c) && MayChange(s.objects, ctx, c) && FileOk(s.objects, ctx, c, file)
    && !File(s.objects, c).resolved && file.resolved && SameKind(File(s.objects, c), file)
  }

  predicate SameKind(file: ClassFile, file': ClassFile)
  {
    file.isArray == file'.isArray && file.isPrimitive == file'.isPrimitive && file.arrayElement == file'.arrayElement
  }

  function ResolvedClass(s: HeapState, c: Addr, file: ClassFile): HeapState
    requires c in s.objects
  {
    s.(objects := s.objects[c := s.objects[c].(file := Some(file))])
  }

  // ---- one new or changed class ----

  /** The object of class c is `o` now; `o` is new, or has a new file of the same kind. */
  ghost predicate Defines(objects: Objects, ctx: Context, c: Addr, o: Object)
    requires Shaped(objects, ctx)
  {
    && MayChange(objects, ctx, c) && o.clazz == ctx.javaLangClass
    && o.file.Some? && FileOk(objects, ctx, c, o.file.value)
    && if c in objects then
         IsClass(objects, c) && !File(objects, c).resolved && SameKind(File(objects, c), o.file.value)
         && o.data == objects[c].data
       else DataOk(objects, ctx, o.data)
  }

  lemma DefineKeepsHierarchy(objects: Objects, ctx: Context, c: Addr, o: Object)
    requires Shaped(objects, ctx) && Defines(objects, ctx, c, o)
    ensures HierarchyOk(objects[c := o], ctx.rank)
  {
    var objects' := objects[c := o];
    forall d | IsClass(objects', d) && File(objects', d).superClass != NULL
      ensures var super := File(objects', d).superClass;
              IsClass(objects', super) && !File(objects', super).isArray && ctx.rank(super) < ctx.rank(d)
    {
      if d != c {
        assert File(objects, d).superClass == File(objects', d).superClass;
      }
    }
  }

  /** The slots that a class other than c and array classes declares or inherits are not those of c. */
  lemma {:induction false} InstanceSlotKept(objects: Objects, ctx: Context, c: Addr, o: Object, d: Addr, i: nat)
    requires Shaped(objects, ctx) && Defines(objects, ctx, c, o) && HierarchyOk(objects[c := o], ctx.rank)
    requires d == NULL || (d != c && IsClass(objects, d) && !File(objects, d).isArray)
    ensures IsInstanceSlot(objects[c := o], ctx.rank, d, i) == IsInstanceSlot(objects, ctx.rank, d, i)
    decreases if d == NULL then 0 else ctx.rank(d) + 1
  {
    if d != NULL {
      InstanceSlotKept(objects, ctx, c, o, File(objects, d).superClass, i);
    }
  }

  lemma DefineKeepsTyped(objects: Objects, ctx: Context, c: Addr, o: Object)
    requires Shaped(objects, ctx) && Defines(objects, ctx, c, o)
    ensures Typed(objects[c := o], ctx)
  {
    DefineKeepsHierarchy(objects, ctx, c, o);
  }

  lemma RefSlotKept(objects: Objects, ctx: Context, c: Addr, o: Object, a: Addr, i: nat)
    requires Shaped(objects, ctx) && Defines(objects, ctx, c, o) && Typed(objects[c := o], ctx) && a in objects
    ensures IsRefSlot(objects[c := o], ctx, a, i) == IsRefSlot(objects, ctx, a, i)
  {
    var clazz := objects[a].clazz;
    if !File(objects, clazz).isArray {
      InstanceSlotKept(objects, ctx, c, o, clazz, i);
    }
  }

  lemma DefineKeepsShape(objects: Objects, ctx: Context, c: Addr, o: Object)
    requires Shaped(objects, ctx) && Defines(objects, ctx, c, o)
    ensures Shaped(objects[c := o], ctx)
  {
    var objects' := objects[c := o];
    DefineKeepsTyped(objects, ctx, c, o);
    forall a, i: nat | a in objects' && IsRefSlot(objects', ctx, a, i) ensures i < |objects'[a].data| {
      if a in objects {
        RefSlotKept(objects, ctx, c, o, a, i);
      } else {
        InstanceSlotKept(objects, ctx, c, o, ctx.javaLangClass, i);
      }
    }
    forall d, i: nat | IsClass(objects', d) && File(objects', d).resolved && DeclaresSlot(File(objects', d), true, i)
      ensures i < |File(objects', d).statics|
    {
      if d != c {
        assert DeclaresSlot(File(objects, d), true, i);
      }
    }
  }

  /** The edges of all other objects are the same. */
  lemma OtherEdgesKept(objects: Objects, ctx: Context, c: Addr, o: Object, a: Addr, b: Addr)
    requires Shaped(objects, ctx) && Defines(objects, ctx, c, o) && Shaped(objects[c := o], ctx)
    requires a in objects && a != c
    ensures RefersTo(objects[c := o], ctx, a, b) == RefersTo(objects, ctx, a, b)
  {
    forall i: nat ensures IsRefSlot(objects[c := o], ctx, a, i) == IsRefSlot(objects, ctx, a, i) {
      RefSlotKept(objects, ctx, c, o, a, i);
    }
  }

  /** Those of the class itself are the old ones or lead to classes. */
  lemma DefinedTargets(objects: Objects, ctx: Context, c: Addr, o: Object, b: Addr)
    requires Shaped(objects, ctx) && Defines(objects, ctx, c, o) && Shaped(objects[c := o], ctx)
    requires RefersTo(objects[c := o], ctx, c, b)
    ensures IsClass(objects, b) || (c in objects && RefersTo(objects, ctx, c, b))
  {
    var objects' := objects[c := o];
    if b != o.clazz && DataRefersTo(objects', ctx, c, b) {
      var i: nat :| IsRefSlot(objects', ctx, c, i) && o.data[i] == b;
      if c in objects {
        RefSlotKept(objects, ctx, c, o, c, i);
        assert DataRefersTo(objects, ctx, c, b);
      } else {
        InstanceSlotKept(objects, ctx, c, o, ctx.javaLangClass, i);
      }
    }
  }

  lemma DefineIsSound(h: SoundHeap, c: Addr, o: Object)
    requires Defines(h.objects, h.ctx, c, o)
    ensures Sound(Shape(h.objects[c := o], h.ctx))
  {
    var objects' := h.objects[c := o];
    DefineKeepsShape(h.objects, h.ctx, c, o);
    forall a, b | a in objects' && RefersTo(objects', h.ctx, a, b) ensures b in objects' {
      if a != c {
        OtherEdgesKept(h.objects, h.ctx, c, o, a, b);
        assert b in Edges(h)[a];
      } else {
        DefinedTargets(h.objects, h.ctx, c, o, b);
        if c in h.objects && RefersTo(h.objects, h.ctx, c, b) {
          assert b in Edges(h)[c];
        }
      }
    }
  }

  /** A closed set that holds the classes stays closed. */
  lemma ClosedAfterDefine(h: SoundHeap, c: Addr, o: Object, known: set<Addr>)
    requires Defines(h.objects, h.ctx, c, o) && Shaped(h.objects[c := o], h.ctx)
    requires Closed(Edges(h), known) && forall d :: IsClass(h.objects, d) ==> d in known
    ensures Closed(EdgeGraph(h.objects[c := o], h.ctx), known + {c})
  {
    var objects' := h.objects[c := o];
    forall a, b | a in known + {c} && a in objects' && RefersTo(objects', h.ctx, a, b) ensures b in known + {c} {
      if a != c {
        OtherEdgesKept(h.objects, h.ctx, c, o, a, b);
        assert b in Edges(h)[a];
      } else {
        DefinedTargets(h.objects, h.ctx, c, o, b);
        if c in h.objects && RefersTo(h.objects, h.ctx, c, b) {
          assert b in Edges(h)[c];
        }
      }
    }
  }

  // ---- the heap invariant ----

  lemma LoadDefines(s: HeapState, ctx: Context, c: Addr, file: ClassFile, data: seq<Addr>)
    requires WellFormed(s, ctx) && CanLoadClass(s, ctx, c, file, data)
    ensures Defines(s.objects, ctx, c, ClassObject(ctx, file, data, s.nextSerial))
  {
  }

  lemma ResolveDefines(s: HeapState, ctx: Context, c: Addr, file: ClassFile)
    requires WellFormed(s, ctx) && CanResolveClass(s, ctx, c, file)
    ensures Defines(s.objects, ctx, c, s.objects[c].(file := Some(file)))
  {
  }

  lemma LoadedClassIsSafe(s: HeapState, ctx: Context, c: Addr, file: ClassFile, data: seq<Addr>)
    requires WellFormed(s, ctx) && CanLoadClass(s, ctx, c, file, data)
    ensures WellFormed(LoadedClass(s, ctx, c, file, data), ctx)
  {
    LoadDefines(s, ctx, c, file, data);
    DefineIsSound(Shape(s.objects, ctx), c, ClassObject(ctx, file, data, s.nextSerial));
    LoadIsRegistered(s, ctx, c, file, data);
  }

  lemma LoadIsRegistered(s: HeapState, ctx: Context, c: Addr, file: ClassFile, data: seq<Addr>)
    requires Registered(s) && c !in s.objects && IsPotentialPointer(c)
    ensures Registered(LoadedClass(s, ctx, c, file, data))
  {
    var s' := LoadedClass(s, ctx, c, file, data);
    forall a ensures a in s'.classes <==> IsClass(s'.objects, a) {
    }
  }

  lemma ResolvedClassIsSafe(s: HeapState, ctx: Context, c: Addr, file: ClassFile)
    requires WellFormed(s, ctx) && CanResolveClass(s, ctx, c, file)
    ensures WellFormed(ResolvedClass(s, c, file), ctx)
  {
    ResolveDefines(s, ctx, c, file);
    DefineIsSound(Shape(s.objects, ctx), c, s.objects[c].(file := Some(file)));
    ResolveIsRegistered(s, c, file);
  }

  lemma ResolveIsRegistered(s: HeapState, c: Addr, file: ClassFile)
    requires Registered(s) && IsClass(s.objects, c)
    ensures Registered(ResolvedClass(s, c, file))
  {
    var s' := ResolvedClass(s, c, file);
    assert forall a :: IsClass(s'.objects, a) == IsClass(s.objects, a);
  }
}
