/** What the collector follows, said of the words in memory: elements, fields, statics and the parts of a class. */
module HeapEdges {
  import opened Options
  import opened Reachability
  import opened HeapModel

  // ---- fields ----

  /** Classes, each but the first the superclass of the one before it. */
  ghost predicate IsChain(objects: Objects, chain: seq<Addr>)
  {
    && (forall k :: 0 <= k < |chain| ==> chain[k] in objects && objects[chain[k]].file.Some?)
    && (forall k :: 0 < k < |chain| ==> chain[k] == objects[chain[k - 1]].file.value.superClass)
  }

  ghost predicate DeclaresField(objects: Objects, c: Addr, f: Field)
  {
    c in objects && objects[c].file.Some? && f in objects[c].file.value.fields
  }

  /** c declares or inherits a reference field of instances with this slot. */
  ghost predicate HasReferenceField(objects: Objects, c: Addr, i: nat)
  {
    exists chain: seq<Addr>, f: Field {:trigger IsChain(objects, chain), f.index} ::
      && IsChain(objects, chain) && 0 < |chain| && chain[0] == c && DeclaresField(objects, chain[|chain| - 1], f)
      && !f.isStatic && f.isReference && f.index == i
  }

  lemma {:induction false} ChainToSlot(objects: Objects, rank: Addr -> nat, chain: seq<Addr>, f: Field)
    requires HierarchyOk(objects, rank) && IsChain(objects, chain) && 0 < |chain|
    requires DeclaresField(objects, chain[|chain| - 1], f) && !f.isStatic && f.isReference
    ensures IsInstanceSlot(objects, rank, chain[0], f.index)
    decreases |chain|
  {
    if |chain| > 1 {
      var rest := chain[1..];
      assert forall k :: 0 <= k < |rest| ==> rest[k] == chain[k + 1];
      assert rest[|rest| - 1] == chain[|chain| - 1];
      ChainToSlot(objects, rank, rest, f);
      assert chain[1] == File(objects, chain[0]).superClass;
    }
  }

  lemma {:induction false} SlotToChain(objects: Objects, rank: Addr -> nat, c: Addr, i: nat)
    returns (chain: seq<Addr>, f: Field)
    requires HierarchyOk(objects, rank) && (c == NULL || IsClass(objects, c)) && IsInstanceSlot(objects, rank, c, i)
    ensures IsChain(objects, chain) && 0 < |chain| && chain[0] == c
    ensures DeclaresField(objects, chain[|chain| - 1], f) && !f.isStatic && f.isReference && f.index == i
    decreases rank(c)
  {
    if DeclaresSlot(File(objects, c), false, i) {
      chain := [c];
      f :| f in File(objects, c).fields && !f.isStatic && f.isReference && f.index == i;
    } else {
      var rest;
      rest, f := SlotToChain(objects, rank, File(objects, c).superClass, i);
      chain := [c] + rest;
      assert forall k :: 0 < k < |chain| ==> chain[k] == rest[k - 1];
      assert chain[|chain| - 1] == rest[|rest| - 1];
    }
  }

  lemma InstanceSlotIff(objects: Objects, rank: Addr -> nat, c: Addr, i: nat)
    requires HierarchyOk(objects, rank) && IsClass(objects, c)
    ensures IsInstanceSlot(objects, rank, c, i) <==> HasReferenceField(objects, c, i)
  {
    if IsInstanceSlot(objects, rank, c, i) {
      var chain, f := SlotToChain(objects, rank, c, i);
      assert f.index == i;
    }
    if HasReferenceField(objects, c, i) {
      var chain: seq<Addr>, f: Field :|
        && IsChain(objects, chain) && 0 < |chain| && chain[0] == c && DeclaresField(objects, chain[|chain| - 1], f)
        && !f.isStatic && f.isReference && f.index == i;
      ChainToSlot(objects, rank, chain, f);
    }
  }

  // ---- the edges, exactly ----

  /** b is an element of the array a, whose elements are not primitive. */
  ghost predicate IsElement(objects: Objects, a: Addr, b: Addr)
    requires a in objects
  {
    && objects[a].clazz in objects && objects[objects[a].clazz].file.Some?
    && var file := objects[objects[a].clazz].file.value;
       && file.isArray && file.arrayElement in objects && objects[file.arrayElement].file.Some?
       && !objects[file.arrayElement].file.value.isPrimitive
       && b in objects[a].data
  }

  /** b is the value of a reference field of the instance a. */
  ghost predicate IsFieldValue(objects: Objects, a: Addr, b: Addr)
    requires a in objects
  {
    && objects[a].clazz in objects && objects[objects[a].clazz].file.Some?
    && !objects[objects[a].clazz].file.value.isArray
    && exists i: nat ::
         i < |objects[a].data| && HasReferenceField(objects, objects[a].clazz, i) && objects[a].data[i] == b
  }

  /** a is a class, and b its superclass, an interface of it or, once resolved, the value of a reference static. */
  ghost predicate IsClassPart(objects: Objects, a: Addr, b: Addr)
    requires a in objects
  {
    && objects[a].file.Some?
    && var file := objects[a].file.value;
       || b == file.superClass
       || b in file.interfaces
       || (file.resolved && exists f :: f in file.fields && f.isStatic && f.isReference
                              && f.index < |file.statics| && file.statics[f.index] == b)
  }

  lemma DataEdgesAre(objects: Objects, ctx: Context, a: Addr, b: Addr)
    requires Shaped(objects, ctx) && a in objects
    ensures DataRefersTo(objects, ctx, a, b) <==> IsElement(objects, a, b) || IsFieldValue(objects, a, b)
  {
    var c := objects[a].clazz;
    forall i: nat ensures IsInstanceSlot(objects, ctx.rank, c, i) <==> HasReferenceField(objects, c, i) {
      InstanceSlotIff(objects, ctx.rank, c, i);
    }
    assert forall i: nat :: i < |objects[a].data| ==> objects[a].data[i] in objects[a].data;
  }

  lemma ClassEdgesAre(objects: Objects, a: Addr, b: Addr)
    requires IsClass(objects, a)
    ensures ClassRefersTo(File(objects, a), b) <==> IsClassPart(objects, a, b)
  {
    var file := File(objects, a);
    forall f | f in file.fields && f.isStatic && f.isReference ensures DeclaresSlot(file, true, f.index) {
    }
  }

  /** From an object the collector goes to its class, its elements or reference fields, and the parts of a class. */
  lemma EdgesAre(h: SoundHeap, a: Addr, b: Addr)
    requires a in h.objects
    ensures b in Edges(h)[a] <==>
      && b != 0
      && (|| b == h.objects[a].clazz
          || IsElement(h.objects, a, b)
          || IsFieldValue(h.objects, a, b)
          || IsClassPart(h.objects, a, b))
  {
    DataEdgesAre(h.objects, h.ctx, a, b);
    if IsClass(h.objects, a) {
      ClassEdgesAre(h.objects, a, b);
    }
  }

  /** An array of primitives keeps nothing alive but its class: its words are no references. */
  lemma PrimitiveArrayHasOneEdge(h: SoundHeap, a: Addr)
    requires a in h.objects && h.objects[a].file.None? && h.objects[a].clazz in h.objects
    requires h.objects[h.objects[a].clazz].file.Some? && h.objects[h.objects[a].clazz].file.value.isArray
    requires var e := h.objects[h.objects[a].clazz].file.value.arrayElement;
             e in h.objects && h.objects[e].file.Some? && h.objects[e].file.value.isPrimitive
    ensures Edges(h)[a] == iset{h.objects[a].clazz}
  {
    forall b ensures b in Edges(h)[a] <==> b == h.objects[a].clazz {
      EdgesAre(h, a, b);
    }
  }

  // ---- what a collection keeps ----

  /** b is null, or an object that JVM_GC leaves as it was. */
  ghost predicate Survives(s: HeapState, ctx: Context, threads: seq<Thread>, b: Addr)
    requires WellFormed(s, ctx) && ThreadsOk(s.objects, threads)
  {
    var s' := AfterGc(s, Live(s, ctx, threads));
    b == 0 || (b in s'.objects && b in s.objects && s'.objects[b] == s.objects[b])
  }

  lemma EdgeSurvives(s: HeapState, ctx: Context, threads: seq<Thread>, a: Addr, b: Addr)
    requires WellFormed(s, ctx) && ThreadsOk(s.objects, threads)
    requires a in AfterGc(s, Live(s, ctx, threads)).objects && b in Edges(Shape(s.objects, ctx))[a]
    ensures Survives(s, ctx, threads, b)
  {
    LiveIsClosed(s, ctx, threads);
  }

  /** An array of references keeps its elements. */
  lemma ElementsSurvive(s: HeapState, ctx: Context, threads: seq<Thread>, a: Addr, i: nat)
    requires WellFormed(s, ctx) && ThreadsOk(s.objects, threads)
    requires a in AfterGc(s, Live(s, ctx, threads)).objects && a in s.objects && i < |s.objects[a].data|
    requires s.objects[a].clazz in s.objects && s.objects[s.objects[a].clazz].file.Some?
    requires var file := s.objects[s.objects[a].clazz].file.value;
             && file.isArray && file.arrayElement in s.objects && s.objects[file.arrayElement].file.Some?
             && !s.objects[file.arrayElement].file.value.isPrimitive
    ensures Survives(s, ctx, threads, s.objects[a].data[i])
  {
    var b := s.objects[a].data[i];
    EdgesAre(Shape(s.objects, ctx), a, b);
    if b != 0 {
      EdgeSurvives(s, ctx, threads, a, b);
    }
  }

  /** An instance keeps what its declared and inherited reference fields hold. */
  lemma FieldsSurvive(s: HeapState, ctx: Context, threads: seq<Thread>, a: Addr, i: nat)
    requires WellFormed(s, ctx) && ThreadsOk(s.objects, threads)
    requires a in AfterGc(s, Live(s, ctx, threads)).objects && a in s.objects
    requires s.objects[a].clazz in s.objects && s.objects[s.objects[a].clazz].file.Some?
    requires !s.objects[s.objects[a].clazz].file.value.isArray
    requires HasReferenceField(s.objects, s.objects[a].clazz, i)
    ensures i < |s.objects[a].data| && Survives(s, ctx, threads, s.objects[a].data[i])
  {
    InstanceSlotIff(s.objects, ctx.rank, s.objects[a].clazz, i);
    assert IsRefSlot(s.objects, ctx, a, i);
    var b := s.objects[a].data[i];
    EdgesAre(Shape(s.objects, ctx), a, b);
    if b != 0 {
      EdgeSurvives(s, ctx, threads, a, b);
    }
  }

  lemma ClassSurvives(s: HeapState, ctx: Context, threads: seq<Thread>, c: Addr)
    requires WellFormed(s, ctx) && ThreadsOk(s.objects, threads) && c in s.objects && s.objects[c].file.Some?
    ensures c in AfterGc(s, Live(s, ctx, threads)).objects
  {
    LiveIsKeepable(s, ctx, threads);
  }

  /** Every class is kept, and keeps its superclass and its interfaces. */
  lemma SupersSurvive(s: HeapState, ctx: Context, threads: seq<Thread>, c: Addr, b: Addr)
    requires WellFormed(s, ctx) && ThreadsOk(s.objects, threads) && c in s.objects && s.objects[c].file.Some?
    requires b == s.objects[c].file.value.superClass || b in s.objects[c].file.value.interfaces
    ensures c in AfterGc(s, Live(s, ctx, threads)).objects && Survives(s, ctx, threads, b)
  {
    ClassSurvives(s, ctx, threads, c);
    EdgesAre(Shape(s.objects, ctx), c, b);
    if b != 0 {
      EdgeSurvives(s, ctx, threads, c, b);
    }
  }

  /** A resolved class keeps what its reference statics hold. */
  lemma StaticsSurvive(s: HeapState, ctx: Context, threads: seq<Thread>, c: Addr, f: Field)
    requires WellFormed(s, ctx) && ThreadsOk(s.objects, threads) && c in s.objects && s.objects[c].file.Some?
    requires s.objects[c].file.value.resolved
    requires f in s.objects[c].file.value.fields && f.isStatic && f.isReference
    ensures f.index < |s.objects[c].file.value.statics|
    ensures Survives(s, ctx, threads, s.objects[c].file.value.statics[f.index])
  {
    ClassSurvives(s, ctx, threads, c);
    assert IsClass(s.objects, c) && DeclaresSlot(File(s.objects, c), true, f.index);
    var b := s.objects[c].file.value.statics[f.index];
    EdgesAre(Shape(s.objects, ctx), c, b);
    if b != 0 {
      EdgeSurvives(s, ctx, threads, c, b);
    }
  }
}
