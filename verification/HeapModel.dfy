/** The heap as the collector sees it: raw memory, edges, roots, and what one collection leaves. 0 is JAVA_NULL. */
module HeapModel {
  import opened Options
  import opened Reachability

  type Addr = Node

  const NULL: Addr := 0

  /** alignof(std::max_align_t) */
  const ALIGNMENT: nat := 16

  datatype Field = Field(isStatic: bool, isReference: bool, index: nat)

  /** The C++ representation behind a java.lang.Class object. */
  datatype ClassFile = ClassFile(
    superClass: Addr,
    interfaces: seq<Addr>,
    fields: seq<Field>,
    statics: seq<Addr>,
    isArray: bool,
    isPrimitive: bool,
    arrayElement: Addr,
    resolved: bool)

  /**
   `data` is what follows the header: one word for each instance field, or the array elements. `serial` numbers
   the allocations, because an address may be handed out again after it was freed.
   */
  datatype Object = Object(clazz: Addr, data: seq<Addr>, file: Option<ClassFile>, serial: nat)

  type Objects = map<Addr, Object>

  /** java.lang.Class, and a rank that shows the superclass chains to be finite. */
  datatype Context = Context(javaLangClass: Addr, rank: Addr -> nat)

  datatype HeapState = HeapState(
    objects: Objects,
    gcBit: map<Addr, bool>,
    allocations: seq<Addr>,
    classes: seq<Addr>,
    interned: map<string, Addr>,
    unmarked: bool,
    nextSerial: nat)

  /** A stack word: one that the program uses as a reference, or any other bit pattern. The marker cannot tell. */
  datatype Slot = Ref(word: Addr) | Raw(word: nat)

  datatype Frame = Frame(locals: seq<Slot>, operands: seq<Slot>, top: nat)

  datatype Thread = Thread(exception: Addr, threadObject: Addr, frames: seq<Frame>)

  // ---- shape ----

  predicate IsClass(objects: Objects, c: Addr)
  {
    c in objects && objects[c].file.Some?
  }

  function File(objects: Objects, c: Addr): ClassFile
    requires IsClass(objects, c)
  {
    objects[c].file.value
  }

  ghost predicate HierarchyOk(objects: Objects, rank: Addr -> nat)
  {
    && NULL !in objects
    && forall c {:trigger File(objects, c).superClass} ::
         IsClass(objects, c) && File(objects, c).superClass != NULL ==>
         && IsClass(objects, File(objects, c).superClass)
         && !File(objects, File(objects, c).superClass).isArray
         && rank(File(objects, c).superClass) < rank(c)
  }

  predicate DeclaresSlot(file: ClassFile, isStatic: bool, i: nat)
  {
    exists f :: f in file.fields && f.isStatic == isStatic && f.isReference && f.index == i
  }

  /** Slot i of an instance of class c holds a reference that c or a superclass declares. */
  ghost predicate IsInstanceSlot(objects: Objects, rank: Addr -> nat, c: Addr, i: nat)
    requires HierarchyOk(objects, rank) && (c == NULL || IsClass(objects, c))
    decreases if c == NULL then 0 else rank(c) + 1
  {
    c != NULL
    && (DeclaresSlot(File(objects, c), false, i) || IsInstanceSlot(objects, rank, File(objects, c).superClass, i))
  }

  ghost predicate Typed(objects: Objects, ctx: Context)
  {
    && HierarchyOk(objects, ctx.rank)
    && IsClass(objects, ctx.javaLangClass)
    && forall a {:trigger objects[a].clazz} :: a in objects ==>
         && IsClass(objects, objects[a].clazz)
         && (objects[a].file.Some? <==> objects[a].clazz == ctx.javaLangClass)
         && var file := File(objects, objects[a].clazz);
            if file.isArray then IsClass(objects, file.arrayElement) else file.resolved
  }

  /** Data slot i of the object at a holds a reference. */
  ghost predicate IsRefSlot(objects: Objects, ctx: Context, a: Addr, i: nat)
    requires Typed(objects, ctx) && a in objects
  {
    var clazz := objects[a].clazz;
    var file := File(objects, clazz);
    if !file.isArray then IsInstanceSlot(objects, ctx.rank, clazz, i)
    else !File(objects, file.arrayElement).isPrimitive && i < |objects[a].data|
  }

  ghost predicate SlotsInRange(objects: Objects, ctx: Context)
    requires Typed(objects, ctx)
  {
    && (forall a, i: nat :: a in objects && IsRefSlot(objects, ctx, a, i) ==> i < |objects[a].data|)
    && (forall c, i: nat ::
          IsClass(objects, c) && File(objects, c).resolved && DeclaresSlot(File(objects, c), true, i) ==>
          i < |File(objects, c).statics|)
  }

  ghost predicate Shaped(objects: Objects, ctx: Context)
  {
    Typed(objects, ctx) && SlotsInRange(objects, ctx)
  }

  // ---- edges ----

  ghost predicate DataRefersTo(objects: Objects, ctx: Context, a: Addr, b: Addr)
    requires Shaped(objects, ctx) && a in objects
  {
    exists i: nat :: IsRefSlot(objects, ctx, a, i) && objects[a].data[i] == b
  }

  ghost predicate StaticsReferTo(file: ClassFile, b: Addr)
  {
    exists i: nat :: DeclaresSlot(file, true, i) && i < |file.statics| && file.statics[i] == b
  }

  /** The C++ part of a class refers to b. */
  ghost predicate ClassRefersTo(file: ClassFile, b: Addr)
  {
    b == file.superClass || b in file.interfaces || (file.resolved && StaticsReferTo(file, b))
  }

  /** The marker goes from a to b: to the class of a, along its data, and along the C++ part if a is a class. */
  ghost predicate RefersTo(objects: Objects, ctx: Context, a: Addr, b: Addr)
    requires Shaped(objects, ctx) && a in objects
  {
    && b != NULL
    && (|| b == objects[a].clazz
        || DataRefersTo(objects, ctx, a, b)
        || (IsClass(objects, a) && ClassRefersTo(File(objects, a), b)))
  }

  ghost function EdgeGraph(objects: Objects, ctx: Context): (g: Graph)
    requires Shaped(objects, ctx)
    ensures g.Keys == objects.Keys
  {
    map a | a in objects :: iset b | RefersTo(objects, ctx, a, b)
  }

  datatype Shape = Shape(objects: Objects, ctx: Context)

  /** Shape and no dangling edge: what marking relies on, and what no marking changes. */
  ghost predicate Sound(h: Shape)
  {
    Shaped(h.objects, h.ctx) && NoDanglingEdge(EdgeGraph(h.objects, h.ctx))
  }

  /** The smallest sound heap holds java.lang.Class alone, as an instance of itself. */
  ghost const BOOT: Shape :=
    Shape(map[ALIGNMENT := Object(ALIGNMENT, [], Some(ClassFile(NULL, [], [], [], false, false, NULL, true)), 0)],
          Context(ALIGNMENT, (a: Addr) => 0))

  lemma BootIsSound()
    ensures Sound(BOOT)
  {
  }

  type SoundHeap = h: Shape | Sound(h) ghost witness BootWitness()

  ghost function BootWitness(): (h: Shape)
    ensures Sound(h)
  {
    BootIsSound();
    BOOT
  }

  ghost function Edges(h: SoundHeap): (g: Graph)
    ensures NoDanglingEdge(g) && g.Keys == h.objects.Keys
  {
    EdgeGraph(h.objects, h.ctx)
  }

  // ---- roots ----

  predicate IsPotentialPointer(word: nat)
  {
    word != 0 && word % ALIGNMENT == 0
  }

  ghost function SlotRoots(objects: Objects, slots: seq<Slot>): set<Addr>
  {
    set v | v in slots && IsPotentialPointer(v.word) && v.word in objects :: v.word
  }

  ghost function FrameRoots(objects: Objects, f: Frame): set<Addr>
    requires f.top <= |f.operands|
  {
    SlotRoots(objects, f.locals) + SlotRoots(objects, f.operands[..f.top])
  }

  ghost predicate ThreadOk(t: Thread)
  {
    forall f :: f in t.frames ==> f.top <= |f.operands|
  }

  ghost function ThreadRoots(objects: Objects, t: Thread): set<Addr>
    requires ThreadOk(t)
  {
    ({t.exception, t.threadObject} - {NULL}) + set f, a | f in t.frames && a in FrameRoots(objects, f) :: a
  }

  ghost function Roots(s: HeapState, threads: seq<Thread>): set<Addr>
    requires forall t :: t in threads ==> ThreadOk(t)
  {
    (set c | c in s.classes) + set t, a | t in threads && a in ThreadRoots(s.objects, t) :: a
  }

  /** The exception and the thread object of each thread are objects or null; frame words can be anything. */
  ghost predicate ThreadsOk(objects: Objects, threads: seq<Thread>)
  {
    forall t :: t in threads ==>
      && ThreadOk(t)
      && (t.exception == NULL || t.exception in objects)
      && (t.threadObject == NULL || t.threadObject in objects)
  }

  // ---- the heap invariant ----

  /** The lists of allocations and of classes split the objects; the intern table refers to allocations. */
  ghost predicate Registered(s: HeapState)
  {
    && s.gcBit.Keys == s.objects.Keys
    && (forall a :: a in s.classes <==> IsClass(s.objects, a))
    && (forall a :: a in s.allocations <==> a in s.objects && !IsClass(s.objects, a))
    && (forall a :: a in s.objects ==> IsPotentialPointer(a) && s.objects[a].serial < s.nextSerial)
    && (forall k :: k in s.interned ==> s.interned[k] in s.allocations)
  }

  ghost predicate WellFormed(s: HeapState, ctx: Context)
  {
    Sound(Shape(s.objects, ctx)) && Registered(s)
  }

  ghost predicate AllUnmarked(s: HeapState)
  {
    forall a :: a in s.gcBit ==> s.gcBit[a] == s.unmarked
  }

  // ---- one collection ----

  function Keep(xs: seq<Addr>, live: set<Addr>): (r: seq<Addr>)
    ensures forall a :: a in r <==> a in xs && a in live
  {
    if xs == [] then []
    else if xs[0] in live then [xs[0]] + Keep(xs[1..], live)
    else Keep(xs[1..], live)
  }

  function Restrict(objects: Objects, live: set<Addr>): Objects
  {
    map a | a in objects && a in live :: objects[a]
  }

  function UniformBits(objects: Objects, live: set<Addr>, bit: bool): map<Addr, bool>
  {
    map a | a in objects && a in live :: bit
  }

  function LiveStrings(interned: map<string, Addr>, live: set<Addr>): map<string, Addr>
  {
    map k | k in interned && interned[k] in live :: interned[k]
  }

  ghost function Live(s: HeapState, ctx: Context, threads: seq<Thread>): set<Addr>
    requires Shaped(s.objects, ctx) && ThreadsOk(s.objects, threads)
  {
    ReachableSet(EdgeGraph(s.objects, ctx), Roots(s, threads))
  }

  /** The heap restricted to `live`, with all mark bits set to the next meaning of unmarked. */
  function Swept(s: HeapState, live: set<Addr>): HeapState
  {
    s.(objects := Restrict(s.objects, live),
       gcBit := UniformBits(s.objects, live, !s.unmarked),
       allocations := Keep(s.allocations, live),
       classes := Keep(s.classes, live),
       interned := LiveStrings(s.interned, live),
       unmarked := !s.unmarked)
  }

  ghost function Collected(s: HeapState, ctx: Context, threads: seq<Thread>): HeapState
    requires Shaped(s.objects, ctx) && ThreadsOk(s.objects, threads)
  {
    Swept(s, Live(s, ctx, threads))
  }

  lemma {:induction false} KeepAll(xs: seq<Addr>, live: set<Addr>)
    requires forall a :: a in xs ==> a in live
    ensures Keep(xs, live) == xs
  {
    if xs != [] {
      KeepAll(xs[1..], live);
    }
  }

  lemma RootsAreObjects(s: HeapState, ctx: Context, threads: seq<Thread>)
    requires WellFormed(s, ctx) && ThreadsOk(s.objects, threads)
    ensures Roots(s, threads) <= s.objects.Keys
  {
  }

  /** Both object tables have the same classes; only static values may differ. */
  ghost predicate SameClasses(objects: Objects, objects': Objects)
  {
    forall c :: IsClass(objects, c) || IsClass(objects', c) ==>
      && IsClass(objects, c) && IsClass(objects', c)
      && objects'[c].clazz == objects[c].clazz
      && File(objects', c) == File(objects, c).(statics := File(objects', c).statics)
  }

  lemma {:induction false} InstanceSlotSame(objects: Objects, objects': Objects, rank: Addr -> nat, c: Addr, i: nat)
    requires HierarchyOk(objects, rank) && HierarchyOk(objects', rank)
    requires SameClasses(objects, objects') && (c == NULL || IsClass(objects, c))
    ensures c == NULL || IsClass(objects', c)
    ensures IsInstanceSlot(objects, rank, c, i) == IsInstanceSlot(objects', rank, c, i)
    decreases if c == NULL then 0 else rank(c) + 1
  {
    if c != NULL {
      InstanceSlotSame(objects, objects', rank, File(objects, c).superClass, i);
    }
  }

  lemma RefSlotSame(objects: Objects, objects': Objects, ctx: Context, a: Addr, i: nat)
    requires Typed(objects, ctx) && Typed(objects', ctx) && SameClasses(objects, objects')
    requires a in objects && a in objects'
    requires objects[a].clazz == objects'[a].clazz && |objects[a].data| == |objects'[a].data|
    ensures IsRefSlot(objects, ctx, a, i) == IsRefSlot(objects', ctx, a, i)
  {
    InstanceSlotSame(objects, objects', ctx.rank, objects[a].clazz, i);
  }

  lemma RefersToSame(objects: Objects, objects': Objects, ctx: Context, a: Addr, b: Addr)
    requires Shaped(objects, ctx) && Shaped(objects', ctx) && SameClasses(objects, objects')
    requires a in objects && a in objects' && objects[a] == objects'[a]
    ensures RefersTo(objects, ctx, a, b) == RefersTo(objects', ctx, a, b)
  {
    forall i: nat ensures IsRefSlot(objects, ctx, a, i) == IsRefSlot(objects', ctx, a, i) {
      RefSlotSame(objects, objects', ctx, a, i);
    }
  }

  /** Dropping objects that are not classes keeps the shape ... */
  lemma RestrictionKeepsShape(objects: Objects, ctx: Context, objects': Objects)
    requires Shaped(objects, ctx) && SameClasses(objects, objects')
    requires objects'.Keys <= objects.Keys
    requires forall a :: a in objects' ==> objects'[a] == objects[a]
    ensures Shaped(objects', ctx)
  {
    assert Typed(objects', ctx);
    forall a, i: nat | a in objects' ensures IsRefSlot(objects', ctx, a, i) == IsRefSlot(objects, ctx, a, i) {
      RefSlotSame(objects, objects', ctx, a, i);
    }
  }

  /** ... and the edges of the others. */
  lemma RestrictionKeepsEdges(objects: Objects, ctx: Context, objects': Objects)
    requires Shaped(objects, ctx) && SameClasses(objects, objects') && Shaped(objects', ctx)
    requires objects'.Keys <= objects.Keys
    requires forall a :: a in objects' ==> objects'[a] == objects[a]
    ensures forall a :: a in objects' ==> EdgeGraph(objects', ctx)[a] == EdgeGraph(objects, ctx)[a]
  {
    forall a, b | a in objects' ensures RefersTo(objects', ctx, a, b) == RefersTo(objects, ctx, a, b) {
      RefersToSame(objects, objects', ctx, a, b);
    }
  }

  lemma LiveIsClosed(s: HeapState, ctx: Context, threads: seq<Thread>)
    requires WellFormed(s, ctx) && ThreadsOk(s.objects, threads)
    ensures Roots(s, threads) <= Live(s, ctx, threads) <= s.objects.Keys
    ensures Closed(EdgeGraph(s.objects, ctx), Live(s, ctx, threads))
  {
    RootsAreObjects(s, ctx, threads);
    ReachableSetIsClosed(EdgeGraph(s.objects, ctx), Roots(s, threads));
  }

  /** A set of objects that a collection may keep. */
  ghost predicate Keepable(s: HeapState, ctx: Context, live: set<Addr>)
    requires Shaped(s.objects, ctx)
  {
    && live <= s.objects.Keys
    && Closed(EdgeGraph(s.objects, ctx), live)
    && forall c :: c in s.classes ==> c in live
  }

  lemma SweptKeepsClasses(s: HeapState, live: set<Addr>)
    requires live <= s.objects.Keys && forall c :: IsClass(s.objects, c) ==> c in live
    ensures Swept(s, live).objects.Keys == live && SameClasses(s.objects, Swept(s, live).objects)
  {
  }

  lemma SweptKeepsEdges(s: HeapState, ctx: Context, live: set<Addr>)
    requires WellFormed(s, ctx) && Keepable(s, ctx, live)
    ensures Shaped(Swept(s, live).objects, ctx)
    ensures forall a :: a in live ==> EdgeGraph(Swept(s, live).objects, ctx)[a] == EdgeGraph(s.objects, ctx)[a]
    ensures NoDanglingEdge(EdgeGraph(Swept(s, live).objects, ctx))
  {
    SweptKeepsClasses(s, live);
    RestrictionKeepsShape(s.objects, ctx, Swept(s, live).objects);
    RestrictionKeepsEdges(s.objects, ctx, Swept(s, live).objects);
  }

  lemma SweptIsWellFormed(s: HeapState, ctx: Context, live: set<Addr>)
    requires WellFormed(s, ctx) && Keepable(s, ctx, live)
    ensures WellFormed(Swept(s, live), ctx) && AllUnmarked(Swept(s, live))
    ensures Swept(s, live).classes == s.classes
  {
    SweptKeepsClasses(s, live);
    SweptKeepsEdges(s, ctx, live);
    KeepAll(s.classes, live);
  }

  lemma LiveIsKeepable(s: HeapState, ctx: Context, threads: seq<Thread>)
    requires WellFormed(s, ctx) && ThreadsOk(s.objects, threads)
    ensures Keepable(s, ctx, Live(s, ctx, threads))
  {
    LiveIsClosed(s, ctx, threads);
    forall c | c in s.classes ensures c in Live(s, ctx, threads) {
      assert c in Roots(s, threads);
    }
  }

  lemma ThreadRefsAreRoots(s: HeapState, threads: seq<Thread>, t: Thread)
    requires t in threads && ThreadsOk(s.objects, threads)
    ensures t.exception == NULL || t.exception in Roots(s, threads)
    ensures t.threadObject == NULL || t.threadObject in Roots(s, threads)
  {
    assert t.exception == NULL || t.exception in ThreadRoots(s.objects, t);
    assert t.threadObject == NULL || t.threadObject in ThreadRoots(s.objects, t);
  }

  lemma FrameRootsSurvive(objects: Objects, objects': Objects, f: Frame)
    requires f.top <= |f.operands| && objects'.Keys <= objects.Keys
    requires FrameRoots(objects, f) <= objects'.Keys
    ensures FrameRoots(objects', f) == FrameRoots(objects, f)
  {
  }

  lemma ThreadRootsSurvive(objects: Objects, objects': Objects, t: Thread)
    requires ThreadOk(t) && objects'.Keys <= objects.Keys
    requires ThreadRoots(objects, t) <= objects'.Keys
    ensures ThreadRoots(objects', t) == ThreadRoots(objects, t)
  {
    forall f | f in t.frames ensures FrameRoots(objects', f) == FrameRoots(objects, f) {
      assert FrameRoots(objects, f) <= ThreadRoots(objects, t);
      FrameRootsSurvive(objects, objects', f);
    }
  }

  /** The roots after a sweep are the roots before it: every word that was a root still is. */
  lemma RootsSurvive(s: HeapState, live: set<Addr>, threads: seq<Thread>)
    requires ThreadsOk(s.objects, threads) && live <= s.objects.Keys && Roots(s, threads) <= live
    ensures ThreadsOk(Swept(s, live).objects, threads)
    ensures Roots(Swept(s, live), threads) == Roots(s, threads)
  {
    var s' := Swept(s, live);
    assert s'.objects.Keys == live;
    forall t | t in threads ensures ThreadRoots(s'.objects, t) == ThreadRoots(s.objects, t) {
      assert ThreadRoots(s.objects, t) <= Roots(s, threads);
      ThreadRootsSurvive(s.objects, s'.objects, t);
    }
    forall t | t in threads
      ensures t.exception == NULL || t.exception in s'.objects
      ensures t.threadObject == NULL || t.threadObject in s'.objects
    {
      ThreadRefsAreRoots(s, threads, t);
    }
    assert forall c :: c in s.classes ==> c in Roots(s, threads);
    KeepAll(s.classes, live);
  }

  /** The heap invariant and the all-unmarked state hold again under the flipped polarity; no class is freed. */
  lemma CollectionKeepsInvariant(s: HeapState, ctx: Context, threads: seq<Thread>)
    requires WellFormed(s, ctx) && ThreadsOk(s.objects, threads)
    ensures WellFormed(Collected(s, ctx, threads), ctx) && AllUnmarked(Collected(s, ctx, threads))
    ensures Collected(s, ctx, threads).classes == s.classes
    ensures ThreadsOk(Collected(s, ctx, threads).objects, threads)
  {
    var live := Live(s, ctx, threads);
    LiveIsKeepable(s, ctx, threads);
    SweptIsWellFormed(s, ctx, live);
    LiveIsClosed(s, ctx, threads);
    RootsSurvive(s, live, threads);
  }

  /** Exactly the objects without a path from the roots are freed. */
  lemma CollectionFreesUnreachable(s: HeapState, ctx: Context, threads: seq<Thread>, a: Addr)
    requires WellFormed(s, ctx) && ThreadsOk(s.objects, threads) && a in s.objects
    ensures a in Collected(s, ctx, threads).objects <==>
      exists r :: r in Roots(s, threads) && HasPath(EdgeGraph(s.objects, ctx), r, a)
  {
    RootsAreObjects(s, ctx, threads);
    ReachesIffPath(EdgeGraph(s.objects, ctx), Roots(s, threads), a);
  }

  lemma AllLiveAfterRestriction(objects: Objects, ctx: Context, roots: set<Addr>, objects': Objects)
    requires Shaped(objects, ctx) && NoDanglingEdge(EdgeGraph(objects, ctx)) && roots <= objects.Keys
    requires Shaped(objects', ctx) && objects'.Keys == ReachableSet(EdgeGraph(objects, ctx), roots)
    requires forall a :: a in objects' ==> EdgeGraph(objects', ctx)[a] == EdgeGraph(objects, ctx)[a]
    ensures ReachableSet(EdgeGraph(objects', ctx), roots) == objects'.Keys
  {
    ReachableAfterRestriction(EdgeGraph(objects, ctx), roots, EdgeGraph(objects', ctx));
  }

  lemma AllReachableAfterSweep(s: HeapState, ctx: Context, threads: seq<Thread>)
    requires WellFormed(s, ctx) && ThreadsOk(s.objects, threads)
    ensures var objects' := Collected(s, ctx, threads).objects;
            && Shaped(objects', ctx)
            && ReachableSet(EdgeGraph(objects', ctx), Roots(s, threads)) == objects'.Keys == Live(s, ctx, threads)
  {
    var live := Live(s, ctx, threads);
    RootsAreObjects(s, ctx, threads);
    LiveIsKeepable(s, ctx, threads);
    SweptKeepsEdges(s, ctx, live);
    AllLiveAfterRestriction(s.objects, ctx, Roots(s, threads), Swept(s, live).objects);
  }

  lemma AllLiveAfterCollection(s: HeapState, ctx: Context, threads: seq<Thread>)
    requires WellFormed(s, ctx) && ThreadsOk(s.objects, threads)
    ensures Shaped(Collected(s, ctx, threads).objects, ctx)
    ensures ThreadsOk(Collected(s, ctx, threads).objects, threads)
    ensures Live(Collected(s, ctx, threads), ctx, threads) == Collected(s, ctx, threads).objects.Keys
  {
    CollectionKeepsInvariant(s, ctx, threads);
    AllReachableAfterSweep(s, ctx, threads);
    LiveIsClosed(s, ctx, threads);
    RootsSurvive(s, Live(s, ctx, threads), threads);
  }

  /** A sweep that keeps everything changes nothing but the meaning of the mark bit. */
  lemma SweepOfEverything(s: HeapState)
    requires forall a :: a in s.allocations ==> a in s.objects
    requires forall c :: c in s.classes ==> c in s.objects
    requires forall k :: k in s.interned ==> s.interned[k] in s.objects
    ensures Swept(s, s.objects.Keys) ==
      s.(unmarked := !s.unmarked, gcBit := UniformBits(s.objects, s.objects.Keys, !s.unmarked))
  {
    KeepAll(s.allocations, s.objects.Keys);
    KeepAll(s.classes, s.objects.Keys);
    assert Restrict(s.objects, s.objects.Keys) == s.objects;
    assert LiveStrings(s.interned, s.objects.Keys) == s.interned;
  }

  /** What JVM_GC leaves: the live objects, unmarked under the old polarity. */
  function AfterGc(s: HeapState, live: set<Addr>): HeapState
  {
    Swept(s, live).(unmarked := s.unmarked, gcBit := UniformBits(s.objects, live, s.unmarked))
  }

  /** The second collection of JVM_GC frees nothing and only flips the polarity back. */
  lemma SecondCollectionFreesNothing(s: HeapState, ctx: Context, threads: seq<Thread>)
    requires WellFormed(s, ctx) && ThreadsOk(s.objects, threads)
    ensures var s' := Collected(s, ctx, threads);
            && WellFormed(s', ctx) && ThreadsOk(s'.objects, threads)
            && Collected(s', ctx, threads) == AfterGc(s, Live(s, ctx, threads))
            && Collected(s', ctx, threads).objects == s'.objects
  {
    CollectionKeepsInvariant(s, ctx, threads);
    AllLiveAfterCollection(s, ctx, threads);
    SweepOfEverything(Collected(s, ctx, threads));
  }
}
