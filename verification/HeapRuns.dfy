/** Whole runs of the program and the collector, in any order: no reference ever leads to a freed object. */
module HeapRuns {
  import opened Reachability
  import opened HeapModel
  import opened Mutator
  import opened HeapClasses

  /**
   The heap, the threads, and every reference that load_string has returned: the literal, the address, and the
   number of the allocation, which tells an object from a later one at the same address.
   */
  datatype Run = Run(heap: HeapState, threads: seq<Thread>, returned: set<(string, Addr, nat)>)

  /** The classes that strings need are part of the world, like the class table. */
  datatype World = World(ctx: Context, strings: StringClasses)

  /** LoadClass and ResolveClass are allocate_class with the parser, and resolve_class. */
  datatype Op =
    | Allocate(a: Addr, clazz: Addr, length: nat, threads': seq<Thread>)
    | Store(a: Addr, i: nat, word: nat)
    | StoreStatic(c: Addr, i: nat, word: nat)
    | Execute(threads': seq<Thread>)
    | LoadString(literal: string, chars: Addr, str: Addr, length: nat, threads': seq<Thread>)
    | LoadClass(c: Addr, file: ClassFile, data: seq<Addr>)
    | ResolveClass(c: Addr, file: ClassFile)
    | Gc

  // ---- what the program can reach ----

  /** Every word that the threads use as a reference is null or in `known`. */
  ghost predicate RefsWithin(threads: seq<Thread>, known: set<Addr>)
  {
    forall t :: t in threads ==>
      && ThreadOk(t)
      && (t.exception == NULL || t.exception in known)
      && (t.threadObject == NULL || t.threadObject in known)
      && (forall f, v :: f in t.frames && IsWord(f, v) && v.Ref? ==> v.word == NULL || v.word in known)
  }

  /** A word that the marker looks at: a local or a live operand. */
  predicate IsWord(f: Frame, v: Slot)
    requires f.top <= |f.operands|
  {
    v in f.locals || v in f.operands[..f.top]
  }

  /** The thread uses the word a as a reference. */
  ghost predicate Uses(t: Thread, a: Addr)
    requires ThreadOk(t)
  {
    t.exception == a || t.threadObject == a || exists f :: f in t.frames && IsWord(f, Ref(a))
  }

  ghost predicate SomeUses(threads: seq<Thread>, a: Addr)
    requires forall t :: t in threads ==> ThreadOk(t)
  {
    exists t :: t in threads && Uses(t, a)
  }

  /** Some word of a frame looks like a reference to a, but is none. */
  ghost predicate LooksLike(threads: seq<Thread>, a: Addr)
    requires forall t :: t in threads ==> ThreadOk(t)
  {
    exists t, f :: t in threads && f in t.frames && IsRawWord(t, f, a)
  }

  ghost predicate IsRawWord(t: Thread, f: Frame, a: Addr)
    requires ThreadOk(t)
  {
    f in t.frames && IsWord(f, Raw(a))
  }

  /** The classes and what the threads use as references: unlike the roots of the marker, without look-alikes. */
  ghost function RefRoots(s: HeapState, threads: seq<Thread>): set<Addr>
    requires forall t :: t in threads ==> ThreadOk(t)
  {
    set a | a in s.objects && (IsClass(s.objects, a) || SomeUses(threads, a))
  }

  /** The objects the program can get hold of. */
  ghost function Obtainable(r: Run, w: World): set<Addr>
    requires WellFormed(r.heap, w.ctx) && forall t :: t in r.threads ==> ThreadOk(t)
  {
    ReachableSet(EdgeGraph(r.heap.objects, w.ctx), RefRoots(r.heap, r.threads))
  }

  // ---- what every run keeps ----

  /** The object with this address and allocation number is still there. */
  predicate IsAllocated(s: HeapState, a: Addr, serial: nat)
  {
    a in s.objects && s.objects[a].serial == serial
  }

  /** Every string object that load_string returned and that was not freed is the table entry of its literal. */
  ghost predicate Interned(s: HeapState, returned: set<(string, Addr, nat)>)
  {
    forall literal, a, serial :: (literal, a, serial) in returned ==>
      && serial < s.nextSerial
      && (IsAllocated(s, a, serial) ==> literal in s.interned && s.interned[literal] == a)
  }

  /** Nothing is marked, and unmarked means false, which is also what a new object has. */
  ghost predicate AtRest(s: HeapState)
  {
    AllUnmarked(s) && !s.unmarked
  }

  /** Between operations nothing is marked, and no reference leads to a freed object. */
  ghost predicate Quiet(r: Run)
  {
    AtRest(r.heap) && RefsWithin(r.threads, r.heap.objects.Keys) && Interned(r.heap, r.returned)
  }

  ghost predicate Inv(r: Run, w: World)
  {
    WellFormed(r.heap, w.ctx) && Quiet(r)
  }

  /** The threads' words are what the collector asks of its caller. */
  lemma InvMeansThreadsOk(r: Run, w: World)
    requires Inv(r, w)
    ensures ThreadsOk(r.heap.objects, r.threads)
  {
  }

  // ---- what the program can do ----

  function LoadedReference(s: HeapState, literal: string, str: Addr): Addr
  {
    if literal in s.interned then s.interned[literal] else str
  }

  ghost predicate Enabled(r: Run, op: Op, w: World)
    requires Inv(r, w)
  {
    var known := Obtainable(r, w);
    match op
    case Allocate(a, clazz, length, threads') =>
      CanAllocate(r.heap, w.ctx, a, clazz, length) && RefsWithin(threads', known + {a})
    case Store(a, i, word) =>
      && a in known && i < |r.heap.objects[a].data|
      && (IsRefSlot(r.heap.objects, w.ctx, a, i) ==> word == NULL || word in known)
    case StoreStatic(c, i, word) =>
      && IsClass(r.heap.objects, c) && i < |File(r.heap.objects, c).statics|
      && (DeclaresSlot(File(r.heap.objects, c), true, i) ==> word == NULL || word in known)
    case Execute(threads') => RefsWithin(threads', known)
    case LoadString(literal, chars, str, length, threads') =>
      && CanLoadString(r.heap, w.ctx, w.strings, chars, str, length)
      && RefsWithin(threads', known + {LoadedReference(r.heap, literal, str)})
    case LoadClass(c, file, data) => CanLoadClass(r.heap, w.ctx, c, file, data)
    case ResolveClass(c, file) => CanResolveClass(r.heap, w.ctx, c, file)
    case Gc => true
  }

  ghost function Apply(r: Run, op: Op, w: World): Run
    requires Inv(r, w) && Enabled(r, op, w)
  {
    match op
    case Allocate(a, clazz, length, threads') =>
      r.(heap := Allocated(r.heap, a, clazz, length), threads := threads')
    case Store(a, i, word) => r.(heap := Stored(r.heap, a, i, word))
    case StoreStatic(c, i, word) => r.(heap := StaticStored(r.heap, c, i, word))
    case Execute(threads') => r.(threads := threads')
    case LoadString(literal, chars, str, length, threads') =>
      var s' := LoadedString(r.heap, w.strings, literal, chars, str, length);
      var ref := LoadedReference(r.heap, literal, str);
      Run(s', threads', r.returned + {(literal, ref, s'.objects[ref].serial)})
    case LoadClass(c, file, data) => r.(heap := LoadedClass(r.heap, w.ctx, c, file, data))
    case ResolveClass(c, file) => r.(heap := ResolvedClass(r.heap, c, file))
    case Gc => r.(heap := AfterGc(r.heap, Live(r.heap, w.ctx, r.threads)))
  }

  lemma RefsGrow(threads: seq<Thread>, known: set<Addr>, known': set<Addr>)
    requires RefsWithin(threads, known) && known <= known'
    ensures RefsWithin(threads, known')
  {
  }

  /** A collection keeps every reference of the threads: words used as references are among the roots. */
  lemma ThreadRefsSurvive(s: HeapState, ctx: Context, threads: seq<Thread>)
    requires WellFormed(s, ctx) && ThreadsOk(s.objects, threads) && RefsWithin(threads, s.objects.Keys)
    ensures RefsWithin(threads, Live(s, ctx, threads))
  {
    LiveIsClosed(s, ctx, threads);
    forall t | t in threads
      ensures t.exception == NULL || t.exception in Live(s, ctx, threads)
      ensures t.threadObject == NULL || t.threadObject in Live(s, ctx, threads)
      ensures forall f, v :: f in t.frames && IsWord(f, v) && v.Ref? ==>
                v.word == NULL || v.word in Live(s, ctx, threads)
    {
      ThreadRefsAreRoots(s, threads, t);
      forall f, v | f in t.frames && IsWord(f, v) && v.Ref? && v.word != NULL
        ensures v.word in Roots(s, threads)
      {
        FrameRefIsRoot(s, threads, t, f, v);
      }
    }
  }

  lemma FrameRefIsRoot(s: HeapState, threads: seq<Thread>, t: Thread, f: Frame, v: Slot)
    requires ThreadsOk(s.objects, threads) && t in threads && f in t.frames
    requires IsWord(f, v)
    requires v.word in s.objects && IsPotentialPointer(v.word)
    ensures v.word in Roots(s, threads)
  {
    assert v.word in FrameRoots(s.objects, f);
    assert v.word in ThreadRoots(s.objects, t);
  }

  // ---- every operation keeps the invariant ----

  /** Later objects get larger numbers, so growth cannot make an old history entry true again. */
  lemma HistoryAfterGrowth(s: HeapState, s': HeapState, returned: set<(string, Addr, nat)>)
    requires Interned(s, returned) && s.interned == s'.interned && s.nextSerial <= s'.nextSerial
    requires forall a :: a in s'.objects ==>
      s'.objects[a].serial >= s.nextSerial || (a in s.objects && s'.objects[a].serial == s.objects[a].serial)
    ensures Interned(s', returned)
  {
  }

  lemma HistoryAfterSweep(s: HeapState, s': HeapState, returned: set<(string, Addr, nat)>)
    requires Interned(s, returned) && s.nextSerial == s'.nextSerial
    requires forall a :: a in s'.objects ==> a in s.objects && s'.objects[a] == s.objects[a]
    requires forall k :: k in s.interned && s.interned[k] in s'.objects ==>
      k in s'.interned && s'.interned[k] == s.interned[k]
    ensures Interned(s', returned)
  {
  }

  lemma HistoryAfterLoad(s: HeapState, cs: StringClasses, literal: string, chars: Addr, str: Addr, length: nat,
                         returned: set<(string, Addr, nat)>)
    requires Interned(s, returned) && chars != str && 2 <= cs.fieldCount && literal !in s.interned
    requires forall a :: a in s.objects ==> s.objects[a].serial < s.nextSerial
    requires chars !in s.objects && str !in s.objects
    ensures var s' := LoadedString(s, cs, literal, chars, str, length);
            Interned(s', returned + {(literal, str, s'.objects[str].serial)})
  {
    var s' := LoadedString(s, cs, literal, chars, str, length);
    assert s'.objects.Keys == s.objects.Keys + {chars, str};
    assert s'.objects[chars].serial == s.nextSerial && s'.objects[str].serial == s.nextSerial + 1;
    assert s'.nextSerial == s.nextSerial + 2;
    forall l, a, n | (l, a, n) in returned && IsAllocated(s', a, n) ensures l in s.interned && s.interned[l] == a {
      assert n < s.nextSerial;
      assert IsAllocated(s, a, n);
    }
  }

  lemma LoadIsAtRest(s: HeapState, cs: StringClasses, literal: string, chars: Addr, str: Addr, length: nat)
    requires AtRest(s) && chars != str && 2 <= cs.fieldCount
    ensures AtRest(LoadedString(s, cs, literal, chars, str, length))
  {
  }

  lemma AllocateKeepsQuiet(r: Run, a: Addr, clazz: Addr, length: nat, threads': seq<Thread>, known: set<Addr>)
    requires Quiet(r) && a !in r.heap.objects && known <= r.heap.objects.Keys && RefsWithin(threads', known + {a})
    ensures Quiet(r.(heap := Allocated(r.heap, a, clazz, length), threads := threads'))
  {
    var s' := Allocated(r.heap, a, clazz, length);
    RefsGrow(threads', known + {a}, s'.objects.Keys);
    HistoryAfterGrowth(r.heap, s', r.returned);
  }

  lemma UpdateKeepsQuiet(r: Run, a: Addr, o: Object)
    requires Quiet(r) && a in r.heap.objects && o.serial == r.heap.objects[a].serial
    ensures Quiet(r.(heap := r.heap.(objects := r.heap.objects[a := o])))
  {
    var s' := r.heap.(objects := r.heap.objects[a := o]);
    RefsGrow(r.threads, r.heap.objects.Keys, s'.objects.Keys);
    HistoryAfterGrowth(r.heap, s', r.returned);
  }

  lemma LoadKeepsQuiet(r: Run, cs: StringClasses, literal: string, chars: Addr, str: Addr, length: nat,
                       threads': seq<Thread>, known: set<Addr>)
    requires Quiet(r) && Registered(r.heap) && chars != str && 2 <= cs.fieldCount
    requires chars !in r.heap.objects && str !in r.heap.objects && known <= r.heap.objects.Keys
    requires RefsWithin(threads', known + {LoadedReference(r.heap, literal, str)})
    ensures var s' := LoadedString(r.heap, cs, literal, chars, str, length);
            var ref := LoadedReference(r.heap, literal, str);
            ref in s'.objects && Quiet(Run(s', threads', r.returned + {(literal, ref, s'.objects[ref].serial)}))
  {
    var s' := LoadedString(r.heap, cs, literal, chars, str, length);
    var ref := LoadedReference(r.heap, literal, str);
    LoadIsAtRest(r.heap, cs, literal, chars, str, length);
    if literal in r.heap.interned {
      assert ref in r.heap.allocations;
    } else {
      HistoryAfterLoad(r.heap, cs, literal, chars, str, length, r.returned);
    }
    RefsGrow(threads', known + {ref}, s'.objects.Keys);
  }

  lemma GcKeepsQuiet(r: Run, live: set<Addr>)
    requires Quiet(r) && live <= r.heap.objects.Keys && RefsWithin(r.threads, live)
    ensures Quiet(r.(heap := AfterGc(r.heap, live)))
  {
    var s' := AfterGc(r.heap, live);
    assert s'.objects.Keys == live;
    HistoryAfterSweep(r.heap, s', r.returned);
  }

  lemma GcKeepsWellFormed(s: HeapState, ctx: Context, threads: seq<Thread>)
    requires WellFormed(s, ctx) && ThreadsOk(s.objects, threads)
    ensures WellFormed(AfterGc(s, Live(s, ctx, threads)), ctx)
  {
    LiveIsKeepable(s, ctx, threads);
    SweptIsWellFormed(s, ctx, Live(s, ctx, threads));
  }

  lemma ClassKeepsQuiet(r: Run, s': HeapState)
    requires Quiet(r) && AtRest(s') && s'.interned == r.heap.interned && r.heap.nextSerial <= s'.nextSerial
    requires r.heap.objects.Keys <= s'.objects.Keys
    requires forall a :: a in s'.objects ==>
      || s'.objects[a].serial >= r.heap.nextSerial
      || (a in r.heap.objects && s'.objects[a].serial == r.heap.objects[a].serial)
    ensures Quiet(r.(heap := s'))
  {
    RefsGrow(r.threads, r.heap.objects.Keys, s'.objects.Keys);
    HistoryAfterGrowth(r.heap, s', r.returned);
  }

  lemma StepKeepsWellFormed(r: Run, op: Op, w: World)
    requires Inv(r, w) && Enabled(r, op, w)
    ensures WellFormed(Apply(r, op, w).heap, w.ctx)
  {
    match op
    case Allocate(a, clazz, length, _) => AllocationIsSafe(r.heap, w.ctx, a, clazz, length);
    case Store(a, i, word) => StoreIsSafe(r.heap, w.ctx, a, i, word);
    case StoreStatic(c, i, word) => StaticStoreIsSafe(r.heap, w.ctx, c, i, word);
    case Execute(_) =>
    case LoadString(literal, chars, str, length, _) =>
      LoadedStringIsSafe(r.heap, w.ctx, w.strings, literal, chars, str, length);
    case LoadClass(c, file, data) => LoadedClassIsSafe(r.heap, w.ctx, c, file, data);
    case ResolveClass(c, file) => ResolvedClassIsSafe(r.heap, w.ctx, c, file);
    case Gc =>
      InvMeansThreadsOk(r, w);
      GcKeepsWellFormed(r.heap, w.ctx, r.threads);
  }

  lemma StepKeepsQuiet(r: Run, op: Op, w: World)
    requires Inv(r, w) && Enabled(r, op, w)
    ensures Quiet(Apply(r, op, w))
  {
    var known := Obtainable(r, w);
    match op
    case Allocate(a, clazz, length, threads') => AllocateKeepsQuiet(r, a, clazz, length, threads', known);
    case Store(a, i, word) => UpdateKeepsQuiet(r, a, StoredObject(r.heap.objects[a], i, word));
    case StoreStatic(c, i, word) => UpdateKeepsQuiet(r, c, StaticStoredObject(r.heap.objects[c], i, word));
    case Execute(threads') => RefsGrow(threads', known, r.heap.objects.Keys);
    case LoadString(literal, chars, str, length, threads') =>
      LoadKeepsQuiet(r, w.strings, literal, chars, str, length, threads', known);
    case LoadClass(c, file, data) => ClassKeepsQuiet(r, LoadedClass(r.heap, w.ctx, c, file, data));
    case ResolveClass(c, file) => ClassKeepsQuiet(r, ResolvedClass(r.heap, c, file));
    case Gc =>
      InvMeansThreadsOk(r, w);
      GcStepKeepsQuiet(r, w);
  }

  lemma GcStepKeepsQuiet(r: Run, w: World)
    requires WellFormed(r.heap, w.ctx) && ThreadsOk(r.heap.objects, r.threads) && Quiet(r)
    ensures Quiet(r.(heap := AfterGc(r.heap, Live(r.heap, w.ctx, r.threads))))
  {
    ThreadRefsSurvive(r.heap, w.ctx, r.threads);
    GcKeepsQuiet(r, Live(r.heap, w.ctx, r.threads));
  }

  /** Every operation keeps the invariant. */
  lemma StepKeepsInv(r: Run, op: Op, w: World)
    requires Inv(r, w) && Enabled(r, op, w)
    ensures Inv(Apply(r, op, w), w)
  {
    StepKeepsWellFormed(r, op, w);
    StepKeepsQuiet(r, op, w);
  }

  // ---- whole runs ----

  ghost predicate CanRun(r: Run, ops: seq<Op>, w: World)
    requires Inv(r, w)
    decreases |ops|
  {
    ops == [] ||
    (Enabled(r, ops[0], w) && (StepKeepsInv(r, ops[0], w); CanRun(Apply(r, ops[0], w), ops[1..], w)))
  }

  ghost function After(r: Run, ops: seq<Op>, w: World): (r': Run)
    requires Inv(r, w) && CanRun(r, ops, w)
    ensures Inv(r', w)
    decreases |ops|
  {
    if ops == [] then r
    else
      StepKeepsInv(r, ops[0], w);
      After(Apply(r, ops[0], w), ops[1..], w)
  }

  /**
   After every run: no word that a thread uses as a reference, no object and no intern entry refers to a freed object,
   and the collector's entry assertion holds.
   */
  lemma NoReferenceIsDangling(r: Run, ops: seq<Op>, w: World)
    requires Inv(r, w) && CanRun(r, ops, w)
    ensures var r' := After(r, ops, w);
            && WellFormed(r'.heap, w.ctx) && ThreadsOk(r'.heap.objects, r'.threads)
            && RefsWithin(r'.threads, r'.heap.objects.Keys)
            && (forall a, b :: a in r'.heap.objects && RefersTo(r'.heap.objects, w.ctx, a, b) ==> b in r'.heap.objects)
            && (forall k :: k in r'.heap.interned ==> r'.heap.interned[k] in r'.heap.objects)
            && AllUnmarked(r'.heap)
  {
    var r' := After(r, ops, w);
    InvMeansThreadsOk(r', w);
    forall a, b | a in r'.heap.objects && RefersTo(r'.heap.objects, w.ctx, a, b) ensures b in r'.heap.objects {
      assert b in EdgeGraph(r'.heap.objects, w.ctx)[a];
    }
  }

  // ---- the collector against what the program can reach ----

  lemma RefRootsAreRoots(s: HeapState, threads: seq<Thread>)
    requires Registered(s) && ThreadsOk(s.objects, threads) && NULL !in s.objects
    ensures RefRoots(s, threads) <= Roots(s, threads)
  {
    forall a | a in RefRoots(s, threads) ensures a in Roots(s, threads) {
      if !IsClass(s.objects, a) {
        var t :| t in threads && Uses(t, a);
        UsedIsThreadRoot(s.objects, t, a);
      }
    }
  }

  lemma UsedIsThreadRoot(objects: Objects, t: Thread, a: Addr)
    requires ThreadOk(t) && Uses(t, a) && a in objects && IsPotentialPointer(a) && a != NULL
    ensures a in ThreadRoots(objects, t)
  {
    if a != t.exception && a != t.threadObject {
      var f :| f in t.frames && IsWord(f, Ref(a));
      assert a in FrameRoots(objects, f);
    }
  }

  lemma ObtainableIsLive(s: HeapState, ctx: Context, threads: seq<Thread>)
    requires WellFormed(s, ctx) && ThreadsOk(s.objects, threads)
    ensures ReachableSet(EdgeGraph(s.objects, ctx), RefRoots(s, threads)) <= Live(s, ctx, threads)
  {
    RefRootsAreRoots(s, threads);
    LiveIsClosed(s, ctx, threads);
    ReachableWithin(EdgeGraph(s.objects, ctx), RefRoots(s, threads), Live(s, ctx, threads));
  }

  /** Whatever the program can reach survives JVM_GC, unmoved and unchanged. */
  lemma GcKeepsTheObtainable(r: Run, w: World, a: Addr)
    requires Inv(r, w) && a in Obtainable(r, w)
    ensures ThreadsOk(r.heap.objects, r.threads)
    ensures var s' := AfterGc(r.heap, Live(r.heap, w.ctx, r.threads));
            a in s'.objects && s'.objects[a] == r.heap.objects[a]
  {
    InvMeansThreadsOk(r, w);
    ObtainableIsLive(r.heap, w.ctx, r.threads);
  }

  lemma RootIsUsedOrLooksLike(s: HeapState, threads: seq<Thread>, a: Addr)
    requires Registered(s) && ThreadsOk(s.objects, threads) && a in Roots(s, threads)
    ensures a in s.objects && (a in RefRoots(s, threads) || LooksLike(threads, a))
  {
    if a !in s.classes {
      var t :| t in threads && a in ThreadRoots(s.objects, t);
      if !Uses(t, a) {
        var f :| f in t.frames && a in FrameRoots(s.objects, f);
        var v :| IsWord(f, v) && v.word == a;
        assert v == Raw(a);
        assert IsRawWord(t, f, a);
      }
    }
  }

  lemma LookAlikeIsRoot(s: HeapState, threads: seq<Thread>, a: Addr)
    requires Registered(s) && ThreadsOk(s.objects, threads) && a in s.objects && LooksLike(threads, a)
    ensures a in Roots(s, threads)
  {
    var t, f :| t in threads && f in t.frames && IsRawWord(t, f, a);
    assert IsWord(f, Raw(a)) && Raw(a).word == a;
    assert a in FrameRoots(s.objects, f);
    assert a in ThreadRoots(s.objects, t);
  }

  ghost predicate OnlyObtainableLookAlikes(s: HeapState, ctx: Context, threads: seq<Thread>)
    requires WellFormed(s, ctx) && ThreadsOk(s.objects, threads)
  {
    forall a :: a in s.objects && LooksLike(threads, a) ==>
      a in ReachableSet(EdgeGraph(s.objects, ctx), RefRoots(s, threads))
  }

  lemma LookAlikesAreLive(s: HeapState, ctx: Context, threads: seq<Thread>, a: Addr)
    requires WellFormed(s, ctx) && ThreadsOk(s.objects, threads) && a in s.objects && LooksLike(threads, a)
    ensures a in Live(s, ctx, threads)
  {
    LookAlikeIsRoot(s, threads, a);
    LiveIsClosed(s, ctx, threads);
  }

  lemma LiveIsObtainable(s: HeapState, ctx: Context, threads: seq<Thread>)
    requires WellFormed(s, ctx) && ThreadsOk(s.objects, threads) && OnlyObtainableLookAlikes(s, ctx, threads)
    ensures Live(s, ctx, threads) <= ReachableSet(EdgeGraph(s.objects, ctx), RefRoots(s, threads))
  {
    var g, known := EdgeGraph(s.objects, ctx), ReachableSet(EdgeGraph(s.objects, ctx), RefRoots(s, threads));
    ReachableSetIsClosed(g, RefRoots(s, threads));
    forall a | a in Roots(s, threads) ensures a in known {
      RootIsUsedOrLooksLike(s, threads, a);
    }
    ReachableWithin(g, Roots(s, threads), known);
  }

  lemma LiveIsExactIff(s: HeapState, ctx: Context, threads: seq<Thread>)
    requires WellFormed(s, ctx) && ThreadsOk(s.objects, threads)
    ensures Live(s, ctx, threads) == ReachableSet(EdgeGraph(s.objects, ctx), RefRoots(s, threads))
            <==> OnlyObtainableLookAlikes(s, ctx, threads)
  {
    ObtainableIsLive(s, ctx, threads);
    if OnlyObtainableLookAlikes(s, ctx, threads) {
      LiveIsObtainable(s, ctx, threads);
    } else {
      var a :| a in s.objects && LooksLike(threads, a)
               && a !in ReachableSet(EdgeGraph(s.objects, ctx), RefRoots(s, threads));
      LookAlikesAreLive(s, ctx, threads, a);
    }
  }

  /** It keeps nothing else exactly when every object that some word looks like a reference to can be reached anyway. */
  lemma GcIsExactIff(r: Run, w: World)
    requires Inv(r, w)
    ensures ThreadsOk(r.heap.objects, r.threads)
    ensures AfterGc(r.heap, Live(r.heap, w.ctx, r.threads)).objects.Keys == Obtainable(r, w)
            <==> OnlyObtainableLookAlikes(r.heap, w.ctx, r.threads)
  {
    InvMeansThreadsOk(r, w);
    LiveIsExactIff(r.heap, w.ctx, r.threads);
    LiveIsClosed(r.heap, w.ctx, r.threads);
    assert AfterGc(r.heap, Live(r.heap, w.ctx, r.threads)).objects.Keys == Live(r.heap, w.ctx, r.threads);
  }

  /**
   Any two references that load_string returned for one literal during a run are the same object, unless one of the
   objects was freed, which happens only to an object that nothing reaches.
   */
  lemma LiteralsAreInterned(r: Run, ops: seq<Op>, w: World, literal: string, a: Addr, n: nat, b: Addr, m: nat)
    requires Inv(r, w) && CanRun(r, ops, w)
    requires (literal, a, n) in After(r, ops, w).returned && (literal, b, m) in After(r, ops, w).returned
    requires IsAllocated(After(r, ops, w).heap, a, n) && IsAllocated(After(r, ops, w).heap, b, m)
    ensures a == b && n == m
  {
  }
}
