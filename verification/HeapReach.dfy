/** What the program has lost: an object that nothing leads to stays out of its reach until it is freed. */
module HeapReach {
  import opened Options
  import opened Reachability
  import opened HeapModel
  import opened Mutator
  import opened HeapClasses
  import opened HeapRuns

  /** What the program can reach, or can get from load_string: the intern table forgets only what was freed. */
  ghost function Recoverable(r: Run, w: World): set<Addr>
    requires Inv(r, w)
  {
    ReachableSet(EdgeGraph(r.heap.objects, w.ctx), RefRoots(r.heap, r.threads) + r.heap.interned.Values)
  }

  // ---- closed sets, one operation at a time ----

  ghost predicate HoldsClasses(objects: Objects, known: set<Addr>)
  {
    forall c :: IsClass(objects, c) ==> c in known
  }

  lemma ClosedAfterAllocation(h: SoundHeap, a: Addr, clazz: Addr, length: nat, serial: nat, known: set<Addr>)
    requires a !in h.objects && a != NULL && Allocatable(h.objects, h.ctx, NewObject(clazz, length, serial))
    requires Closed(Edges(h), known) && HoldsClasses(h.objects, known)
    ensures Shaped(h.objects[a := NewObject(clazz, length, serial)], h.ctx)
    ensures Closed(EdgeGraph(h.objects[a := NewObject(clazz, length, serial)], h.ctx), known + {a})
  {
    var o := NewObject(clazz, length, serial);
    UpdateKeepsShape(h.objects, h.ctx, a, o);
    forall b | RefersTo(h.objects[a := o], h.ctx, a, b) ensures b in known {
      AllocationTargets(h, a, clazz, length, serial, b);
    }
    ClosedAfterUpdate(h, a, o, known);
  }

  lemma ClosedAfterStore(h: SoundHeap, a: Addr, i: nat, word: nat, known: set<Addr>)
    requires a in h.objects && i < |h.objects[a].data| && a in known && Closed(Edges(h), known)
    requires IsRefSlot(h.objects, h.ctx, a, i) ==> word == NULL || word in known
    ensures Shaped(h.objects[a := StoredObject(h.objects[a], i, word)], h.ctx)
    ensures Closed(EdgeGraph(h.objects[a := StoredObject(h.objects[a], i, word)], h.ctx), known)
  {
    var o := StoredObject(h.objects[a], i, word);
    UpdateKeepsShape(h.objects, h.ctx, a, o);
    forall b | RefersTo(h.objects[a := o], h.ctx, a, b) ensures b in known {
      StoreTargets(h, a, i, word, b);
    }
    ClosedAfterUpdate(h, a, o, known);
    assert known + {a} == known;
  }

  lemma ClosedAfterStaticStore(h: SoundHeap, c: Addr, i: nat, word: nat, known: set<Addr>)
    requires IsClass(h.objects, c) && i < |File(h.objects, c).statics| && c in known && Closed(Edges(h), known)
    requires DeclaresSlot(File(h.objects, c), true, i) ==> word == NULL || word in known
    ensures Shaped(h.objects[c := StaticStoredObject(h.objects[c], i, word)], h.ctx)
    ensures Closed(EdgeGraph(h.objects[c := StaticStoredObject(h.objects[c], i, word)], h.ctx), known)
  {
    var o := StaticStoredObject(h.objects[c], i, word);
    UpdateKeepsShape(h.objects, h.ctx, c, o);
    forall b | RefersTo(h.objects[c := o], h.ctx, c, b) ensures b in known {
      StaticStoreTargets(h, c, i, word, b);
    }
    ClosedAfterUpdate(h, c, o, known);
    assert known + {c} == known;
  }

  lemma ClosedAfterTwoAllocations(s: HeapState, ctx: Context, cs: StringClasses, chars: Addr, str: Addr, length: nat,
                                  known: set<Addr>)
    requires WellFormed(s, ctx) && CanLoadString(s, ctx, cs, chars, str, length)
    requires Closed(EdgeGraph(s.objects, ctx), known) && HoldsClasses(s.objects, known)
    ensures var s2 := Allocated(Allocated(s, chars, cs.byteArray, length), str, cs.javaString, cs.fieldCount);
            WellFormed(s2, ctx) && Closed(EdgeGraph(s2.objects, ctx), known + {chars} + {str})
  {
    var s1 := Allocated(s, chars, cs.byteArray, length);
    var o := NewObject(cs.javaString, cs.fieldCount, s1.nextSerial);
    ClosedAfterAllocation(Shape(s.objects, ctx), chars, cs.byteArray, length, s.nextSerial, known);
    AllocationIsSafe(s, ctx, chars, cs.byteArray, length);
    AllocatableLater(s, ctx, chars, cs.byteArray, length, o);
    ClosedAfterAllocation(Shape(s1.objects, ctx), str, cs.javaString, cs.fieldCount, s1.nextSerial, known + {chars});
    TwoAllocationsAreSafe(s, ctx, cs, chars, str, length);
  }

  lemma ClosedAfterString(s: HeapState, ctx: Context, cs: StringClasses, chars: Addr, str: Addr, length: nat,
                          known: set<Addr>)
    requires WellFormed(s, ctx) && CanLoadString(s, ctx, cs, chars, str, length)
    requires Closed(EdgeGraph(s.objects, ctx), known) && HoldsClasses(s.objects, known)
    ensures WellFormed(MadeString(s, cs, chars, str, length), ctx)
    ensures Closed(EdgeGraph(MadeString(s, cs, chars, str, length).objects, ctx), known + {chars} + {str})
  {
    var s2 := Allocated(Allocated(s, chars, cs.byteArray, length), str, cs.javaString, cs.fieldCount);
    ClosedAfterTwoAllocations(s, ctx, cs, chars, str, length, known);
    TwoAllocationsAreSafe(s, ctx, cs, chars, str, length);
    ClosedAfterTwoStores(s2, ctx, cs, chars, str, known + {chars} + {str});
    MadeStringIsSafe(s, ctx, cs, chars, str, length);
  }

  lemma ClosedAfterTwoStores(s: HeapState, ctx: Context, cs: StringClasses, chars: Addr, str: Addr, known: set<Addr>)
    requires WellFormed(s, ctx) && chars in s.objects && str in s.objects && chars in known && str in known
    requires s.objects[str].clazz == cs.javaString && 2 <= |s.objects[str].data|
    requires IsClass(s.objects, cs.javaString) && !File(s.objects, cs.javaString).isArray
    requires !IsInstanceSlot(s.objects, ctx.rank, cs.javaString, CODER_SLOT)
    requires Closed(EdgeGraph(s.objects, ctx), known)
    ensures var s2 := Stored(Stored(s, str, VALUE_SLOT, chars), str, CODER_SLOT, UTF16);
            WellFormed(s2, ctx) && Closed(EdgeGraph(s2.objects, ctx), known)
  {
    var s1 := Stored(s, str, VALUE_SLOT, chars);
    StoreIsSafe(s, ctx, str, VALUE_SLOT, chars);
    ClosedAfterStore(Shape(s.objects, ctx), str, VALUE_SLOT, chars, known);
    CoderIsNoReference(s, ctx, str, StoredObject(s.objects[str], VALUE_SLOT, chars), cs.javaString);
    StoreIsSafe(s1, ctx, str, CODER_SLOT, UTF16);
    ClosedAfterStore(Shape(s1.objects, ctx), str, CODER_SLOT, UTF16, known);
  }

  lemma ClosedAfterGc(s: HeapState, ctx: Context, live: set<Addr>, known: set<Addr>)
    requires WellFormed(s, ctx) && Keepable(s, ctx, live) && Closed(EdgeGraph(s.objects, ctx), known)
    ensures Shaped(AfterGc(s, live).objects, ctx)
    ensures Closed(EdgeGraph(AfterGc(s, live).objects, ctx), known)
  {
    SweptKeepsEdges(s, ctx, live);
  }

  // ---- one operation ----

  lemma RefRootsWithin(s: HeapState, threads: seq<Thread>, known: set<Addr>)
    requires RefsWithin(threads, known) && HoldsClasses(s.objects, known) && NULL !in s.objects
    ensures RefRoots(s, threads) <= known
  {
    forall a | a in RefRoots(s, threads) ensures a in known {
      if !IsClass(s.objects, a) {
        var t :| t in threads && Uses(t, a);
        if a != t.exception && a != t.threadObject {
          var f :| f in t.frames && IsWord(f, Ref(a));
        }
      }
    }
  }

  /** Whatever the threads use is obtainable. */
  lemma ThreadsUseObtainable(r: Run, w: World)
    requires Inv(r, w)
    ensures RefsWithin(r.threads, Obtainable(r, w))
  {
    InvMeansThreadsOk(r, w);
    ReachableSetIsClosed(EdgeGraph(r.heap.objects, w.ctx), RefRoots(r.heap, r.threads));
    forall t | t in r.threads
      ensures t.exception == NULL || t.exception in Obtainable(r, w)
      ensures t.threadObject == NULL || t.threadObject in Obtainable(r, w)
      ensures forall f, v :: f in t.frames && IsWord(f, v) && v.Ref? ==> v.word == NULL || v.word in Obtainable(r, w)
    {
      UsedIsRefRoot(r.heap, r.threads, t);
    }
  }

  lemma UsedIsRefRoot(s: HeapState, threads: seq<Thread>, t: Thread)
    requires RefsWithin(threads, s.objects.Keys) && t in threads
    ensures t.exception == NULL || t.exception in RefRoots(s, threads)
    ensures t.threadObject == NULL || t.threadObject in RefRoots(s, threads)
    ensures forall f, v :: f in t.frames && IsWord(f, v) && v.Ref? ==> v.word == NULL || v.word in RefRoots(s, threads)
  {
    assert t.exception in s.objects ==> Uses(t, t.exception);
    assert t.threadObject in s.objects ==> Uses(t, t.threadObject);
    forall f, v | f in t.frames && IsWord(f, v) && v.Ref? && v.word != NULL ensures v.word in RefRoots(s, threads) {
      assert v == Ref(v.word) && Uses(t, v.word);
    }
  }

  /** What is recoverable is closed, and holds the classes, what the threads use and the intern table. */
  lemma RecoverableHolds(r: Run, w: World)
    requires Inv(r, w)
    ensures Closed(EdgeGraph(r.heap.objects, w.ctx), Recoverable(r, w))
    ensures HoldsClasses(r.heap.objects, Recoverable(r, w))
    ensures Obtainable(r, w) <= Recoverable(r, w) && RefsWithin(r.threads, Recoverable(r, w))
    ensures forall k :: k in r.heap.interned ==> r.heap.interned[k] in Recoverable(r, w)
  {
    var g := EdgeGraph(r.heap.objects, w.ctx);
    InvMeansThreadsOk(r, w);
    assert forall k :: k in r.heap.interned ==> r.heap.interned[k] in r.heap.objects;
    ReachableSetIsClosed(g, RefRoots(r.heap, r.threads) + r.heap.interned.Values);
    ReachableWithin(g, RefRoots(r.heap, r.threads), Recoverable(r, w));
    ThreadsUseObtainable(r, w);
    RefsGrow(r.threads, Obtainable(r, w), Recoverable(r, w));
  }

  /** A set that holds everything recoverable. */
  ghost predicate Covers(s: HeapState, threads: seq<Thread>, ctx: Context, known: set<Addr>)
    requires Shaped(s.objects, ctx)
  {
    && Closed(EdgeGraph(s.objects, ctx), known) && HoldsClasses(s.objects, known)
    && RefsWithin(threads, known) && forall k :: k in s.interned ==> s.interned[k] in known
  }

  lemma CoversRecoverable(r: Run, w: World, known: set<Addr>)
    requires Inv(r, w) && Covers(r.heap, r.threads, w.ctx, known)
    ensures Recoverable(r, w) <= known
  {
    RefRootsWithin(r.heap, r.threads, known);
    ReachableWithin(EdgeGraph(r.heap.objects, w.ctx), RefRoots(r.heap, r.threads) + r.heap.interned.Values, known);
  }

  function Fresh(op: Op): set<Addr>
  {
    match op
    case Allocate(a, _, _, _) => {a}
    case LoadString(_, chars, str, _, _) => {chars} + {str}
    case LoadClass(c, _, _) => {c}
    case _ => {}
  }

  lemma AllocateCovers(s: HeapState, ctx: Context, a: Addr, clazz: Addr, length: nat, threads: seq<Thread>,
                       threads': seq<Thread>, known: set<Addr>)
    requires WellFormed(s, ctx) && CanAllocate(s, ctx, a, clazz, length)
    requires Covers(s, threads, ctx, known) && RefsWithin(threads', known + {a})
    ensures WellFormed(Allocated(s, a, clazz, length), ctx)
    ensures Covers(Allocated(s, a, clazz, length), threads', ctx, known + {a})
  {
    AllocationIsSafe(s, ctx, a, clazz, length);
    ClosedAfterAllocation(Shape(s.objects, ctx), a, clazz, length, s.nextSerial, known);
  }

  lemma StoreCovers(s: HeapState, ctx: Context, a: Addr, i: nat, word: nat, threads: seq<Thread>, known: set<Addr>)
    requires WellFormed(s, ctx) && Covers(s, threads, ctx, known)
    requires a in s.objects && i < |s.objects[a].data| && a in known
    requires IsRefSlot(s.objects, ctx, a, i) ==> word == NULL || (word in known && word in s.objects)
    ensures WellFormed(Stored(s, a, i, word), ctx)
    ensures Covers(Stored(s, a, i, word), threads, ctx, known)
  {
    StoreIsSafe(s, ctx, a, i, word);
    ClosedAfterStore(Shape(s.objects, ctx), a, i, word, known);
  }

  lemma StaticStoreCovers(s: HeapState, ctx: Context, c: Addr, i: nat, word: nat, threads: seq<Thread>,
                          known: set<Addr>)
    requires WellFormed(s, ctx) && Covers(s, threads, ctx, known)
    requires IsClass(s.objects, c) && i < |File(s.objects, c).statics|
    requires DeclaresSlot(File(s.objects, c), true, i) ==> word == NULL || (word in known && word in s.objects)
    ensures WellFormed(StaticStored(s, c, i, word), ctx)
    ensures Covers(StaticStored(s, c, i, word), threads, ctx, known)
  {
    StaticStoreIsSafe(s, ctx, c, i, word);
    ClosedAfterStaticStore(Shape(s.objects, ctx), c, i, word, known);
  }

  lemma OldStringCovers(s: HeapState, ctx: Context, chars: Addr, str: Addr, threads: seq<Thread>, known: set<Addr>)
    requires Shaped(s.objects, ctx) && chars !in s.objects && str !in s.objects
    requires Closed(EdgeGraph(s.objects, ctx), known) && HoldsClasses(s.objects, known)
    requires forall k :: k in s.interned ==> s.interned[k] in known
    requires RefsWithin(threads, known)
    ensures Covers(s, threads, ctx, known + {chars} + {str})
  {
    ClosedWithStrangers(EdgeGraph(s.objects, ctx), known, {chars} + {str});
    assert known + ({chars} + {str}) == known + {chars} + {str};
    RefsGrow(threads, known, known + {chars} + {str});
  }

  lemma NewStringCovers(s: HeapState, ctx: Context, cs: StringClasses, literal: string, chars: Addr, str: Addr,
                        length: nat, threads: seq<Thread>, known: set<Addr>)
    requires WellFormed(s, ctx) && CanLoadString(s, ctx, cs, chars, str, length) && literal !in s.interned
    requires Closed(EdgeGraph(s.objects, ctx), known) && HoldsClasses(s.objects, known)
    requires forall k :: k in s.interned ==> s.interned[k] in known
    requires RefsWithin(threads, known + {str})
    ensures WellFormed(LoadedString(s, cs, literal, chars, str, length), ctx)
    ensures Covers(LoadedString(s, cs, literal, chars, str, length), threads, ctx, known + {chars} + {str})
  {
    LoadedStringIsSafe(s, ctx, cs, literal, chars, str, length);
    ClosedAfterString(s, ctx, cs, chars, str, length, known);
    MadeObjects(s, cs, chars, str, length);
    RefsGrow(threads, known + {str}, known + {chars} + {str});
  }

  lemma ClosedWithStrangers(g: Graph, known: set<Addr>, more: set<Addr>)
    requires Closed(g, known) && more !! g.Keys
    ensures Closed(g, known + more)
  {
  }

  lemma LoadClassCovers(s: HeapState, ctx: Context, c: Addr, file: ClassFile, data: seq<Addr>, threads: seq<Thread>,
                        known: set<Addr>)
    requires WellFormed(s, ctx) && CanLoadClass(s, ctx, c, file, data) && Covers(s, threads, ctx, known)
    ensures WellFormed(LoadedClass(s, ctx, c, file, data), ctx)
    ensures Covers(LoadedClass(s, ctx, c, file, data), threads, ctx, known + {c})
  {
    LoadedClassIsSafe(s, ctx, c, file, data);
    LoadDefines(s, ctx, c, file, data);
    ClosedAfterDefine(Shape(s.objects, ctx), c, ClassObject(ctx, file, data, s.nextSerial), known);
    RefsGrow(threads, known, known + {c});
  }

  lemma ResolveClassCovers(s: HeapState, ctx: Context, c: Addr, file: ClassFile, threads: seq<Thread>, known: set<Addr>)
    requires WellFormed(s, ctx) && CanResolveClass(s, ctx, c, file) && Covers(s, threads, ctx, known)
    ensures WellFormed(ResolvedClass(s, c, file), ctx)
    ensures Covers(ResolvedClass(s, c, file), threads, ctx, known)
  {
    ResolvedClassIsSafe(s, ctx, c, file);
    ClosedAfterResolve(s, ctx, c, file, known);
  }

  lemma ClosedAfterResolve(s: HeapState, ctx: Context, c: Addr, file: ClassFile, known: set<Addr>)
    requires WellFormed(s, ctx) && CanResolveClass(s, ctx, c, file) && Shaped(ResolvedClass(s, c, file).objects, ctx)
    requires Closed(EdgeGraph(s.objects, ctx), known) && HoldsClasses(s.objects, known)
    ensures Closed(EdgeGraph(ResolvedClass(s, c, file).objects, ctx), known)
  {
    ResolveDefines(s, ctx, c, file);
    ClosedAfterDefine(Shape(s.objects, ctx), c, s.objects[c].(file := Some(file)), known);
    assert known + {c} == known;
  }

  lemma GcCovers(s: HeapState, ctx: Context, threads: seq<Thread>, known: set<Addr>)
    requires WellFormed(s, ctx) && ThreadsOk(s.objects, threads) && Covers(s, threads, ctx, known)
    ensures WellFormed(AfterGc(s, Live(s, ctx, threads)), ctx)
    ensures Covers(AfterGc(s, Live(s, ctx, threads)), threads, ctx, known)
  {
    LiveIsKeepable(s, ctx, threads);
    GcKeepsWellFormed(s, ctx, threads);
    ClosedAfterGc(s, ctx, Live(s, ctx, threads), known);
  }

  lemma AllocateStepCovers(r: Run, op: Op, w: World, known: set<Addr>)
    requires Inv(r, w) && op.Allocate? && Enabled(r, op, w)
    requires Covers(r.heap, r.threads, w.ctx, known) && Obtainable(r, w) <= known
    ensures Inv(Apply(r, op, w), w)
    ensures Covers(Apply(r, op, w).heap, Apply(r, op, w).threads, w.ctx, known + {op.a})
  {
    StepKeepsInv(r, op, w);
    RefsGrow(op.threads', Obtainable(r, w) + {op.a}, known + {op.a});
    AllocateCovers(r.heap, w.ctx, op.a, op.clazz, op.length, r.threads, op.threads', known);
  }

  lemma LoadClassStepCovers(r: Run, op: Op, w: World, known: set<Addr>)
    requires Inv(r, w) && op.LoadClass? && Enabled(r, op, w)
    requires Covers(r.heap, r.threads, w.ctx, known)
    ensures Inv(Apply(r, op, w), w)
    ensures Covers(Apply(r, op, w).heap, Apply(r, op, w).threads, w.ctx, known + {op.c})
  {
    StepKeepsInv(r, op, w);
    LoadClassCovers(r.heap, w.ctx, op.c, op.file, op.data, r.threads, known);
  }

  lemma OldStringStepCovers(r: Run, op: Op, w: World, known: set<Addr>)
    requires Inv(r, w) && op.LoadString? && Enabled(r, op, w) && op.literal in r.heap.interned
    requires Covers(r.heap, r.threads, w.ctx, known) && Obtainable(r, w) <= known
    ensures Covers(r.heap, op.threads', w.ctx, known + {op.chars} + {op.str})
  {
    RefsGrow(op.threads', Obtainable(r, w) + {LoadedReference(r.heap, op.literal, op.str)}, known);
    OldStringCovers(r.heap, w.ctx, op.chars, op.str, op.threads', known);
  }

  lemma NewStringStepCovers(r: Run, op: Op, w: World, known: set<Addr>)
    requires Inv(r, w) && op.LoadString? && Enabled(r, op, w) && op.literal !in r.heap.interned
    requires Covers(r.heap, r.threads, w.ctx, known) && Obtainable(r, w) <= known
    ensures var s' := LoadedString(r.heap, w.strings, op.literal, op.chars, op.str, op.length);
            WellFormed(s', w.ctx) && Covers(s', op.threads', w.ctx, known + {op.chars} + {op.str})
  {
    RefsGrow(op.threads', Obtainable(r, w) + {op.str}, known + {op.str});
    NewStringCovers(r.heap, w.ctx, w.strings, op.literal, op.chars, op.str, op.length, op.threads', known);
  }

  lemma StringStepCovers(r: Run, op: Op, w: World, known: set<Addr>)
    requires Inv(r, w) && op.LoadString? && Enabled(r, op, w)
    requires Covers(r.heap, r.threads, w.ctx, known) && Obtainable(r, w) <= known
    ensures Inv(Apply(r, op, w), w)
    ensures Covers(Apply(r, op, w).heap, Apply(r, op, w).threads, w.ctx, known + {op.chars} + {op.str})
  {
    StepKeepsInv(r, op, w);
    if op.literal in r.heap.interned {
      OldStringStepCovers(r, op, w, known);
    } else {
      NewStringStepCovers(r, op, w, known);
    }
  }

  /** The operations that make no object. */
  lemma OldStepCovers(r: Run, op: Op, w: World, known: set<Addr>)
    requires Inv(r, w) && Enabled(r, op, w)
    requires op.Store? || op.StoreStatic? || op.Execute? || op.ResolveClass? || op.Gc?
    requires Covers(r.heap, r.threads, w.ctx, known) && Obtainable(r, w) <= known
    ensures Inv(Apply(r, op, w), w)
    ensures Covers(Apply(r, op, w).heap, Apply(r, op, w).threads, w.ctx, known)
  {
    StepKeepsInv(r, op, w);
    match op
    case Store(a, i, word) => StoreCovers(r.heap, w.ctx, a, i, word, r.threads, known);
    case StoreStatic(c, i, word) => StaticStoreCovers(r.heap, w.ctx, c, i, word, r.threads, known);
    case Execute(threads') => RefsGrow(threads', Obtainable(r, w), known);
    case ResolveClass(c, file) => ResolveClassCovers(r.heap, w.ctx, c, file, r.threads, known);
    case Gc =>
      InvMeansThreadsOk(r, w);
      GcCovers(r.heap, w.ctx, r.threads, known);
  }

  /** After an operation nothing old is recoverable that was not so before. */
  lemma StepRecovers(r: Run, op: Op, w: World)
    requires Inv(r, w) && Enabled(r, op, w)
    ensures Inv(Apply(r, op, w), w) && Recoverable(Apply(r, op, w), w) <= Recoverable(r, w) + Fresh(op)
  {
    var known := Recoverable(r, w);
    RecoverableHolds(r, w);
    StepKeepsInv(r, op, w);
    if op.Allocate? {
      AllocateStepCovers(r, op, w, known);
      CoversRecoverable(Apply(r, op, w), w, known + {op.a});
    } else if op.LoadString? {
      StringStepCovers(r, op, w, known);
      CoversRecoverable(Apply(r, op, w), w, known + {op.chars} + {op.str});
    } else if op.LoadClass? {
      LoadClassStepCovers(r, op, w, known);
      CoversRecoverable(Apply(r, op, w), w, known + {op.c});
    } else {
      OldStepCovers(r, op, w, known);
      CoversRecoverable(Apply(r, op, w), w, known);
    }
  }

  // ---- whole runs ----

  /** The object number n, if it is at x at all, is out of reach. */
  ghost predicate Lost(r: Run, w: World, x: Addr, n: nat)
    requires Inv(r, w)
  {
    n < r.heap.nextSerial && (IsAllocated(r.heap, x, n) ==> x !in Recoverable(r, w))
  }

  /** Objects keep their numbers, and new ones get larger numbers. */
  ghost predicate Numbered(s: HeapState, s': HeapState, x: Addr)
  {
    x in s'.objects ==>
      s'.objects[x].serial >= s.nextSerial || (x in s.objects && s'.objects[x].serial == s.objects[x].serial)
  }

  lemma StringIsNumbered(s: HeapState, cs: StringClasses, chars: Addr, str: Addr, length: nat, x: Addr)
    requires chars != str && 2 <= cs.fieldCount
    ensures Numbered(s, MadeString(s, cs, chars, str, length), x)
    ensures MadeString(s, cs, chars, str, length).nextSerial == s.nextSerial + 2
  {
  }

  lemma StringStepIsNumbered(r: Run, op: Op, w: World, x: Addr)
    requires Inv(r, w) && Enabled(r, op, w) && op.LoadString?
    ensures Numbered(r.heap, Apply(r, op, w).heap, x)
  {
    if op.literal !in r.heap.interned {
      StringIsNumbered(r.heap, w.strings, op.chars, op.str, op.length, x);
    }
  }

  lemma GcStepIsNumbered(r: Run, w: World, x: Addr)
    requires Inv(r, w)
    ensures Numbered(r.heap, Apply(r, Gc, w).heap, x)
  {
    InvMeansThreadsOk(r, w);
  }

  lemma PlainStepIsNumbered(r: Run, op: Op, w: World, x: Addr)
    requires Inv(r, w) && Enabled(r, op, w)
    requires op.Allocate? || op.Store? || op.StoreStatic? || op.Execute?
    ensures Numbered(r.heap, Apply(r, op, w).heap, x)
  {
  }

  lemma ClassStepIsNumbered(r: Run, op: Op, w: World, x: Addr)
    requires Inv(r, w) && Enabled(r, op, w)
    requires op.LoadClass? || op.ResolveClass?
    ensures Numbered(r.heap, Apply(r, op, w).heap, x)
  {
  }

  lemma StepIsNumbered(r: Run, op: Op, w: World, x: Addr)
    requires Inv(r, w) && Enabled(r, op, w)
    ensures Numbered(r.heap, Apply(r, op, w).heap, x)
  {
    match op
    case LoadString(_, _, _, _, _) => StringStepIsNumbered(r, op, w, x);
    case LoadClass(_, _, _) => ClassStepIsNumbered(r, op, w, x);
    case ResolveClass(_, _) => ClassStepIsNumbered(r, op, w, x);
    case Gc => GcStepIsNumbered(r, w, x);
    case _ => PlainStepIsNumbered(r, op, w, x);
  }

  lemma SerialsGrow(r: Run, op: Op, w: World)
    requires Inv(r, w) && Enabled(r, op, w)
    ensures r.heap.nextSerial <= Apply(r, op, w).heap.nextSerial
  {
  }

  lemma FreshIsNew(r: Run, op: Op, w: World)
    requires Inv(r, w) && Enabled(r, op, w)
    ensures Fresh(op) !! r.heap.objects.Keys
  {
  }

  lemma StepKeepsLost(r: Run, op: Op, w: World, x: Addr, n: nat)
    requires Inv(r, w) && Enabled(r, op, w) && Lost(r, w, x, n)
    ensures Inv(Apply(r, op, w), w) && Lost(Apply(r, op, w), w, x, n)
  {
    StepRecovers(r, op, w);
    FreshIsNew(r, op, w);
    SerialsGrow(r, op, w);
    if IsAllocated(Apply(r, op, w).heap, x, n) {
      StepIsNumbered(r, op, w, x);
    }
  }

  /** An object that neither the program nor the intern table leads to never comes back, however long it stays. */
  lemma {:induction false} LostStaysLost(r: Run, ops: seq<Op>, w: World, x: Addr, n: nat)
    requires Inv(r, w) && CanRun(r, ops, w) && Lost(r, w, x, n)
    ensures Lost(After(r, ops, w), w, x, n)
    decreases |ops|
  {
    if ops != [] {
      StepKeepsLost(r, ops[0], w, x, n);
      LostStaysLost(Apply(r, ops[0], w), ops[1..], w, x, n);
    }
  }

  /** And what is not recoverable the program cannot reach. */
  lemma LostIsNotObtainable(r: Run, ops: seq<Op>, w: World, x: Addr, n: nat)
    requires Inv(r, w) && CanRun(r, ops, w) && Lost(r, w, x, n)
    ensures var r' := After(r, ops, w); IsAllocated(r'.heap, x, n) ==> x !in Obtainable(r', w)
  {
    LostStaysLost(r, ops, w, x, n);
    RecoverableHolds(After(r, ops, w), w);
  }

  /** The reference is the result of an instruction: it is on top of the operand stack of the thread's last frame. */
  function Receives(t: Thread, a: Addr): Thread
    requires CanReceive(t)
  {
    var n := |t.frames| - 1;
    var f := t.frames[n];
    t.(frames := t.frames[n := Frame(f.locals, f.operands[..f.top] + [Ref(a)], f.top + 1)])
  }

  /** The table has to count: load_string brings a string back that nothing else leads to. */
  lemma LoadStringBringsBack(r: Run, w: World, k: nat, literal: string, chars: Addr, str: Addr, length: nat)
    returns (op: Op)
    requires Inv(r, w) && literal in r.heap.interned && r.heap.interned[literal] !in Obtainable(r, w)
    requires CanLoadString(r.heap, w.ctx, w.strings, chars, str, length)
    requires k < |r.threads| && r.threads[k].frames != []
    ensures CanReceive(r.threads[k])
    ensures var a := r.heap.interned[literal];
            op == LoadString(literal, chars, str, length, r.threads[k := Receives(r.threads[k], a)])
    ensures Enabled(r, op, w) && Inv(Apply(r, op, w), w)
    ensures Apply(r, op, w).heap == r.heap && r.heap.interned[literal] in Obtainable(Apply(r, op, w), w)
  {
    var a := r.heap.interned[literal];
    InvMeansThreadsOk(r, w);
    assert r.threads[k] in r.threads;
    op := LoadString(literal, chars, str, length, r.threads[k := Receives(r.threads[k], a)]);
    ThreadsUseObtainable(r, w);
    ReceivedIsWithin(r.threads, k, Obtainable(r, w), a);
    StepKeepsInv(r, op, w);
    var r1 := Apply(r, op, w);
    InvMeansThreadsOk(r1, w);
    ReceivedIsUsed(r.threads, k, a);
    ReachableSetIsClosed(EdgeGraph(r1.heap.objects, w.ctx), RefRoots(r1.heap, r1.threads));
    assert a in r.heap.objects;
  }

  predicate CanReceive(t: Thread)
  {
    t.frames != [] && t.frames[|t.frames| - 1].top <= |t.frames[|t.frames| - 1].operands|
  }

  lemma ReceivedIsWithin(threads: seq<Thread>, k: nat, known: set<Addr>, a: Addr)
    requires RefsWithin(threads, known) && k < |threads| && CanReceive(threads[k])
    ensures RefsWithin(threads[k := Receives(threads[k], a)], known + {a})
  {
    RefsGrow(threads, known, known + {a});
    var t := threads[k];
    var t' := Receives(t, a);
    forall f, v | f in t'.frames && f.top <= |f.operands| && IsWord(f, v) && v.Ref?
      ensures v.word == NULL || v.word in known + {a}
    {
      ReceivedWord(t, a, f, v);
    }
  }

  lemma ReceivedWord(t: Thread, a: Addr, f: Frame, v: Slot)
    requires ThreadOk(t) && CanReceive(t) && f in Receives(t, a).frames
    ensures f.top <= |f.operands|
    ensures IsWord(f, v) ==> v == Ref(a) || exists g :: g in t.frames && IsWord(g, v)
  {
    var n := |t.frames| - 1;
    assert t.frames[n] in t.frames;
    if f !in t.frames {
      assert f.operands[..f.top] == t.frames[n].operands[..t.frames[n].top] + [Ref(a)];
    }
  }

  lemma ReceivedIsUsed(threads: seq<Thread>, k: nat, a: Addr)
    requires (forall t :: t in threads ==> ThreadOk(t)) && k < |threads| && CanReceive(threads[k])
    ensures forall t :: t in threads[k := Receives(threads[k], a)] ==> ThreadOk(t)
    ensures SomeUses(threads[k := Receives(threads[k], a)], a)
  {
    var t := Receives(threads[k], a);
    var f := t.frames[|t.frames| - 1];
    assert threads[k] in threads && threads[k := t][k] == t;
    assert f.operands[f.top - 1] == Ref(a) && IsWord(f, Ref(a));
    forall g | g in t.frames ensures g.top <= |g.operands| {
      ReceivedWord(threads[k], a, g, Ref(a));
    }
    assert Uses(t, a);
  }
}
