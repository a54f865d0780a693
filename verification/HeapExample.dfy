/** Runs from java.lang.Class alone: one that makes a String, and one in which the collector keeps garbage. */
module HeapExample {
  import opened Options
  import opened Reachability
  import opened HeapModel
  import opened Mutator
  import opened HeapClasses
  import opened HeapRuns
  import opened HeapReach

  const BYTE: Addr := 32
  const BYTES: Addr := 48
  const STRING: Addr := 64

  function NewFile(fields: seq<Field>, isPrimitive: bool, isArray: bool): ClassFile
  {
    ClassFile(NULL, [], fields, [], isArray, isPrimitive, if isArray then BYTE else NULL, false)
  }

  function StringFields(): seq<Field>
  {
    [Field(false, true, VALUE_SLOT), Field(false, false, CODER_SLOT)]
  }

  ghost function Start(): Run
  {
    Run(HeapState(BOOT.objects, map[ALIGNMENT := false], [], [ALIGNMENT], map[], false, 1), [], {})
  }

  ghost function ExampleWorld(): World
  {
    World(BOOT.ctx, StringClasses(BYTES, STRING, 2))
  }

  lemma StartKeepsInv()
    ensures Inv(Start(), ExampleWorld())
  {
    BootIsSound();
  }

  /** These operations lead from the start to r. */
  ghost predicate IsRun(ops: seq<Op>, r: Run)
  {
    && Inv(Start(), ExampleWorld()) && CanRun(Start(), ops, ExampleWorld())
    && After(Start(), ops, ExampleWorld()) == r
  }

  lemma {:induction false} AfterOne(r: Run, ops: seq<Op>, op: Op, w: World)
    requires Inv(r, w) && CanRun(r, ops, w) && Enabled(After(r, ops, w), op, w)
    ensures CanRun(r, ops + [op], w) && After(r, ops + [op], w) == Apply(After(r, ops, w), op, w)
    decreases |ops|
  {
    if ops == [] {
      AddedFirst(op);
      OneRuns(r, op, w);
    } else {
      FirstRuns(r, ops, w);
      var r1, more := Apply(r, ops[0], w), ops + [op];
      AddedLast(ops, op);
      AfterOne(r1, ops[1..], op, w);
      Continues(r, more, w);
    }
  }

  lemma OneRuns(r: Run, op: Op, w: World)
    requires Inv(r, w) && Enabled(r, op, w)
    ensures CanRun(r, [op], w) && After(r, [op], w) == Apply(r, op, w)
  {
    StepKeepsInv(r, op, w);
    AddedFirst(op);
    Continues(r, [op], w);
  }

  lemma AddedFirst(op: Op)
    ensures [] + [op] == [op] && [op][1..] == []
  {
  }

  lemma AddedLast(ops: seq<Op>, op: Op)
    requires ops != []
    ensures (ops + [op])[0] == ops[0] && (ops + [op])[1..] == ops[1..] + [op]
  {
  }

  lemma FirstRuns(r: Run, ops: seq<Op>, w: World)
    requires Inv(r, w) && ops != [] && CanRun(r, ops, w)
    ensures Enabled(r, ops[0], w) && Inv(Apply(r, ops[0], w), w) && CanRun(Apply(r, ops[0], w), ops[1..], w)
    ensures After(r, ops, w) == After(Apply(r, ops[0], w), ops[1..], w)
  {
    StepKeepsInv(r, ops[0], w);
  }

  lemma Continues(r: Run, ops: seq<Op>, w: World)
    requires Inv(r, w) && ops != [] && Enabled(r, ops[0], w) && Inv(Apply(r, ops[0], w), w)
    requires CanRun(Apply(r, ops[0], w), ops[1..], w)
    ensures CanRun(r, ops, w) && After(r, ops, w) == After(Apply(r, ops[0], w), ops[1..], w)
  {
  }

  /** Classes here have no supertypes and no static fields, java.lang.Class has no fields, and there are no threads. */
  ghost predicate Simple(r: Run)
  {
    r.threads == [] && HasPlainClasses(r.heap.objects)
  }

  predicate IsPlain(o: Object)
  {
    o.clazz == ALIGNMENT && o.file.Some?
    && o.file.value.superClass == NULL && o.file.value.interfaces == [] && o.file.value.statics == []
  }

  ghost predicate Good(r: Run)
  {
    Inv(r, ExampleWorld()) && Simple(r)
  }

  type Consistent = r: Run | Good(r) ghost witness StartWitness()

  ghost function StartWitness(): (r: Run)
    ensures r == Start() && Good(r)
  {
    StartKeepsInv();
    Start()
  }

  ghost function ClassAt(fields: seq<Field>, isPrimitive: bool, isArray: bool, serial: nat): Object
  {
    ClassObject(BOOT.ctx, NewFile(fields, isPrimitive, isArray), [], serial)
  }

  lemma LoadNext(ops: seq<Op>, r: Consistent, c: Addr, fields: seq<Field>, isPrimitive: bool, isArray: bool)
    returns (r': Consistent)
    requires IsRun(ops, r)
    requires c !in r.heap.objects && IsPotentialPointer(c) && (isArray ==> IsClass(r.heap.objects, BYTE))
    ensures IsRun(ops + [LoadClass(c, NewFile(fields, isPrimitive, isArray), [])], r')
    ensures r'.heap.objects == r.heap.objects[c := ClassAt(fields, isPrimitive, isArray, r.heap.nextSerial)]
  {
    var file := NewFile(fields, isPrimitive, isArray);
    CanLoadNext(r, c, file);
    AfterOne(Start(), ops, LoadClass(c, file, []), ExampleWorld());
    r' := Loaded(r, c, file);
  }

  ghost function Loaded(r: Consistent, c: Addr, file: ClassFile): (r': Consistent)
    requires c !in r.heap.objects && IsPotentialPointer(c) && (file.isArray ==> IsClass(r.heap.objects, BYTE))
    requires file == NewFile(file.fields, file.isPrimitive, file.isArray)
    ensures Enabled(r, LoadClass(c, file, []), ExampleWorld())
    ensures r' == Apply(r, LoadClass(c, file, []), ExampleWorld())
    ensures r'.heap == LoadedClass(r.heap, BOOT.ctx, c, file, [])
  {
    CanLoadNext(r, c, file);
    StepKeepsInv(r, LoadClass(c, file, []), ExampleWorld());
    Apply(r, LoadClass(c, file, []), ExampleWorld())
  }

  lemma CanLoadNext(r: Consistent, c: Addr, file: ClassFile)
    requires c !in r.heap.objects && IsPotentialPointer(c)
    requires !file.resolved && file.superClass == NULL && file.interfaces == [] && file.statics == []
    requires file.isArray ==> IsClass(r.heap.objects, file.arrayElement)
    ensures Enabled(r, LoadClass(c, file, []), ExampleWorld())
    ensures Simple(Apply(r, LoadClass(c, file, []), ExampleWorld()))
  {
  }

  // ---- a String ----

  /** The classes loaded so far, up to c: byte among them. */
  ghost predicate LoadedUpTo(objects: Objects, c: Addr)
  {
    IsClass(objects, BYTE) && forall a :: a in objects ==> a <= c
  }

  lemma LoadedNext(objects: Objects, c: Addr, c': Addr, o: Object)
    requires LoadedUpTo(objects, c) && c < c' && o.file.Some?
    ensures LoadedUpTo(objects[c' := o], c')
  {
  }

  lemma LoadedFirst(o: Object)
    requires o.file.Some?
    ensures LoadedUpTo(BOOT.objects[BYTE := o], BYTE)
  {
  }

  lemma KeepsFile(objects: Objects, c: Addr, file: ClassFile, c': Addr, o: Object)
    requires HasFile(objects, c, file) && c != c'
    ensures HasFile(objects[c' := o], c, file)
  {
  }

  function LoadBytesOps(): seq<Op>
  {
    [LoadClass(BYTE, NewFile([], true, false), [])] + [LoadClass(BYTES, NewFile([], false, true), [])]
  }

  /** Three classes are loaded, and the last one is resolved. */
  function StringOps(): seq<Op>
  {
    LoadBytesOps() + [LoadClass(STRING, NewFile(StringFields(), false, false), [])]
    + [ResolveClass(STRING, StringFile())]
  }

  lemma LoadByte() returns (r: Consistent)
    ensures IsRun([LoadClass(BYTE, NewFile([], true, false), [])], r) && LoadedUpTo(r.heap.objects, BYTE)
  {
    StartKeepsInv();
    r := LoadNext([], StartWitness(), BYTE, [], true, false);
    AddedFirst(LoadClass(BYTE, NewFile([], true, false), []));
    LoadedFirst(ClassAt([], true, false, 1));
  }

  lemma LoadBytes() returns (r: Consistent)
    ensures IsRun(LoadBytesOps(), r)
    ensures LoadedUpTo(r.heap.objects, BYTES) && HasFile(r.heap.objects, BYTES, NewFile([], false, true))
  {
    var r0 := LoadByte();
    r := LoadNext([LoadClass(BYTE, NewFile([], true, false), [])], r0, BYTES, [], false, true);
    LoadedNext(r0.heap.objects, BYTE, BYTES, ClassAt([], false, true, r0.heap.nextSerial));
  }

  /** java.lang.Class, byte, byte[] and String, the last not resolved yet. */
  lemma LoadStringClass() returns (r: Consistent)
    ensures IsRun(LoadBytesOps() + [LoadClass(STRING, NewFile(StringFields(), false, false), [])], r)
    ensures HasStringClasses(r.heap.objects, NewFile(StringFields(), false, false))
  {
    var r0 := LoadBytes();
    r := LoadNext(LoadBytesOps(), r0, STRING, StringFields(), false, false);
    var o := ClassAt(StringFields(), false, false, r0.heap.nextSerial);
    LoadedNext(r0.heap.objects, BYTES, STRING, o);
    KeepsFile(r0.heap.objects, BYTES, NewFile([], false, true), STRING, o);
  }

  ghost predicate HasFile(objects: Objects, c: Addr, file: ClassFile)
  {
    c in objects && objects[c].file == Some(file)
  }

  ghost predicate HasStringClasses(objects: Objects, file: ClassFile)
  {
    LoadedUpTo(objects, STRING) && HasFile(objects, BYTES, NewFile([], false, true)) && HasFile(objects, STRING, file)
  }

  function StringFile(): ClassFile
  {
    NewFile(StringFields(), false, false).(resolved := true)
  }

  lemma ResolveNext(ops: seq<Op>, r: Consistent, c: Addr, file: ClassFile) returns (r': Consistent)
    requires IsRun(ops, r) && c in r.heap.objects && Enabled(r, ResolveClass(c, file), ExampleWorld())
    requires file.superClass == NULL && file.interfaces == [] && file.statics == []
    ensures IsRun(ops + [ResolveClass(c, file)], r')
    ensures r'.heap.objects == r.heap.objects[c := r.heap.objects[c].(file := Some(file))]
  {
    var op := ResolveClass(c, file);
    AfterOne(Start(), ops, op, ExampleWorld());
    StepKeepsInv(r, op, ExampleWorld());
    ResolvedIsSimple(r, c, file);
    r' := Apply(r, op, ExampleWorld());
  }

  lemma ResolvedIsSimple(r: Consistent, c: Addr, file: ClassFile)
    requires Enabled(r, ResolveClass(c, file), ExampleWorld())
    requires file.superClass == NULL && file.interfaces == [] && file.statics == []
    ensures Simple(Apply(r, ResolveClass(c, file), ExampleWorld()))
  {
  }

  lemma ResolveString() returns (r: Consistent)
    ensures IsRun(StringOps(), r) && HasStringClasses(r.heap.objects, StringFile())
  {
    var r0 := LoadStringClass();
    CanResolveString(r0);
    StringIsResolved(r0.heap.objects);
    r := ResolveNext(LoadBytesOps() + [LoadClass(STRING, NewFile(StringFields(), false, false), [])], r0,
                     STRING, StringFile());
  }

  /** Three classes loaded and one resolved after java.lang.Class, load_string can make a String. */
  lemma CanMakeAString() returns (r: Run)
    ensures IsRun(StringOps(), r) && Inv(r, ExampleWorld())
    ensures Enabled(r, LoadString("x", 80, 96, 2, []), ExampleWorld())
  {
    r := ResolveString();
    StringIsReady(r);
  }

  lemma CanResolveString(r: Consistent)
    requires HasStringClasses(r.heap.objects, NewFile(StringFields(), false, false))
    ensures Enabled(r, ResolveClass(STRING, StringFile()), ExampleWorld())
  {
    assert FileOk(r.heap.objects, BOOT.ctx, STRING, StringFile());
    assert MayChange(r.heap.objects, BOOT.ctx, STRING);
  }

  lemma StringIsResolved(objects: Objects)
    requires HasStringClasses(objects, NewFile(StringFields(), false, false))
    ensures HasStringClasses(objects[STRING := objects[STRING].(file := Some(StringFile()))], StringFile())
  {
  }

  lemma StringSlots(r: Consistent, i: nat)
    requires STRING in r.heap.objects && r.heap.objects[STRING].file == Some(StringFile())
    ensures IsInstanceSlot(r.heap.objects, BOOT.ctx.rank, STRING, i) <==> i == VALUE_SLOT
  {
    assert StringFile().fields[0] in StringFile().fields;
  }

  lemma StringIsReady(r: Consistent)
    requires HasStringClasses(r.heap.objects, StringFile())
    ensures Enabled(r, LoadString("x", 80, 96, 2, []), ExampleWorld())
  {
    forall i: nat ensures IsInstanceSlot(r.heap.objects, BOOT.ctx.rank, STRING, i) <==> i == VALUE_SLOT {
      StringSlots(r, i);
    }
  }

  // ---- garbage that the collector keeps ----

  const PLAIN: Addr := 32
  const GARBAGE: Addr := 48

  /** One thread whose only local is a number: the address of the object. */
  function Numbers(): seq<Thread>
  {
    [Thread(NULL, NULL, [Frame([Raw(GARBAGE)], [], 0)])]
  }

  function GarbageOps(): seq<Op>
  {
    [LoadClass(PLAIN, PlainFile(), [])] + [ResolveClass(PLAIN, ResolvedPlain())]
    + [Allocate(GARBAGE, PLAIN, 0, Numbers())]
  }

  function PlainFile(): ClassFile
  {
    NewFile([], false, false)
  }

  function ResolvedPlain(): ClassFile
  {
    PlainFile().(resolved := true)
  }

  /** No word of a thread is used as a reference. */
  ghost predicate UsesNothing(threads: seq<Thread>)
  {
    forall t :: t in threads ==>
      && ThreadOk(t) && t.exception == NULL && t.threadObject == NULL
      && forall f, v :: f in t.frames && IsWord(f, v) ==> v.Raw?
  }

  ghost function Classes(objects: Objects): set<Addr>
  {
    set a | a in objects && IsClass(objects, a)
  }

  /** Plain classes lead to java.lang.Class only. */
  lemma PlainEdges(r: Run, c: Addr, b: Addr)
    requires Inv(r, ExampleWorld()) && IsClass(r.heap.objects, c) && HasPlainClasses(r.heap.objects)
    requires RefersTo(r.heap.objects, BOOT.ctx, c, b)
    ensures b == ALIGNMENT
  {
    forall i: nat ensures !IsInstanceSlot(r.heap.objects, BOOT.ctx.rank, ALIGNMENT, i) {
    }
  }

  lemma OnlyClassesAreObtainable(r: Run)
    requires Inv(r, ExampleWorld()) && UsesNothing(r.threads) && HasPlainClasses(r.heap.objects)
    ensures Obtainable(r, ExampleWorld()) <= Classes(r.heap.objects)
  {
    var g := EdgeGraph(r.heap.objects, BOOT.ctx);
    forall c, b {:trigger b in g[c]} | c in Classes(r.heap.objects) && c in g && b in g[c]
      ensures b in Classes(r.heap.objects)
    {
      PlainEdges(r, c, b);
    }
    NothingUsed(r.threads, r.heap.objects);
    ReachableWithin(g, RefRoots(r.heap, r.threads), Classes(r.heap.objects));
  }

  lemma NothingUsed(threads: seq<Thread>, objects: Objects)
    requires UsesNothing(threads) && NULL !in objects
    ensures forall a :: a in objects ==> !SomeUses(threads, a)
  {
    forall a, t | a in objects && t in threads ensures !Uses(t, a) {
      forall f | f in t.frames ensures !IsWord(f, Ref(a)) {
        assert !Ref(a).Raw?;
      }
    }
  }

  lemma NumbersUseNothing()
    ensures UsesNothing(Numbers()) && LooksLike(Numbers(), GARBAGE)
  {
    var t := Numbers()[0];
    assert t in Numbers() && IsRawWord(t, t.frames[0], GARBAGE);
  }

  lemma LoadPlain() returns (r: Consistent)
    ensures IsRun([LoadClass(PLAIN, PlainFile(), [])], r) && HasPlainClass(r.heap.objects, PlainFile())
  {
    StartKeepsInv();
    r := LoadNext([], StartWitness(), PLAIN, [], false, false);
    AddedFirst(LoadClass(PLAIN, PlainFile(), []));
  }

  ghost predicate HasPlainClass(objects: Objects, file: ClassFile)
  {
    HasFile(objects, PLAIN, file) && GARBAGE !in objects
  }

  lemma ResolvePlain() returns (r: Consistent)
    ensures IsRun([LoadClass(PLAIN, PlainFile(), [])] + [ResolveClass(PLAIN, ResolvedPlain())], r)
    ensures HasPlainClass(r.heap.objects, ResolvedPlain())
  {
    var r0 := LoadPlain();
    CanResolvePlain(r0);
    r := ResolveNext([LoadClass(PLAIN, PlainFile(), [])], r0, PLAIN, ResolvedPlain());
    PlainIsResolved(r0.heap.objects);
  }

  lemma PlainIsResolved(objects: Objects)
    requires HasPlainClass(objects, PlainFile())
    ensures HasPlainClass(objects[PLAIN := objects[PLAIN].(file := Some(ResolvedPlain()))], ResolvedPlain())
  {
  }

  lemma CanResolvePlain(r: Consistent)
    requires HasPlainClass(r.heap.objects, PlainFile())
    ensures Enabled(r, ResolveClass(PLAIN, ResolvedPlain()), ExampleWorld())
  {
  }

  lemma CanAllocatePlain(r: Consistent)
    requires HasPlainClass(r.heap.objects, ResolvedPlain())
    ensures Enabled(r, Allocate(GARBAGE, PLAIN, 0, Numbers()), ExampleWorld())
  {
    forall i: nat ensures !IsInstanceSlot(r.heap.objects, BOOT.ctx.rank, PLAIN, i) {
    }
    NumbersUseNothing();
  }

  /** A number on the stack keeps an object alive that the program cannot get hold of. */
  lemma GarbageIsKept() returns (r: Run)
    ensures IsRun(GarbageOps(), r) && Inv(r, ExampleWorld()) && ThreadsOk(r.heap.objects, r.threads)
    ensures GARBAGE in AfterGc(r.heap, Live(r.heap, BOOT.ctx, r.threads)).objects
    ensures GARBAGE !in Obtainable(r, ExampleWorld())
  {
    var r0 := ResolvePlain();
    var op := Allocate(GARBAGE, PLAIN, 0, Numbers());
    CanAllocatePlain(r0);
    AfterOne(Start(), [LoadClass(PLAIN, PlainFile(), [])] + [ResolveClass(PLAIN, ResolvedPlain())], op, ExampleWorld());
    r := AllocateGarbage(r0);
    NumberKeepsAlive(r);
  }

  lemma AllocateGarbage(r0: Consistent) returns (r: Run)
    requires Enabled(r0, Allocate(GARBAGE, PLAIN, 0, Numbers()), ExampleWorld())
    ensures r == Apply(r0, Allocate(GARBAGE, PLAIN, 0, Numbers()), ExampleWorld()) && Inv(r, ExampleWorld())
    ensures HasGarbage(r)
  {
    GarbageIsNoClass(r0.heap.objects, NewObject(PLAIN, 0, r0.heap.nextSerial));
    StepKeepsInv(r0, Allocate(GARBAGE, PLAIN, 0, Numbers()), ExampleWorld());
    r := Apply(r0, Allocate(GARBAGE, PLAIN, 0, Numbers()), ExampleWorld());
  }

  ghost predicate HasGarbage(r: Run)
  {
    && r.threads == Numbers() && HasPlainClasses(r.heap.objects)
    && GARBAGE in r.heap.objects && !IsClass(r.heap.objects, GARBAGE)
  }

  ghost predicate HasPlainClasses(objects: Objects)
  {
    && ALIGNMENT in objects && objects[ALIGNMENT] == BOOT.objects[ALIGNMENT]
    && forall c :: IsClass(objects, c) ==> IsPlain(objects[c])
  }

  lemma GarbageIsNoClass(objects: Objects, o: Object)
    requires HasPlainClasses(objects) && o.file.None?
    ensures HasPlainClasses(objects[GARBAGE := o]) && !IsClass(objects[GARBAGE := o], GARBAGE)
  {
  }

  lemma NumberKeepsAlive(r: Run)
    requires Inv(r, ExampleWorld()) && HasGarbage(r)
    ensures ThreadsOk(r.heap.objects, r.threads)
    ensures GARBAGE in AfterGc(r.heap, Live(r.heap, BOOT.ctx, r.threads)).objects
    ensures GARBAGE !in Obtainable(r, ExampleWorld())
  {
    NumbersUseNothing();
    InvMeansThreadsOk(r, ExampleWorld());
    OnlyClassesAreObtainable(r);
    LookAlikesAreLive(r.heap, BOOT.ctx, r.threads, GARBAGE);
  }
}
