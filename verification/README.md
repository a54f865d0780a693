# SchokoVM: a verified model

SchokoVM is an interpreter for Java bytecode written in C++. This project models its hardest state machines and
codecs in Dafny and proves what they are meant to guarantee. `dafny verify dfyconfig.toml` checks everything.
JVMS stands for the Java Virtual Machine Specification.

The project follows the program's own form. Code that updates state in place is a class or a method with loops, proved
against a specification function; what the program is meant to guarantee is proved about that function as lemmas. Code
that only computes is a function.

Each file holds one module of the same name, but for `Heap.dfy` (module `Collector`), `HeapMutator.dfy` (`Mutator`) and
`Option.dfy` (`Options`).

| modules | what they model | source |
|---|---|---|
| `Reachability`, `HeapModel`, `HeapEdges`, `Mutator`, `Collector` | the mark-and-sweep collector with conservative stack roots, a mark bit whose meaning flips, and a weak intern table | `src/memory.cpp`, `src/jvm.cpp` |
| `HeapClasses`, `HeapRuns`, `HeapReach`, `HeapExample` | whole runs of allocation, stores, string literals, loading and resolving of classes, and `JVM_GC` | `src/memory.cpp`, `src/classloading.cpp`, `src/jvm.cpp` |
| `FrameModel`, `FrameRuns`, `FrameDepth`, `FrameUnwind`, `FrameStack` | overlapping activation records on one memory, calls, returns, native methods, callbacks through JNI, class initializers and exceptions, nested to any depth | `src/interpreter.cpp`, `src/interpreter.hpp`, `src/jni.cpp` |
| `SlotStack` | the untyped stack instructions on slots against the typed operand stack of section 6.5 of JVMS SE 16 | `src/interpreter.cpp` |
| `ClassGraph`, `MethodSearch`, `SearchOrder` | subtyping with covariant arrays; method resolution and selection, and how they depend on the order of interfaces | `src/classfile.hpp`, `src/interpreter.cpp` |
| `FieldLayout` | class resolution and the slot numbers of fields | `src/classloading.cpp` |
| `ClassInit`, `ClassInitThreads`, `ClassInitOrder`, `ClassInitDeadlock` | the initialization procedure of section 5.5 of JVMS SE 16, by one thread and by many | `src/classloading.cpp` |
| `Descriptor`, `ArgumentSlots` | the method descriptor tokenizer and its three users | `src/parser.cpp`, `src/native.cpp`, `src/jni.cpp` |
| `ModifiedUtf8`, `JniNames`, `JniTypes` | modified UTF-8; names of native methods | `src/string.cpp`, `src/memory.cpp`, `src/native.cpp` |

## How runs are modelled

A run of the interpreter is data: a tree of events that gives everything the model leaves open, such as the values
computed, the branch taken, the method selected, and the runs nested inside native methods and class initialization.
The execution functions of `FrameModel` are total; their outcome says whether an access was outside a frame's window
(`Fault`), whether `interpret` was entered without room for its frame (`BadEntry`), whether the program stops by itself
(`Halt`), or whether the events do not fit the code (`NotARun`). `FrameStack` runs the same events with an array, a list
of suspended frames and loops, and every method of it equals its function. Opcodes appear through their slot effects.

A run of the heap is a list of operations. An allocation gets its address, a string the addresses of its two objects,
and a loaded class its address and contents as parameters. Between two collections the threads' stacks may change in any
way that uses only references the program can reach: those that a path leads to from the classes and from the words
that the threads use as references. The marker does not know which words these are; its roots are all words that look like
references. `JVM_GC` passes only the calling thread to the collector (`src/jvm.cpp:266`), the operation scans them all; that
is the same while there is one thread, and `JVM_StartThread` is not implemented (`src/jvm.cpp:393`).

Initialization by many threads is a state machine with one step for each stretch of code that touches shared state; a
waiting thread sleeps until it is notified, or wakes up without a reason. The list of step 7 is a parameter, which
`ClassInit.StepSeven` computes; a `<clinit>` may request any classes.

## What the specification functions say

Methods and theorems share specification functions such as `HeapModel.RefersTo`, `ClassInit.StepSeven`,
`FrameModel.HandleThrow`, `MethodSearch.CanOverride`, `Descriptor.Category`, `FieldLayout.Laid`, `ModifiedUtf8.EncodeUnit` and
`JniNames.Escape`. For each of them there are lemmas that say what it means in terms of the data alone: words in memory,
ranges and catch types of handlers, access flags and packages, the text of a descriptor, positions of fields, plain
arithmetic. They are `HeapEdges.EdgesAre`, `ClassInit.InitCaused`, `FrameUnwind.ThrowIsCaught`,
`MethodSearch.VirtualIsSelected`, `ArgumentSlots.SlotsAreCounted`, `FieldLayout.SlotIs`, `ModifiedUtf8.DecodeStep`,
`JniNames.EscapesAre` and those next to them in the table below.

## Where the code does not do what one would expect

- An abstract redeclaration in a subinterface does not hide a default method. With I declaring a default m, J extending
  I and redeclaring m as abstract, K declaring a default m and C implementing J and K, the search finds the method of I
  where JVMS resolves to that of K (`MethodSearch.RedeclarationMisleads`); for a class that implements J alone JVMS
  selects nothing (`MethodSearch.RedeclarationIsIgnored`).
- What JVMS chooses does not depend on the order in which interfaces are listed, but what the search finds does. Over all
  orders it can end exactly at the ends of the trails that `SearchOrder.IsTrail` defines without any order
  (`SearchOrder.SearchCanEndIff`). So it takes the right default in all orders if and only if every trail ends at the
  method that JVMS chooses (`SearchOrder.SelectionIsRightIff`, `SearchOrder.ResolutionIsRightIff`); where superclasses add
  no default, if and only if that method is declared below all other defaults (`SearchOrder.FoundIffLeast`). A superclass
  comes last, so elsewhere this is not needed (`SearchOrder.SuperclassComesLast`).
- The collector also keeps what a number on a stack merely looks like a reference to. It keeps exactly what the program
  can reach if and only if no such number is the address of anything else (`HeapRuns.GcIsExactIff`); in the run of
  `HeapExample.GarbageIsKept` one is.
- `interpret` does not check that the memory has room for the frame it creates. The missing condition is exactly what
  keeps the accesses of every consistent body inside (`FrameDepth.RoomIsExact`); a callback that passes the check of
  `CALL_HELPER` and writes behind the memory is `FrameDepth.CallbackWithoutRoom`.
- On `JNI_ENOMEM`, `CALL_HELPER` does not give the argument slots back: memory_used is restored if and only if the
  arguments fitted or there are none (`FrameRuns.CallHelperPreserves`; an input is in `FrameRuns.NoMemoryLeaks`). From
  then on every call with arguments that the same native code makes fails (`FrameRuns.LeakGoesOn`).
- Slot counts are 16 bits wide in the parser and in native calls, and not in calls from JNI; they agree if and only if
  they fit (`ArgumentSlots.ParserAgreesIff`, `ArgumentSlots.NativeAgreesIff`, `ArgumentSlots.RoomCheckIsEnoughIff`). The
  parser does not enforce the limit of 255 slots, within which they agree (`ArgumentSlots.AgreeWithinLimit`). 32768
  longs are accepted as 0 slots (`ArgumentSlots.LongDescriptorWraps`), and with one more a native call reads the last
  argument where the first one lies (`ArgumentSlots.NativeOffsetWraps`).
- The decoder for modified UTF-8 accepts strings that are cut off or not in canonical form; it is exact if and only if
  the string is canonical (`ModifiedUtf8.DecodeIsExactIff`, `ModifiedUtf8.TruncatedIsAccepted`).
- For Latin strings `copy_to_modified_utf8_buffer` returns the length of the whole string although it writes a part, and
  copies bytes that are not modified UTF-8 (`ModifiedUtf8.CopiedLengthIsExactIff`, `ModifiedUtf8.LatinIsEncodedIff`, with
  inputs in `ModifiedUtf8.LatinLengthIsWrong` and `ModifiedUtf8.LatinIsNotEncoded`).
- Distinct native methods can share a symbol. A short name is shared if and only if some underscore does not begin a
  segment (a_b.m and a/1b.m), or a segment after a slash begins with 1 and there is one slash more
  (`JniNames.ShortNameIsSharedIff`; that a segment begins with 1 is neither enough nor needed,
  `JniNames.LeadingOneIsNotEnough`, `JniNames.LeadingOneIsNotNeeded`). A full name is shared if and only if its short name
  is, or its parameter types have two class names, or one that can be read in two ways (`JniTypes.FullNameIsSharedIff`,
  `JniTypes.TextIsSharedIff`; `JniNames.TypesMatter` is an example). Parameter types are here those that the tokenizer
  accepts, with any text without a semicolon and NUL as a class name. No short name is ever a full name
  (`JniNames.ShortIsNeverFull`), and where no segment after a slash begins with 1, 2 or 3 all names are distinct
  (`JniNames.NamesAreDistinct`).
- Threads can deadlock in class initialization, as JVMS allows, in exactly those programs in which two classes ask for
  each other, directly or not (`ClassInitDeadlock.DeadlockIff`, `ClassInitOrder.CrossedRequestsDeadlock`). A class that
  asks for itself does no harm (`ClassInitOrder.OwnRequestIsHarmless`).
- The comment at `src/classfile.hpp:815` says that only arrays of references have an element type; `make_builtin_class`
  sets it for arrays of primitives too, and the model follows the code.

## Model

| member | source | states |
|---|---|---|
| `Reachability.ReachesIffPath` | src/memory.cpp:151-202 | the least set that holds the roots and follows the marker's edges is exactly what a path leads to |
| `HeapModel.CollectionFreesUnreachable` | src/memory.cpp:277-290 | a collection keeps an object if and only if a path of marker edges leads to it from the roots |
| `HeapModel.CollectionKeepsInvariant` | src/memory.cpp:258-290 | no kept object, root, class or intern entry refers to a freed object; all are unmarked under the flipped polarity (the exit assertion); classes are never freed |
| `HeapModel.SecondCollectionFreesNothing` | src/jvm.cpp:264-271 | the second collection in `JVM_GC` frees nothing and flips the polarity back, so the pair is one collection under the old polarity |
| `HeapModel.RootsSurvive` | src/memory.cpp:232-255 | what a thread holds as a reference is a root again after the sweep |
| `HeapEdges.EdgesAre` | src/memory.cpp:153-202 | in terms of the words in memory: from an object the marker goes to its class, to the elements of an array whose element class is not primitive, to what the declared and inherited reference fields of an instance hold, and to the superclass, the interfaces and, for a resolved class, the reference statics of a class; nowhere else |
| `HeapEdges.PrimitiveArrayHasOneEdge` | src/memory.cpp:174-178 | an array of primitives refers to its class alone |
| `HeapEdges.ElementsSurvive` | src/memory.cpp:174-178 | after `JVM_GC` each element of an array of references that is left is null or as it was in the heap |
| `HeapEdges.FieldsSurvive` | src/memory.cpp:162-173 | the same for each declared or inherited reference field of an instance that is left |
| `HeapEdges.SupersSurvive` | src/memory.cpp:180-188 | every class is left, and so are its superclass and its interfaces |
| `HeapEdges.StaticsSurvive` | src/memory.cpp:190-197 | and what the reference statics of a resolved class hold |
| `Collector.TurnKeepsInvariant` | src/memory.cpp:153-202 | one turn of the queue keeps "marked and not queued implies all successors marked" and decreases (unmarked objects, queue length) |
| `Collector.Heap.Enqueue` | src/memory.cpp:138-149 | marks and queues a reference that is not null and not yet marked, each object at most once |
| `Collector.Heap.EnqueueInstanceFields` | src/memory.cpp:162-173 | exactly the targets of the reference fields of the whole superclass chain are enqueued |
| `Collector.Heap.EnqueueElements` | src/memory.cpp:174-178 | exactly the elements of an array of references are enqueued, none of a primitive array |
| `Collector.Heap.EnqueueClass` | src/memory.cpp:180-201 | superclass, interfaces and, for a resolved class, static references of a class object are enqueued |
| `Collector.Heap.EnqueueSuccessors` | src/memory.cpp:157-201 | together these are exactly the edges of the object graph |
| `Collector.Heap.MarkNext` | src/memory.cpp:153-202 | the loop body keeps the tri-colour invariant, marks nothing unreachable and makes progress |
| `Collector.Heap.MarkRecursively` | src/memory.cpp:136-203 | marks the argument and everything it leads to and nothing outside any closed set with the roots; the queue loop ends |
| `Collector.Heap.MarkWords` | src/memory.cpp:241-253 | a stack word is a root if it is aligned, not zero and a known object, whatever it means |
| `Collector.Heap.AllObjectPointers` | src/memory.cpp:213-228 | the set is that of all objects, and the assertions in its loops hold |
| `Collector.Heap.Mark` | src/memory.cpp:207-256 | entered with nothing marked, the marked objects are exactly the reachable ones |
| `Collector.Heap.EraseStrings` | src/memory.cpp:259-261 | the loop over the intern table keeps exactly the entries whose string is marked |
| `Collector.Heap.EraseAllocations` | src/memory.cpp:263-266 | the loop over the allocations keeps exactly the marked ones, in order, frees the others and counts them |
| `Collector.Heap.EraseClasses` | src/memory.cpp:268-272 | the loop over the classes erases nothing, and its assertion holds |
| `Collector.Heap.Sweep` | src/memory.cpp:258-275 | the three passes together drop exactly the unmarked allocations and the intern entries of unmarked strings, keep their order, and count the erased |
| `Collector.Heap.GarbageCollection` | src/memory.cpp:277-290 | the new heap is exactly the reachable part; both assertions hold; the result is the number of objects freed |
| `Collector.Heap.JvmGc` | src/jvm.cpp:264-271 | exactly the reachable objects remain, the polarity is the old one and the assertion on the second collection holds |
| `Collector.Heap.AllocateArray` | src/memory.cpp:33-49 | the new object is zeroed, has bit false, is registered last, and nothing else changes |
| `Collector.Heap.AllocateClass` | src/memory.cpp:112-118 | the new class object is of class java.lang.Class, has bit false, is registered last, and nothing else changes |
| `Collector.Heap.MakeString` | src/memory.cpp:52-70 | two allocations; the String refers to its characters and is marked as UTF-16 |
| `Collector.Heap.LoadString` | src/memory.cpp:100-110 | a literal in the table gives its entry, any other a new String that becomes the entry |
| `Mutator.AllocationIsSafe` | src/memory.cpp:33-49 | allocation keeps the heap invariant |
| `Mutator.NewObjectIsZeroed` | src/memory.cpp:33-49 | a new object is the only change, of the class and length asked for, with all words zero |
| `Mutator.StoreIsSafe` | src/interpreter.cpp:873-936 | a store of a reference to an existing object keeps the heap invariant |
| `Mutator.StaticStoreIsSafe` | src/interpreter.cpp:873-936 | the same for a static field |
| `Mutator.StoreChangesOneWord` | src/interpreter.cpp:873-936 | a store changes one word of one object and nothing else |
| `Mutator.StaticStoreChangesOneWord` | src/interpreter.cpp:873-936 | the same for a static field |
| `Mutator.LoadedStringIsSafe` | src/memory.cpp:100-110 | the same for load_string |
| `Mutator.MadeObjects` | src/memory.cpp:52-70 | the String holds the character array and its coder is UTF-16; no other object changes |
| `Mutator.StringKeepsItsCharacters` | src/memory.cpp:65-67 | the marker goes from a new String to its characters |
| `HeapRuns.StepKeepsInv` | src/memory.cpp:33-118 | every operation of the program (allocation, stores, string literals, loading and resolving classes, running code) and `JVM_GC` keeps the run invariant |
| `HeapRuns.After` | src/jvm.cpp:264-271 | the state after any sequence of these operations satisfies the run invariant |
| `HeapRuns.NoReferenceIsDangling` | src/memory.cpp:258-290 | after any run no live object, no word that a thread uses as a reference and no intern entry refers to a freed object, and the entry assertion of the collector holds |
| `HeapRuns.GcKeepsTheObtainable` | src/memory.cpp:207-256 | what a path leads to from the classes and the words used as references survives `JVM_GC`, at its address and unchanged |
| `HeapRuns.GcIsExactIff` | src/memory.cpp:241-253 | `JVM_GC` keeps nothing else if and only if every object that some other word looks like a reference to can be reached anyway |
| `HeapRuns.LiteralsAreInterned` | src/memory.cpp:100-110 | in any run all references that load_string returned for one literal and that are still allocated are the same object, although the table keeps nothing alive |
| `HeapReach.StepRecovers` | src/memory.cpp:33-118 | no operation makes an old object reachable that could not be reached from the classes, the threads or the intern table before |
| `HeapReach.LostStaysLost` | src/memory.cpp:207-256 | so an object that none of these leads to stays unreachable in every run until it is freed, even if its address is used again |
| `HeapReach.LostIsNotObtainable` | src/memory.cpp:207-256 | and the program never gets hold of it |
| `HeapReach.LoadStringBringsBack` | src/memory.cpp:102-104 | the intern table has to count: for an interned string that the program cannot reach, any thread with a frame can perform a load_string that pushes the string on its operand stack, after which the program reaches it |
| `HeapClasses.LoadedClassIsSafe` | src/memory.cpp:112-118 | a class that is loaded keeps the heap invariant |
| `HeapClasses.ResolvedClassIsSafe` | src/classloading.cpp:349-391 | so does a class that gets its superclass, interfaces and static fields, because no object of it or of a subclass exists yet |
| `HeapExample.StartKeepsInv` | src/memory.cpp:112-118 | the heap with java.lang.Class alone satisfies the run invariant |
| `HeapExample.CanMakeAString` | src/memory.cpp:52-118 | a run of four operations from it, which load byte, byte[] and String and resolve String, ends in a state in which load_string can run |
| `HeapExample.GarbageIsKept` | src/memory.cpp:241-253 | a run from it that ends with an object which the program cannot reach and `JVM_GC` keeps, because a local is a number equal to its address |
| `FrameRuns.InterpretIsBalanced` | src/interpreter.cpp:57-85 | every completed run of the loop, with any nesting inside, ends with the frame list and memory_used it began with, and changes no word below its arguments |
| `FrameRuns.CallHelperPreserves` | src/jni.cpp:433-463 | a call from JNI leaves frames and caller words alone; it restores memory_used if and only if it did not return JNI_ENOMEM (or takes no arguments) |
| `FrameRuns.NoMemoryLeaks` | src/jni.cpp:433-437 | without room the call runs nothing and its argument slots stay taken; a memory of one word where that happens |
| `FrameRuns.LeakGoesOn` | src/jni.cpp:433-437 | after one such call every further call from JNI fails too, whatever it calls, and takes its argument slots |
| `FrameRuns.ReenterRule` | src/classloading.hpp:131-143 | an instruction that has the VM run other code finds its frame and operands unchanged; after a throw its pc is still inside the instruction |
| `FrameRuns.JniArgumentsBecomeLocals` | src/jni.cpp:448-461 | the arguments of a call from JNI are the first locals of the method it runs |
| `FrameRuns.InterpretReturnsValue` | src/interpreter.cpp:82-85 | the value of `interpret` is the operand that the root frame's method returned, whatever ran in between |
| `FrameRuns.EntriesPreserve` | src/classloading.hpp:131-143 | so does any sequence of callbacks, initializers and throws in native code |
| `FrameRuns.LoopKeepsInv` | src/interpreter.cpp:73-80 | at every turn of the loop all frames of the activation stay above its base, and exactly the first is a root |
| `FrameRuns.ArgumentsBecomeLocals` | src/interpreter.hpp:238-247 | the callee's first locals are the caller's pushed arguments, without copying |
| `FrameRuns.FrameRule` | src/interpreter.hpp:174-184 | from an invoke to its matching return nothing below the arguments changes, and the caller continues at the next instruction |
| `FrameRuns.ReturningFrameIsCallee` | src/interpreter.cpp:834-848 | the frame whose return ends the call is the invoked one: it begins at the first argument slot, and the suspended caller is right below it |
| `FrameRuns.InvokeReturn` | src/interpreter.cpp:834-848 | the caller's locals are unchanged and its operands are the old ones without the arguments, then the callee's value |
| `FrameRuns.NativeFrameRule` | src/interpreter.cpp:1653-1698 | the same for a native method that may call back; with an exception pending the caller stays at its invoke |
| `FrameRuns.NativeArgumentsStay` | src/interpreter.cpp:1471 | while native code calls back its argument slots keep their words |
| `FrameRuns.OverflowIff` | src/interpreter.hpp:238-247 | an invoke stops with a stack overflow if and only if the callee's locals and operands, which begin at its first argument, end behind the memory |
| `FrameRuns.SimpleMoves` | src/interpreter.cpp:57-80 | an instruction takes its operands from the top, puts its results there and goes on at the chosen instruction |
| `FrameRuns.SimpleStaysInside` | src/interpreter.hpp:67-91 | it touches only locals and operands of its frame, all inside the memory |
| `FrameRuns.SimpleStores` | src/interpreter.cpp:257-275 | a local that it stores in holds the last value stored |
| `FrameRuns.SimplePushes` | src/interpreter.hpp:80-87 | its results are the top operands, in order |
| `FrameRuns.SimpleKeeps` | src/interpreter.cpp:257-275 | every other word of the memory is as before |
| `FrameDepth.InterpretIsSound` | src/interpreter.hpp:67-91 | methods with a consistent depth map never access anything outside a frame's window or the memory |
| `FrameDepth.LoopIsSound` | src/interpreter.hpp:238-247 | in every reachable state operands_top is the depth at pc, and each suspended caller's the depth after its invoke |
| `FrameDepth.HandleThrowIsSound` | src/interpreter.cpp:1382-1426 | unwinding always finds a frame to continue or exits at the root, at depth 1 |
| `FrameDepth.RoomIsExact` | src/interpreter.cpp:50-60 | the room condition that `interpret` does not check holds if and only if no consistent body of the method, run in any way, touches a word outside the memory, and the word that is returned is inside |
| `FrameDepth.CallbackWithoutRoom` | src/jni.cpp:433-461 | in a memory of any size that one argument fills, a method that pushes one operand passes the check of CALL_HELPER and then writes the word behind the memory |
| `FrameUnwind.FindHandlerIsFirst` | src/interpreter.cpp:1389-1411 | the handler found is the first matching table entry |
| `FrameUnwind.NoHandlerIffNoMatch` | src/interpreter.cpp:1389-1411 | none is found if and only if no entry matches |
| `FrameUnwind.FirstToCatchIsFound` | src/interpreter.cpp:1389-1411 | the handler found is the first whose range covers pc, its end excluded, and that has no catch type or one among the exception's class and superclasses |
| `FrameUnwind.NoneIsFoundIff` | src/interpreter.cpp:1389-1411 | none is found if and only if every entry is for other instructions or names another class |
| `FrameUnwind.AdvancedPcFindsSameHandler` | src/interpreter.cpp:873-913 | a pc advanced inside an instruction finds the same handler as its start when ranges end on instruction boundaries |
| `FrameUnwind.UnwindsToHandler` | src/interpreter.cpp:1382-1426 | control goes to the first matching entry of the innermost frame that has one; the stack holds only the exception, frames above are discarded |
| `FrameUnwind.UnwindsToRoot` | src/interpreter.cpp:1412-1418 | otherwise the run of the nearest root exits with the exception pending |
| `FrameUnwind.ThrowIsCaught` | src/interpreter.cpp:1382-1426 | an exception goes to the first entry for it in the innermost frame that has one: the state after the throw, in terms of ranges and catch types |
| `FrameUnwind.ThrowLeaves` | src/interpreter.cpp:1412-1418 | it leaves the run of the nearest root when no frame up to it has an entry for it |
| `FrameUnwind.CaughtByCaller` | src/interpreter.cpp:1382-1426 | an exception that leaves a callee and is caught by the caller: its locals are as before the call, its operand stack is the exception alone, the frames below and memory_used are as before |
| `FrameUnwind.SomeFrameStopsUnwinding` | src/interpreter.cpp:1386-1425 | one of the two happens at or above the nearest root |
| `FrameStack.Activation.Run` | src/interpreter.cpp:73-80 | the interpret loop, with everything nested in it, does what the model does |
| `FrameStack.Thread.Interpret` | src/interpreter.cpp:50-86 | a root frame is created, run and gone, as in the model, and its first local is returned |
| `FrameStack.RootFrameRemains` | src/interpreter.cpp:82-85 | when the loop exits the current frame is the root frame it began with, so its first local is the result |
| `FrameStack.Thread.CallHelper` | src/jni.cpp:425-464 | the call from JNI does what the model does, on JNI_ENOMEM too |
| `FrameStack.Thread.PlaceArguments` | src/jni.cpp:448-459 | the argument words lie where the callee's locals begin, the dummy slots and everything else keep their words |
| `FrameStack.Activation.PushFrame` | src/interpreter.hpp:238-247 | overflow is reported if and only if the new frame does not fit; the suspended caller has its final operands_top |
| `FrameStack.Activation.PopFrame` | src/interpreter.cpp:1429-1441 | the caller continues after its invoke, or at it when an exception is pending; a root exits the loop |
| `FrameStack.Activation.HandleThrow` | src/interpreter.cpp:1382-1426 | the loop over frames and tables computes the model's unwinding |
| `FrameStack.Activation.FindHandler` | src/interpreter.cpp:1389-1411 | the table search gives the first match |
| `FrameStack.Activation.NativeCall` | src/interpreter.cpp:1653-1698 | push, call, store the result, restore, pop: as in the model |
| `FrameStack.Activation.Reenter` | src/classloading.hpp:131-143 | an instruction that runs other VM code continues with its own frame |
| `FrameStack.Activation.ExecuteReturn` | src/interpreter.cpp:834-848 | the value goes to the first local, then the frame is popped |
| `FrameStack.Activation.Push` | src/interpreter.hpp:80-82 | one operand more; no other word of the memory changes |
| `FrameStack.Activation.Pop` | src/interpreter.hpp:71-73 | the top operand, one operand less |
| `FrameStack.Activation.Push2` | src/interpreter.hpp:84-87 | a value and a dummy slot that keeps its old word |
| `FrameStack.Activation.Pop2` | src/interpreter.hpp:75-78 | the lower of the two slots |
| `FrameStack.Activation.PeekAt` | src/interpreter.hpp:67-69 | the operand at a distance from the top |
| `FrameStack.Activation.Dup` | src/interpreter.cpp:334-339 | replaces the needed slots by what section 6.5 of JVMS SE 16 leaves for dup, and changes no other word |
| `FrameStack.Activation.DupX1` | src/interpreter.cpp:340-347 | the same for dup_x1 |
| `FrameStack.Activation.DupX2` | src/interpreter.cpp:348-357 | the same for dup_x2 |
| `FrameStack.Activation.Dup2` | src/interpreter.cpp:358-366 | the same for dup2 |
| `FrameStack.Activation.Dup2X1` | src/interpreter.cpp:367-377 | the same for dup2_x1 |
| `FrameStack.Activation.Dup2X2` | src/interpreter.cpp:378-390 | the same for dup2_x2 |
| `FrameStack.Activation.Swap` | src/interpreter.cpp:391-397 | the same for swap |
| `FrameStack.OperandsAfter` | src/interpreter.cpp:328-397 | after a write that leaves the specified slots, the operand stack read from memory is the specified one and everything below it is untouched |
| `SlotStack.DupForm` | src/interpreter.cpp:334-390 | on typed values a dup instruction copies the top group below the group under it, in every category form |
| `SlotStack.SwapForm` | src/interpreter.cpp:391-397 | swap exchanges two values of category 1 |
| `SlotStack.DiscardForm` | src/interpreter.cpp:328-333 | pop and pop2 drop the values that fill one or two slots |
| `SlotStack.StepIgnoresDummies` | src/interpreter.hpp:208-224 | no stack instruction depends on the word in a dummy slot |
| `SlotStack.StepRefines` | src/interpreter.cpp:328-397 | on slots, where a long or double is a value and a dummy, each instruction does what it does on typed values, and never underflows |
| `SlotStack.RunRefines` | src/interpreter.cpp:328-397 | so does every sequence of pushes, pops and stack instructions |
| `ClassGraph.SubclassIffPath` | src/classfile.hpp:832-856 | is_subclass_of is the transitive closure of the extends and implements edges, despite its guards |
| `ClassGraph.SubclassTransitive` | src/classfile.hpp:834-856 | it is transitive |
| `ClassGraph.SubclassIsStrict` | src/classfile.hpp:832-833 | and asymmetric; no class is a subclass of itself |
| `ClassGraph.AboveArray` | src/classloading.cpp:149-162 | an array class is below exactly Object, Cloneable and Serializable |
| `ClassGraph.InstanceIffAssignable` | src/classfile.hpp:858-866 | is_instance_of is the assignability rule in closed form over base types and dimensions |
| `ClassGraph.ArraysAreCovariant` | src/classfile.hpp:862-865 | one array class is an instance of another if and only if the element types are |
| `ClassGraph.InstanceReflexive` | src/classfile.hpp:858-861 | reflexive on all classes |
| `ClassGraph.InstanceTransitive` | src/classfile.hpp:858-866 | transitive on all classes, arrays of any depth included |
| `ClassGraph.InstanceAntisymmetric` | src/classfile.hpp:858-866 | mutually assignable classes are the same, if array classes are unique |
| `MethodSearch.VisitedExactly` | src/interpreter.cpp:1552-1557 | the recursive pass visits exactly the methods of the class and of everything above it |
| `MethodSearch.PassIsBest` | src/interpreter.cpp:1528-1559 | a single pass over any list of methods finds a minimal default, and a fallback if and only if there is a candidate |
| `MethodSearch.PassIsMostSpecific` | src/interpreter.cpp:1528-1559 | so for the methods above a class, in any visiting order, it finds a minimal default, else any candidate, else nothing |
| `MethodSearch.ResolveMethodInterfaces` | src/interpreter.cpp:1528-1559 | the recursive method with its two out-parameters computes that pass |
| `MethodSearch.SearchIsMostSpecific` | src/interpreter.cpp:1576-1583 | from scratch: the result is minimal among all defaults above the class; the fallback is set if and only if a candidate exists |
| `MethodSearch.LeastDefaultIsFound` | src/interpreter.cpp:1541-1547 | a default declared below all the others is found, whatever the visiting order |
| `MethodSearch.LeastIsChosenIff` | src/interpreter.cpp:1539-1548 | such a default is the one that sections 5.4.3.3 and 5.4.6 of JVMS SE 16 choose if and only if no interface below its own redeclares it as abstract; otherwise they choose none |
| `MethodSearch.RedeclarationMisleads` | src/interpreter.cpp:1539-1548 | a hierarchy where the search finds the method of I although JVMS resolves to that of K |
| `MethodSearch.RedeclarationIsIgnored` | src/interpreter.cpp:1539-1548 | a class in it where the search finds the method of I although JVMS selects none |
| `MethodSearch.FindInChain` | src/interpreter.cpp:1564-1572 | the first passing method of the nearest class of the chain, or none in the whole chain |
| `MethodSearch.MethodResolution` | src/interpreter.cpp:1561-1591 | class chain first, then the most specific default, then any candidate; an exception only if there is none; the result has the name and descriptor asked for |
| `MethodSearch.MethodSelection` | src/interpreter.cpp:1603-1651 | a private method is itself; otherwise the nearest overriding method of the chain, then the superinterfaces; the result has the declared name and descriptor, is no static method, and private only if it is the declared one |
| `MethodSearch.ChainIsAncestors` | src/interpreter.cpp:1613-1633 | the chain that is searched consists of the class and its superclasses, nearest first |
| `MethodSearch.VirtualIsSelected` | src/interpreter.cpp:1613-1633 | the instance method of the declared name and descriptor that is nearest above the class and not private is selected if the declared one is public or protected, whatever the packages, or if both are in one package |
| `MethodSearch.OtherPackageIsNotSelected` | src/interpreter.cpp:1619-1626 | a package-private declared method is never replaced by a method of another package on the chain |
| `MethodSearch.InterfaceResultIs` | src/interpreter.cpp:1528-1559 | what the superinterfaces give has the name and descriptor asked for and is neither static nor private |
| `SearchOrder.SearchFollowsTrail` | src/interpreter.cpp:1528-1559 | the search ends at the end of a trail: from the class up the superclass chain, each class that adds defaults below the last one taken adds a lowest of them |
| `SearchOrder.SearchCanEndIff` | src/interpreter.cpp:1551-1558 | the classes at which the search can end, over all orders of the interface lists of a hierarchy, are exactly the ends of such trails; trails do not depend on the order |
| `SearchOrder.FoundInAllOrdersIff` | src/interpreter.cpp:1528-1559 | the method that JVMS chooses is found in all these orders if and only if every trail ends at it |
| `SearchOrder.SelectionIsRightIff` | src/interpreter.cpp:1635-1646 | selection takes the default that section 5.4.6 of JVMS SE 16 selects, in all these orders, if and only if there is such a method and every trail ends at it |
| `SearchOrder.ResolutionIsRightIff` | src/interpreter.cpp:1574-1583 | resolution finds the method that section 5.4.3.3 prescribes, in all these orders, if and only if every trail ends at it, where there is such a method |
| `SearchOrder.FoundIffLeast` | src/interpreter.cpp:1541-1547 | where all defaults come from the class's own interfaces, the chosen method is found in all orders if and only if it is declared below all other defaults |
| `SearchOrder.InterfaceIsOneLevel` | src/interpreter.cpp:1551-1558 | an interface is such a case |
| `SearchOrder.FoundIfThoseBeforeAreAbove` | src/interpreter.cpp:1528-1559 | in the given order a most specific default is found if each default visited before it is declared above it |
| `SearchOrder.MissedIfFirstIsNotAbove` | src/interpreter.cpp:1539-1544 | in the given order a default is missed if the first default visited is another one and not declared above it |
| `SearchOrder.SuperclassComesLast` | src/interpreter.cpp:1555-1558 | a class where no default is declared below the others, and the chosen one is still found in all orders, because it comes from the class and not from its superclass |
| `FieldLayout.SlotsAreCovered` | src/classloading.cpp:367-378 | every slot below total_instance_field_count belongs to a field of the superclass chain |
| `FieldLayout.FieldsHaveSlots` | src/classloading.cpp:367-378 | every instance field has a slot below the total, and looking the slot up gives that field |
| `FieldLayout.FieldsNeverAlias` | src/classloading.cpp:367-378 | distinct fields of an object have distinct slots, so the marker scans each once |
| `FieldLayout.ParentSlotsAreKept` | src/classloading.cpp:359-366 | a subclass keeps every slot of its superclasses |
| `FieldLayout.StaticSlotsAreDistinct` | src/classloading.cpp:371-381 | static fields have distinct slots below the number of statics |
| `FieldLayout.StaticSlotsAreCovered` | src/classloading.cpp:371-381 | and use all of them |
| `FieldLayout.SlotIs` | src/classloading.cpp:359-380 | an instance field has as its slot the size of the named superclass and the number of instance fields declared before it, a static field the number of static fields before it; doubles and longs are wide |
| `FieldLayout.SizesAre` | src/classloading.cpp:352-382 | a class has as many instance slots as its superclass and its own instance fields together, and one static slot for each static field |
| `FieldLayout.ChainsNeverAlias` | src/classloading.cpp:359-380 | along any chain of named superclasses all instance fields have distinct slots, all inside the objects of the first class |
| `FieldLayout.Number` | src/classloading.cpp:370-380 | the numbering loop computes the layout |
| `FieldLayout.Resolver.ResolveClass` | src/classloading.cpp:349-391 | the class gets the layout that its declaration determines, other classes change only to theirs, a resolved class changes nothing, it fails only if a class is missing, and then no class is marked resolved without its layout |
| `FieldLayout.Resolver.ResolveInfo` | src/classloading.cpp:393-416 | the same through a class reference |
| `FieldLayout.Resolver.ResolveAll` | src/classloading.cpp:349-416 | any requests in any order give the same layouts; a request fails only if a class is missing, and even then no class is marked as resolved without its layout, superclass and interfaces |
| `FieldLayout.RefsOfResolved` | src/classloading.cpp:359-390 | a resolved class has a resolved superclass and resolved interfaces |
| `ClassInit.Init` | src/classloading.cpp:229-334 | initialization ends for any pattern of requests, with the classes that were in progress before in progress after |
| `ClassInit.EnumerationExactly` | src/classloading.cpp:206-226 | step 7 lists exactly the direct and indirect superinterfaces with a non-abstract instance method |
| `ClassInit.EnumerationOrder` | src/classloading.cpp:269-273 | each superinterface after its own superinterfaces |
| `ClassInit.InitKeepsInv` | src/classloading.cpp:229-334 | one request keeps the history consistent, touches no class touched before, and leaves the class initialized or in progress |
| `ClassInit.InitCaused` | src/classloading.cpp:229-334 | each class that a request claims is the requested one or is asked for by a class claimed before: by its initializer, or, unless that is an interface, as its superclass or a superinterface with a default method |
| `ClassInit.InterfaceIsInitializedAlone` | src/classloading.cpp:284 | an untouched interface whose initializer asks for nothing is claimed, started and finished, and nothing else happens |
| `ClassInit.InitDoesRequests` | src/classloading.cpp:306-325 | when the initializer of a class is over, what it asked for has been claimed |
| `ClassInit.StepSevenInOrder` | src/classloading.cpp:266-304 | for every k: when the first k classes of the step 7 list have had their turn they are touched, and class k is the next to be claimed, or is touched and nothing happens |
| `ClassInit.RequestsInOrder` | src/classloading.cpp:266-304 | the same for any list of requests |
| `ClassInit.RunInitializes` | src/classloading.cpp:229-334 | after any requests all requested classes are initialized and nothing is in progress |
| `ClassInit.InitializedOnce` | src/classloading.cpp:306-325 | a class initializer is started at most once, after its class was claimed |
| `ClassInit.InitializedMeansStarted` | src/classloading.cpp:319-327 | an initialized class has had its initializer started |
| `ClassInit.SupersFirst` | src/classloading.cpp:284-304 | when an initializer starts, its superclass and superinterfaces with defaults are initialized or claimed by this thread |
| `ClassInit.Initializer.InitializeClass` | src/classloading.cpp:229-334 | the recursive method computes the model's result |
| `ClassInit.Initializer.RecursivelyInitializeInterfaces` | src/classloading.cpp:206-226 | the recursive loop initializes exactly the enumeration, in its order |
| `ClassInitThreads.StepKeepsInv` | src/classloading.cpp:229-327 | every step of every thread keeps the protocol invariant |
| `ClassInitThreads.OneInitializer` | src/classloading.cpp:258-264 | at most one call in all threads is between claiming and releasing a class |
| `ClassInitThreads.StartedAtMostOnce` | src/classloading.cpp:306-317 | however threads interleave, no initializer is started twice |
| `ClassInitThreads.InitializedIsStable` | src/classloading.cpp:319-327 | initialized stays initialized |
| `ClassInitThreads.ResultOkMeans` | src/classloading.cpp:230-256 | whoever gets ResultOk finds the class initialized, or is itself initializing it |
| `ClassInitThreads.SleepersAreWaiting` | src/classloading.cpp:242-248 | no wakeup is lost: a sleeping thread waits for another that is initializing the class |
| `ClassInitThreads.LockHoldersCanStep` | src/classloading.cpp:235-265 | a thread that holds an initialization lock is never blocked |
| `ClassInitThreads.InitializedMeansStarted` | src/classloading.cpp:319-327 | an initialized class has had its initializer started and is in progress nowhere |
| `ClassInitOrder.StepKeepsSupers` | src/classloading.cpp:284-304 | in every interleaving the classes that a call has requested in step 7 are initialized or in progress in its own thread |
| `ClassInitOrder.SupersFirst` | src/classloading.cpp:284-311 | when any thread starts an initializer, all classes of the step 7 list are initialized or in progress in the same thread |
| `ClassInitOrder.SomebodyCanGoOn` | src/classloading.cpp:235-248 | from a thread that has to wait, locks and owners lead to a thread that can execute its next line, if nested requests go down or pass through because their class is initialized or in progress in the same thread |
| `ClassInitOrder.NoDeadlock` | src/classloading.cpp:229-327 | when each request of an initializer is for a class of lower rank, an initialized class, or one in progress in the same thread, in every reachable state in which a thread is inside initialize_class some such thread can go on |
| `ClassInitOrder.OwnRequestIsHarmless` | src/interpreter.cpp:61-66 | the request that interpret makes for the class of the initializer it runs is always such a request |
| `ClassInitOrder.CrossedRequestsDeadlock` | src/classloading.cpp:242-248 | a run after which two threads, each in an initializer that requests the other's class, both sleep and no thread can go on |
| `ClassInitDeadlock.UntangledGoesOn` | src/classloading.cpp:229-327 | no run of a program deadlocks if no two of its classes ask for each other, directly or not, by step 7 lists and requests of initializers |
| `ClassInitDeadlock.Visit` | src/classloading.cpp:229-327 | a thread that runs alone goes through initialize_class until the class and all that its initialization asks for is initialized or in progress in it, or it sleeps on a class of another thread |
| `ClassInitDeadlock.TangledDeadlocks` | src/classloading.cpp:242-248 | if two classes ask for each other, two threads can reach a state in which both sleep and no thread can go on |
| `ClassInitDeadlock.DeadlockIff` | src/classloading.cpp:229-327 | a program has a run that deadlocks if and only if two of its classes ask for each other |
| `Descriptor.RoundTrip` | src/parser.cpp:472-556 | tokenizing a printed descriptor gives the tree back |
| `Descriptor.AcceptedIffPrinted` | src/parser.cpp:472-556 | a string is accepted if and only if it is "(", parameter types, ")" and a return type, up to the first NUL |
| `Descriptor.PrintedIsRead` | src/parser.cpp:490-526 | a printed type is read back, whatever follows it |
| `Descriptor.ReadIsPrinted` | src/parser.cpp:490-526 | whatever is read as a type is the text of that type |
| `Descriptor.CategoryOfText` | src/parser.cpp:492-526 | a type has category 2 if its text is D or J, and 1 otherwise |
| `Descriptor.ResultOfText` | src/parser.cpp:527-548 | the return type is the last part: category 0 for void, otherwise by its text, with its dimensions |
| `Descriptor.DimensionsOfText` | src/parser.cpp:492-498 | the dimensions of a type are the brackets that its text begins with |
| `Descriptor.BaseTypesAre` | src/parser.cpp:511-525 | the letters of the primitive types are B, C, D, F, I, J, S and Z |
| `Descriptor.MethodDescriptorParts.TypeToken` | src/parser.cpp:490-526 | the cursor, category and dimensions after a token are those of the type read, or it throws |
| `Descriptor.MethodDescriptorParts.ReturnToken` | src/parser.cpp:527-548 | the same for ")" and the return type, which must end the string |
| `Descriptor.MethodDescriptorParts.Begin` | src/parser.cpp:472-479 | the constructor stands on the first part |
| `Descriptor.MethodDescriptorParts.Next` | src/parser.cpp:481-488 | operator++ stands on the next part, and fails only on a string that is not a descriptor |
| `ArgumentSlots.ParseCounts` | src/parser.cpp:85-97 | the counts are the number of parameters modulo 256 and, modulo 65536, that number and one more for each D or J; None exactly for strings that are not descriptors |
| `ArgumentSlots.ArgumentOffsets` | src/native.cpp:111-124 | the offsets are the prefix sums of the categories modulo 65536 |
| `ArgumentSlots.PrepareArgumentPointers` | src/native.cpp:146-162 | the environment, the class of a static method, then one pointer into the locals for each offset |
| `ArgumentSlots.NativeArguments` | src/native.cpp:101-162 | parameter k of a native function is argument k + 2 and points to the local whose number is, modulo 65536, the parameters before it and one more for each D or J among them; the receiver or class is argument 1 |
| `ArgumentSlots.NativeOffsetAt` | src/native.cpp:111-124 | entry k of the list is the prefix sum for parameter k |
| `ArgumentSlots.SlotsAreCounted` | src/parser.cpp:89-96 | the slots of a list of parameters are their number and one more for each whose text is D or J; an array or a class counts once |
| `ArgumentSlots.OffsetIsCounted` | src/native.cpp:111-124 | the same for the parameters before a native argument |
| `ArgumentSlots.CountsAreCounted` | src/parser.cpp:85-97 | the parser's counts in these terms |
| `ArgumentSlots.PlaceArguments` | src/jni.cpp:448-459 | argument k is written at the local whose number is the parameters before it and one more for each D or J among them, the receiver first, and all other words, dummy slots included, stay; false if and only if one of these writes is outside the memory |
| `ArgumentSlots.AllInsideIff` | src/jni.cpp:448-459 | which writes these are, in the same terms |
| `ArgumentSlots.PushArguments` | src/jni.cpp:432-459 | memory_used grows by the parser's count; JNI_ENOMEM if and only if that does not fit, a write outside if and only if some argument's exact slot does not |
| `ArgumentSlots.ParserAgreesIff` | src/parser.cpp:89-96 | parser and JNI agree on the total if and only if it is below 65536 |
| `ArgumentSlots.NativeAgreesIff` | src/native.cpp:112-124 | native offsets and JNI agree on every parameter if and only if the last offset is below 65536 |
| `ArgumentSlots.RoomCheckIsEnoughIff` | src/jni.cpp:433-437 | the check of CALL_HELPER keeps every write inside, whatever the memory, if and only if the exact number of slots is below 65536 |
| `ArgumentSlots.AgreeWithinLimit` | src/parser.cpp:89-96 | within the limit of 255 slots all three agree |
| `ArgumentSlots.LongDescriptorWraps` | src/parser.cpp:89-96 | a descriptor beyond it that the parser accepts with 0 slots |
| `ArgumentSlots.NativeOffsetWraps` | src/native.cpp:111-124 | a descriptor of 32769 longs is accepted, and the last argument of a native call is read at offset 0 instead of 65536 |
| `ModifiedUtf8.RoundTrip` | src/memory.cpp:72-93 | decoding the encoder's output gives every sequence of code units back, without an error |
| `ModifiedUtf8.DecodeIsExactIff` | src/memory.cpp:72-93 | encoding undoes decoding if and only if every character has its canonical form |
| `ModifiedUtf8.TruncatedIsAccepted` | src/memory.cpp:81-88 | a string cut inside a character is decoded without an error |
| `ModifiedUtf8.NoZeroByte` | src/string.cpp:16-29 | encoded text has no zero byte |
| `ModifiedUtf8.DecodeEncoded` | src/string.cpp:3-30 | the bytes of one code unit are decoded to it, whatever follows, and are canonical |
| `ModifiedUtf8.UnitOfOneByte` | src/string.cpp:14-17 | code units from 1 to 0x7F are one byte |
| `ModifiedUtf8.UnitOfTwoBytes` | src/string.cpp:17-21 | zero and those up to 0x7FF are 0xC0 + c / 64 and 0x80 + c % 64 |
| `ModifiedUtf8.LeadOfThreeBytes` | src/string.cpp:21-25 | the others begin with 0xE0 + c / 4096 |
| `ModifiedUtf8.RestOfThreeBytes` | src/string.cpp:21-25 | followed by 0x80 + c / 64 % 64 and 0x80 + c % 64 |
| `ModifiedUtf8.DecodeStep` | src/memory.cpp:75-92 | each turn of the decoder in plain arithmetic: which byte begins which form, what it reads, and its three errors |
| `ModifiedUtf8.Encoded.constructor` | src/string.cpp:3-30 | the four chars hold the encoding followed by zeros |
| `ModifiedUtf8.CountUtf8` | src/string.hpp:49-59 | the count is the length of the encoding, and for Latin strings the number of bytes |
| `ModifiedUtf8.CopyToModifiedUtf8Buffer` | src/string.cpp:32-62 | for either coder, with or without a buffer the result is the same; exactly the bytes of the requested part and a zero are written; fails if and only if the start is behind the end |
| `ModifiedUtf8.CopiedLengthIsExactIff` | src/string.cpp:36-43 | the result is the number of bytes written if and only if the string is UTF-16 or the part is the whole |
| `ModifiedUtf8.CopiedBytesAre` | src/string.cpp:32-62 | the bytes written are those from the start to the end of the part or of the string, encoded for UTF-16 |
| `ModifiedUtf8.LatinLengthIsWrong` | src/string.cpp:38-43 | for one of two Latin characters the result is 3, although 2 bytes are written |
| `ModifiedUtf8.LatinIsEncodedIff` | src/string.cpp:36-43 | the bytes written for a Latin string are its modified UTF-8 if and only if all are ASCII and none is zero |
| `ModifiedUtf8.LatinIsNotEncoded` | src/string.cpp:38-43 | the Latin character 0xE9 is copied as one byte where modified UTF-8 has two |
| `ModifiedUtf8.Length` | src/string.hpp:41-63 | the number of characters for either coder |
| `ModifiedUtf8.DecodeString` | src/memory.cpp:72-93 | the decoding loop computes the decoder, including its three ways to fail |
| `JniNames.UnescapeIff` | src/native.cpp:39-59 | reading the escapes from the left undoes them if and only if no segment after a slash begins with 1, 2 or 3 |
| `JniNames.OneReadingIsSeparated` | src/native.cpp:50-60 | every escaped text has exactly one reading without such a segment; a text that is not that reading shares its escaped form with it |
| `JniNames.DecodeIsInverse` | src/native.cpp:36-63 | a total decoder gives class, method and parameter types back |
| `JniNames.EscapesAre` | src/native.cpp:39-59 | the table of escapes of the JNI specification |
| `JniNames.EscapeConcat` | src/native.cpp:39-59 | which holds for every text, character by character |
| `JniNames.ShortNameExample` | src/native.cpp:36-47 | the name of method m_n of class p.A_b, written out |
| `JniNames.FullNameExample` | src/native.cpp:48-61 | and its name with the parameter types int[] and p.C |
| `JniNames.FullNameIs` | src/native.cpp:48-61 | a full name is the short one, two underscores and the escaped parameter types |
| `JniNames.NamesAreDistinct` | src/native.cpp:86-99 | distinct methods have distinct names and no short name is a full name |
| `JniNames.OverloadsAreDistinct` | src/native.cpp:48-61 | full names also determine the parameter types |
| `JniNames.TypesAreSeparated` | src/native.cpp:50-60 | the condition on parameter types is one on the class names in them |
| `JniNames.SegmentsMatter` | src/native.cpp:39-43 | two classes, a/1b and a_b, whose methods share a name |
| `JniNames.ShortNameIsSharedIff` | src/native.cpp:36-47 | another class or method has the same short name if and only if some underscore does not begin a segment, or some segment after a slash begins with 1 and there is another slash |
| `JniNames.LeadingOneIsNotEnough` | src/native.cpp:39-47 | a segment that begins with 1 is not enough: method 1b of class a shares its name with no other |
| `JniNames.LeadingOneIsNotNeeded` | src/native.cpp:39-47 | and not needed: method m of class a_b shares its name |
| `JniNames.TypesMatter` | src/native.cpp:48-60 | one parameter of class a/2Lb, or two of classes a and b: two overloads with one full name |
| `JniTypes.TextIsSharedIff` | src/native.cpp:48-60 | among the types that the tokenizer accepts, other parameter types have the same text in full names if and only if there are two class names, or one that contains an underscore, a bracket, a slash and a 1 or 3, or a slash and a 2 behind which the rest reads as parameter types |
| `JniTypes.FullNameIsSharedIff` | src/native.cpp:36-63 | another class, method or list of parameter types has the same full name if and only if the short name is shared or the parameter types are of that kind |
| `JniTypes.ParametersOf` | src/parser.cpp:490-526 | a text that the automaton of this condition accepts is the text of parameter types |
| `JniNames.ShortIsNeverFull` | src/native.cpp:48-60 | no short name is a full name, whatever the segments begin with |
| `JniNames.GetJniMethodName` | src/native.cpp:36-63 | the three loops build the name of the model |

## Left out

- References held only by native code: the marker does not look for them (`src/memory.cpp:206`), and the runs have none.
- A single `garbage_collection` without the second one: new objects then have the wrong polarity, so the run operation is `JVM_GC`.
- `make_string(std::string)` as an operation of a run: it replaces the table entry of a literal (`src/memory.cpp:96`).
- The resolution of java.lang.Class itself, and the patching of class objects made before it: runs begin with it resolved.
- Contents of primitive arrays and strings in the heap model: words that are not references are arbitrary.
- Arithmetic, floating point and comparison opcodes: each is settled by its own branch, and appears as a slot effect only.
- `multianewarray`, `fill_in_stack_trace`, reflection, `Unsafe`, `JVM_ArrayCopy`, class file attributes.
- The early returns of `interpret` and the steps 11 and 12 of `initialize_class`: a failing initializer aborts the program.
- Failing `dlsym`, libffi, zip and file input, argument parsing: I/O or foreign calls.
- SearchOrder.FoundIfThoseBeforeAreAbove: goes one way, like `SearchOrder.MissedIfFirstIsNotAbove`; for one given order the cases between them depend on which defaults are taken on the way, and the exact results are over all orders.
- SearchOrder.SelectionIsRightIff: where JVMS selects nothing the code still returns a candidate (`MethodSearch.MethodSelection`), which the statement counts as wrong.
- FrameStack.Activation.PushAll: the untyped stack instructions push a list of values, which is a loop of single pushes.
- ClassInit.Initializer.InitializeClass: static fields get their constant values without leaving a trace in the model.
- ClassInitOrder.NoDeadlock: about runs, and asks that each request be for a class of lower rank, or one that is initialized or in progress in the same thread; the exact condition, about programs, is `ClassInitDeadlock.DeadlockIff`.
- FieldLayout.Resolver.ResolveClass: after the exception for a missing class, which nothing in the program catches, the class itself may be left with part of its layout; it is not marked resolved.
- MethodSearch.MethodSelection: the transitive last case of "can override" (section 5.4.5 of JVMS SE 16) is missing in the code and in the model.
- JniNames.GetJniMethodName: characters outside ASCII are not escaped, in the code or in the model.
- Frames refer to a method by its slot counts and code, not by name; which method is selected is part of the run.
