/**
 Slot-depth soundness: methods whose instructions agree on an operand depth never reach outside their windows,
 whatever calls, returns, throws and nested runs happen.
 */
module FrameDepth {
  import opened Options
  import opened FrameModel
  import opened FrameRuns

  /** The operand depth before each instruction of a method. */
  type DepthMap = (Method, nat) -> nat

  // ---- what a verifier of class files checks ----

  ghost predicate Follows(d: DepthMap, info: Method, next: nat, depth: nat)
    requires info.code.Some?
  {
    next in info.code.value.instructions && d(info, next) == depth && depth <= info.code.value.maxStack
  }

  ghost predicate InstrConsistent(d: DepthMap, info: Method, pc: nat)
    requires info.code.Some? && pc in info.code.value.instructions
  {
    var code := info.code.value;
    match code.instructions[pc]
    case Simple(pops, pushes, locals, length, nexts) =>
      && pops <= d(info, pc) && locals <= code.maxLocals && d(info, pc) - pops + pushes <= code.maxStack
      && forall next :: next in nexts ==> Follows(d, info, next, d(info, pc) - pops + pushes)
    case Invoke(paramSlots, returnSlots, length) =>
      paramSlots <= d(info, pc) && Follows(d, info, pc + length, d(info, pc) - paramSlots + returnSlots)
    case Return(slots) => slots <= d(info, pc)
    case Athrow => 1 <= d(info, pc)
  }

  ghost predicate Consistent(d: DepthMap, info: Method)
  {
    info.code.Some? ==>
      var code := info.code.value;
      && info.paramSlots <= code.maxLocals
      && Follows(d, info, 0, 0)
      && (forall pc :: pc in code.instructions ==> InstrConsistent(d, info, pc))
      && forall h :: h in code.handlers ==> Follows(d, info, h.handlerPc, 1)
  }

  /** Every method that occurs in a run is consistent. */
  ghost predicate EventsOk(d: DepthMap, es: Events)
  {
    es.Events? ==> EventOk(d, es.head) && EventsOk(d, es.tail)
  }

  ghost predicate EventOk(d: DepthMap, e: Event)
  {
    match e
    case Call(callee) => Consistent(d, callee)
    case CallNative(callee, calls, _) => Consistent(d, callee) && EntriesOk(d, calls)
    case Reenter(_, _, calls) => EntriesOk(d, calls)
    case _ => true
  }

  ghost predicate EntriesOk(d: DepthMap, cs: Entries)
  {
    cs.Entries? ==> EntryOk(d, cs.head) && EntriesOk(d, cs.tail)
  }

  ghost predicate EntryOk(d: DepthMap, c: Entry)
  {
    match c
    case JniCall(info, _, events) => Consistent(d, info) && EventsOk(d, events)
    case RunInitializer(info, events) => Consistent(d, info) && EventsOk(d, events)
    case SetException(_) => true
  }

  // ---- what every reachable state satisfies ----

  ghost predicate FrameOk(d: DepthMap, f: Frame, size: nat)
  {
    && f.info.code.Some? && Consistent(d, f.info)
    && f.firstOperand == f.firstLocal + f.info.code.value.maxLocals
    && f.firstOperand + f.info.code.value.maxStack <= size
    && f.top <= f.info.code.value.maxStack
  }

  /** operands_top is the depth at pc. */
  ghost predicate AtDepth(d: DepthMap, f: Frame)
    requires f.info.code.Some?
  {
    Follows(d, f.info, f.pc, f.top)
  }

  /** The saved operands_top of a suspended caller is the depth after its invoke. */
  ghost predicate AtDepthAfterInvoke(d: DepthMap, f: Frame)
    requires f.info.code.Some?
  {
    Follows(d, f.info, f.pc + f.invokeLength, f.top)
  }

  ghost predicate SuspendedOk(d: DepthMap, f: Frame, size: nat)
  {
    FrameOk(d, f, size) && AtDepthAfterInvoke(d, f)
  }

  ghost predicate DepthInv(d: DepthMap, g: Region, s: Loop)
  {
    !s.exited ==>
      && (forall i :: |g.base| <= i < |s.m.frames| ==> SuspendedOk(d, s.m.frames[i], |s.m.mem|))
      && FrameOk(d, s.cur, |s.m.mem|)
      && (s.m.exc.None? ==> AtDepth(d, s.cur))
  }

  ghost predicate Sound(d: DepthMap, g: Region, s: Loop)
  {
    g.Activation? && RegionInv(g, s) && DepthInv(d, g, s)
  }

  // ---- single steps ----

  lemma PopKeepsDepth(d: DepthMap, g: Region, s: Loop)
    requires g.Activation? && Within(g, s) && !s.exited
    requires forall i :: |g.base| <= i < |s.m.frames| ==> SuspendedOk(d, s.m.frames[i], |s.m.mem|)
    ensures s.cur.isRoot || s.m.frames != []
    ensures Sound(d, g, PopFrame(s))
  {
    PopKeepsInv(g, s);
    if !s.cur.isRoot {
      assert |s.m.frames| > |g.base| by {
        assert s.m.frames[|g.base|..] != [];
      }
    }
  }

  lemma {:induction false} FoundHandlerIsInTable(hs: seq<Handler>, pc: nat, exc: Exc)
    ensures FindHandler(hs, pc, exc).Some? ==> FindHandler(hs, pc, exc).value in hs
  {
    if hs != [] {
      FoundHandlerIsInTable(hs[1..], pc, exc);
    }
  }

  lemma {:induction false} HandleThrowIsSound(d: DepthMap, g: Region, s: Loop)
    requires Sound(d, g, s) && !s.exited && s.m.exc.Some?
    ensures HandleThrow(s).Done? && Sound(d, g, HandleThrow(s).value)
    decreases |s.m.frames|
  {
    var hs := s.cur.info.code.value.handlers;
    FoundHandlerIsInTable(hs, s.cur.pc, s.m.exc.value);
    if FindHandler(hs, s.cur.pc, s.m.exc.value).None? {
      PopKeepsDepth(d, g, s);
      if !s.cur.isRoot {
        HandleThrowIsSound(d, g, PopFrame(s));
      }
    } else {
      HandleThrowKeepsInv(g, s);
    }
  }

  lemma SimpleIsSound(d: DepthMap, g: Region, s: Loop, e: Event)
    requires Sound(d, g, s) && !s.exited && s.m.exc.None? && e.Execute?
    ensures ExecSimple(s, e) != Fault
    ensures ExecSimple(s, e).Done? ==> Sound(d, g, ExecSimple(s, e).value)
  {
    if ExecSimple(s, e).Done? {
      SimpleKeepsInv(g, s, e);
    }
  }

  lemma PushIsSound(d: DepthMap, g: Region, s: Loop, callee: Method)
    requires Sound(d, g, s) && !s.exited && s.m.exc.None? && Consistent(d, callee)
    ensures PushFrame(s, callee) != Fault
    ensures PushFrame(s, callee).Done? ==>
      var s1 := PushFrame(s, callee).value;
      && Within(g, s1) && !s1.exited
      && (forall i :: |g.base| <= i < |s1.m.frames| ==> SuspendedOk(d, s1.m.frames[i], |s1.m.mem|))
      && (callee.code.Some? ==> Sound(d, g, s1))
      && (callee.returnSlots > 0 ==> s1.cur.firstLocal < |s1.m.mem|)
  {
    if PushFrame(s, callee).Done? {
      PushKeepsInv(g, s, callee);
    }
  }

  lemma ReturnNeverFaults(d: DepthMap, g: Region, s: Loop)
    requires Sound(d, g, s) && !s.exited && s.m.exc.None?
    ensures ExecReturn(s) != Fault
  {
    PopKeepsInv(g, s);
  }

  lemma ReturnIsSound(d: DepthMap, g: Region, s: Loop)
    requires Sound(d, g, s) && !s.exited && s.m.exc.None? && ExecReturn(s).Done?
    ensures Sound(d, g, ExecReturn(s).value)
  {
    var k := InstrAt(s.cur).slots;
    MoveKeepsWithin(g, s, k);
    PopKeepsDepth(d, g, MoveResult(s, k));
  }

  lemma LeaveIsSound(d: DepthMap, g: Region, m: Machine, result: Value, s: Loop)
    requires g.Activation? && Within(g, s) && !s.exited && |m.frames| >= 2
    requires s == Loop(m.(frames := m.frames[..|m.frames| - 1]), m.frames[|m.frames| - 1], false)
    requires forall i :: |g.base| <= i < |s.m.frames| ==> SuspendedOk(d, s.m.frames[i], |s.m.mem|)
    requires s.cur.info.returnSlots > 0 ==> s.cur.firstLocal < |m.mem|
    ensures LeaveNative(m, result, false).Done? && Sound(d, g, LeaveNative(m, result, false).value)
  {
    if s.cur.info.returnSlots > 0 {
      PokeKeepsWithin(g, s, s.cur.firstLocal, result);
      PopKeepsDepth(d, g, Poke(s, s.cur.firstLocal, result));
    } else {
      PopKeepsDepth(d, g, s);
    }
  }

  // ---- nested runs ----

  lemma {:induction false} EntriesAreSound(d: DepthMap, m: Machine, cs: Entries)
    requires EntriesOk(d, cs)
    ensures ExecEntries(m, cs) != Fault
    decreases cs, 1
  {
    match cs
    case NoEntries =>
    case Entries(c, rest) =>
      EntryIsSound(d, m, c);
      if ExecEntry(m, c).Done? {
        EntriesAreSound(d, ExecEntry(m, c).value, rest);
      }
  }

  lemma {:induction false} EntryIsSound(d: DepthMap, m: Machine, c: Entry)
    requires EntryOk(d, c)
    ensures ExecEntry(m, c) != Fault
    decreases c, 0
  {
    match c
    case JniCall(info, args, events) =>
      if |args| == info.paramSlots && m.used + info.paramSlots <= |m.mem| {
        InterpretIsSound(d, WithArguments(m, args), info, events);
      }
    case RunInitializer(info, events) => InterpretIsSound(d, m, info, events);
    case SetException(_) =>
  }

  /** A run of consistent methods never reaches outside a window or the memory. */
  lemma {:induction false} InterpretIsSound(d: DepthMap, m: Machine, info: Method, es: Events)
    requires Consistent(d, info) && EventsOk(d, es)
    ensures Interpret(m, info, es) != Fault
    decreases es, 3
  {
    if m.exc.None? && HasRoom(m, info) {
      var f := RootFrame(m, info);
      var g := Activation(m.frames, m.used, m.used - info.paramSlots, m.mem);
      var s := Loop(m.(used := UsedBy(f)), f, false);
      assert s.m.frames[|m.frames|..] == [];
      LoopIsSound(d, g, s, es);
    }
  }

  /**
   In every reachable state the current operands_top is the depth at pc, and every suspended caller's is the depth
   after its invoke. `es` is arbitrary, so the state after it is any state that a run reaches.
   */
  lemma {:induction false} LoopIsSound(d: DepthMap, g: Region, s: Loop, es: Events)
    requires Sound(d, g, s) && EventsOk(d, es)
    ensures ExecLoop(s, es) != Fault
    ensures ExecLoop(s, es).Done? ==> Sound(d, g, ExecLoop(s, es).value)
    decreases es, if s.m.exc.Some? then 2 else 1
  {
    if s.exited {
    } else if s.m.exc.Some? {
      HandleThrowIsSound(d, g, s);
      if !HandleThrow(s).value.exited {
        LoopIsSound(d, g, HandleThrow(s).value, es);
      }
    } else if es.Events? {
      EventIsSound(d, g, s, es.head);
      if ExecEvent(s, es.head).Done? {
        LoopIsSound(d, g, ExecEvent(s, es.head).value, es.tail);
      }
    }
  }

  lemma {:induction false} EventIsSound(d: DepthMap, g: Region, s: Loop, e: Event)
    requires Sound(d, g, s) && !s.exited && s.m.exc.None? && EventOk(d, e)
    ensures ExecEvent(s, e) != Fault
    ensures ExecEvent(s, e).Done? ==> Sound(d, g, ExecEvent(s, e).value)
    decreases e, 0
  {
    match e
    case Execute(_, _, _) => SimpleIsSound(d, g, s, e);
    case Call(callee) => PushIsSound(d, g, s, callee);
    case CallNative(callee, calls, result) => NativeIsSound(d, g, s, callee, calls, result);
    case ReturnFrom =>
      ReturnNeverFaults(d, g, s);
      if ExecReturn(s).Done? {
        ReturnIsSound(d, g, s);
      }
    case Reenter(popped, advance, calls) => ReenterIsSound(d, g, s, popped, advance, calls);
  }

  lemma {:induction false} NativeIsSound(d: DepthMap, g: Region, s: Loop, callee: Method, calls: Entries, result: Value)
    requires Sound(d, g, s) && !s.exited && s.m.exc.None? && Consistent(d, callee) && EntriesOk(d, calls)
    ensures ExecNative(s, callee, calls, result) != Fault
    ensures ExecNative(s, callee, calls, result).Done? ==> Sound(d, g, ExecNative(s, callee, calls, result).value)
    decreases calls, 2
  {
    PushIsSound(d, g, s, callee);
    if callee.code.None? && PushFrame(s, callee).Done? {
      var s1 := PushFrame(s, callee).value;
      var m1 := s1.m.(frames := s1.m.frames + [s1.cur]);
      EntriesAreSound(d, m1, calls);
      if ExecEntries(m1, calls).Done? {
        EntriesPreserve(m1, calls);
        var m2 := ExecEntries(m1, calls).value;
        assert m2.frames[..|m2.frames| - 1] == s1.m.frames && m2.frames[|m2.frames| - 1] == s1.cur;
        assert SameBelow(s1.m.mem, m2.mem, s1.m.used);
        LeaveIsSound(d, g, m2, result, Loop(m2.(frames := s1.m.frames), s1.cur, s.exited));
      }
    }
  }

  lemma PoppedFits(d: DepthMap, g: Region, s: Loop, popped: nat)
    requires Sound(d, g, s) && !s.exited && s.m.exc.None? && HasInstr(s.cur) && popped <= PopsOf(InstrAt(s.cur))
    ensures popped <= s.cur.top
  {
    assert InstrConsistent(d, s.cur.info, s.cur.pc);
  }

  lemma {:induction false} ReenterIsSound(d: DepthMap, g: Region, s: Loop, popped: nat, advance: nat, calls: Entries)
    requires Sound(d, g, s) && !s.exited && s.m.exc.None? && EntriesOk(d, calls)
    ensures ExecReenter(s, popped, advance, calls) != Fault
    ensures ExecReenter(s, popped, advance, calls).Done? ==>
      Sound(d, g, ExecReenter(s, popped, advance, calls).value)
    decreases calls, 2
  {
    if HasInstr(s.cur) && popped <= PopsOf(InstrAt(s.cur)) && advance < LengthOf(InstrAt(s.cur)) {
      PoppedFits(d, g, s, popped);
      var f := s.cur.(top := s.cur.top - popped, pc := s.cur.pc + advance);
      var m1 := s.m.(frames := s.m.frames + [f]);
      EntriesAreSound(d, m1, calls);
      if ExecEntries(m1, calls).Done? {
        EntriesPreserve(m1, calls);
        var m2 := ExecEntries(m1, calls).value;
        assert m2.frames[..|m2.frames| - 1] == s.m.frames && m2.frames[|m2.frames| - 1] == f;
        ReenterKeepsInv(g, s, popped, advance, calls);
        ResumedIsSound(d, g, s, f, m2);
      }
    }
  }

  lemma ResumedIsSound(d: DepthMap, g: Region, s: Loop, f: Frame, m2: Machine)
    requires Sound(d, g, s) && !s.exited && s.m.exc.None? && |m2.mem| == |s.m.mem|
    requires f == s.cur.(top := f.top, pc := f.pc) && f.top <= s.cur.top
    requires var r := Loop(m2.(frames := s.m.frames), if m2.exc.Some? then f else s.cur, false);
             RegionInv(g, r)
    ensures Sound(d, g, Loop(m2.(frames := s.m.frames), if m2.exc.Some? then f else s.cur, false))
  {
  }

  // ---- the entry that the code does not check ----

  predicate IsSlot(m: Machine, at: nat)
  {
    at < |m.mem|
  }

  /** What interpret makes of the machine before its loop begins, whether there is room or not. */
  function Entered(m: Machine, info: Method): Loop
    requires info.paramSlots <= m.used
  {
    var f := RootFrame(m, info);
    Loop(m.(used := UsedBy(f)), f, false)
  }

  /** A method with the limits of this one and any body. */
  function WithBody(info: Method, instructions: map<nat, Instr>, handlers: seq<Handler>): Method
    requires info.code.Some?
  {
    info.(code := Some(info.code.value.(instructions := instructions, handlers := handlers)))
  }

  ghost predicate StaysInMemory(m: Machine, info: Method, d: DepthMap, es: Events)
    requires info.paramSlots <= m.used
  {
    Consistent(d, info) && EventsOk(d, es) ==> ExecLoop(Entered(m, info), es) != Fault
  }

  /** No body that keeps to the limits of the method reaches outside, however it runs. */
  ghost predicate IsSafeToEnter(m: Machine, info: Method)
    requires info.code.Some? && info.paramSlots <= m.used
  {
    forall instructions, handlers, d, es :: StaysInMemory(m, WithBody(info, instructions, handlers), d, es)
  }

  lemma RoomIsEnough(m: Machine, info: Method, d: DepthMap, es: Events)
    requires m.exc.None? && HasRoom(m, info)
    ensures StaysInMemory(m, info, d, es)
  {
    if Consistent(d, info) && EventsOk(d, es) {
      var s := Entered(m, info);
      assert s.m.frames[|m.frames|..] == [];
      LoopIsSound(d, Activation(m.frames, m.used, m.used - info.paramSlots, m.mem), s, es);
    }
  }

  /** A body that fills the operand stack and reads all locals. */
  function UsesAll(code: Code): map<nat, Instr>
  {
    map[0 := Simple(0, code.maxStack, code.maxLocals, 1, {1}), 1 := Return(0)]
  }

  function FillStack(n: nat): Events
  {
    Events(Execute(seq(n, _ => 0), [], 1), NoEvents)
  }

  lemma NoRoomIsTouched(m: Machine, info: Method)
    requires info.code.Some? && info.paramSlots <= m.used && info.paramSlots <= info.code.value.maxLocals
    requires m.exc.None? && |m.mem| < RootFrame(m, info).firstOperand + info.code.value.maxStack
    ensures !IsSafeToEnter(m, info)
  {
    var code := info.code.value;
    var body := WithBody(info, UsesAll(code), []);
    var d: DepthMap := (_, pc) => if pc == 0 then 0 else code.maxStack;
    assert InstrConsistent(d, body, 0) && InstrConsistent(d, body, 1);
    assert EventsOk(d, NoEvents);
    assert Consistent(d, body) && EventsOk(d, FillStack(code.maxStack));
    assert ExecEvent(Entered(m, body), FillStack(code.maxStack).head) == Fault;
    assert !StaysInMemory(m, body, d, FillStack(code.maxStack));
  }

  /**
   HasRoom is exactly what the code would have to check: with it no consistent body touches a word outside, and without
   it some body does, or the first local, which interpret returns, is outside.
   */
  lemma RoomIsExact(m: Machine, info: Method)
    requires info.code.Some? && info.paramSlots <= m.used && info.paramSlots <= info.code.value.maxLocals
    requires m.exc.None?
    ensures HasRoom(m, info) <==>
      IsSafeToEnter(m, info) && (info.returnSlots > 0 ==> IsSlot(m, RootFrame(m, info).firstLocal))
  {
    if HasRoom(m, info) {
      forall instructions, handlers, d, es ensures StaysInMemory(m, WithBody(info, instructions, handlers), d, es) {
        RoomIsEnough(m, WithBody(info, instructions, handlers), d, es);
      }
    } else if |m.mem| < RootFrame(m, info).firstOperand + info.code.value.maxStack {
      NoRoomIsTouched(m, info);
    }
  }

  function PushOne(): Method
  {
    Method(1, 0, Some(Code(1, 1, map[0 := Simple(0, 1, 0, 1, {1}), 1 := Return(0)], [])))
  }

  /**
   CALL_HELPER makes sure that the argument fits, but not the frame. In a memory of any size that one argument fills, a
   method that pushes one operand writes the word behind the memory.
   */
  lemma CallbackWithoutRoom(m: Machine, arg: Value, v: Value, d: DepthMap)
    requires m.exc.None? && m.used + 1 == |m.mem|
    requires d(PushOne(), 0) == 0 && d(PushOne(), 1) == 1
    ensures Consistent(d, PushOne())
    ensures CallHelper(m, PushOne(), [Some(arg)], Events(Execute([v], [], 1), NoEvents)) == BadEntry
    ensures var s := Entered(WithArguments(m, [Some(arg)]), PushOne());
            && ExecLoop(s, Events(Execute([v], [], 1), NoEvents)) == Fault
            && !IsSlot(s.m, s.cur.firstOperand + s.cur.top)
  {
    assert InstrConsistent(d, PushOne(), 0) && InstrConsistent(d, PushOne(), 1);
  }
}
