/** The stack and the interpret loop as the program runs them, proved against the functions of FrameModel. */
module FrameStack {
  import opened Options
  import opened FrameModel
  import opened FrameRuns
  import opened SlotStack

  lemma WriteMore(mem: seq<Value>, at: nat, words: seq<Value>, v: Value)
    requires at + |words| < |mem|
    ensures Write(mem, at, words)[at + |words| := v] == Write(mem, at, words + [v])
  {
  }

  lemma PlaceMore(mem: seq<Value>, at: nat, args: seq<Option<Value>>, i: nat)
    requires at + |args| <= |mem| && i < |args|
    ensures Place(mem, at, args[..i])[at + i] == mem[at + i]
    ensures Place(mem, at, args[..i + 1]) == Place(mem, at, args[..i])[at + i := args[i].GetOr(mem[at + i])]
  {
  }

  lemma WriteSlice(mem: seq<Value>, base: nat, first: nat, top: nat, words: seq<Value>)
    requires base + first + |words| <= |mem| && first <= top && base + top <= |mem|
    ensures Write(mem, base + first, words)[base..base + (first + |words|)] == mem[base..base + top][..first] + words
  {
  }

  lemma WriteKeepsBelow(mem: seq<Value>, base: nat, at: nat, words: seq<Value>)
    requires base <= at && at + |words| <= |mem|
    ensures Write(mem, at, words)[..base] == mem[..base]
  {
  }

  /** So after an instruction with Did(op) the operand stack is what SlotStep says, and all below it is untouched. */
  lemma OperandsAfter(mem: seq<Value>, base: nat, slots: seq<Value>, op: StackOp, words: seq<Value>)
    requires base + |slots| <= |mem| && slots == mem[base..base + |slots|]
    requires Needs(op) <= |slots| && words == Leaves(op, slots, 0)
    requires base + (|slots| - Needs(op) + |words|) <= |mem|
    ensures var first := |slots| - Needs(op);
            && Write(mem, base + first, words)[base..base + (first + |words|)] == SlotStep(op, slots, 0)
            && Write(mem, base + first, words)[..base] == mem[..base]
  {
    WriteSlice(mem, base, |slots| - Needs(op), |slots|, words);
    WriteKeepsBelow(mem, base, base + (|slots| - Needs(op)), words);
  }

  /** When the loop exits, the current frame is the root frame that interpret created. */
  lemma RootFrameRemains(m: Machine, info: Method, s: Loop, es: Events)
    requires HasRoom(m, info)
    requires s == Loop(m.(used := UsedBy(RootFrame(m, info))), RootFrame(m, info), false)
    requires ExecLoop(s, es).Done? && ExecLoop(s, es).value.exited
    ensures ExecLoop(s, es).value.cur.firstLocal == m.used - info.paramSlots
  {
    var g := Region.Activation(m.frames, m.used, m.used - info.paramSlots, m.mem);
    assert s.m.frames[|g.base|..] == [];
    LoopKeepsInv(g, s, es);
  }

  /** Thread with its Stack. */
  class Thread {
    const memory: array<Value>
    var memoryUsed: nat
    var frames: seq<Frame>
    var exception: Option<Exc>

    constructor (size: nat)
      ensures fresh(memory) && memory.Length == size
      ensures memoryUsed == 0 && frames == [] && exception == None
    {
      memory := new Value[size];
      memoryUsed, frames, exception := 0, [], None;
    }

    ghost function State(): Machine
      reads this, memory
    {
      Machine(memory[..], memoryUsed, frames, exception)
    }

    ghost predicate Ends(o: Outcome<()>, spec: Outcome<Machine>)
      reads this, memory
    {
      if o.Done? then spec == Done(State()) else spec.IsFailure() && o == spec.PropagateFailure<()>()
    }

    method PopFrame() returns (f: Frame)
      requires frames != []
      modifies this`frames
      ensures frames + [f] == old(frames)
    {
      f := frames[|frames| - 1];
      frames := frames[..|frames| - 1];
    }

    /** The arguments that a native caller passes become the first locals of the method it calls. */
    method PlaceArguments(args: seq<Option<Value>>)
      requires memoryUsed + |args| <= memory.Length
      modifies memory
      ensures memory[..] == Place(old(memory[..]), memoryUsed, args)
    {
      for i := 0 to |args|
        invariant memory[..] == Place(old(memory[..]), memoryUsed, args[..i])
      {
        PlaceMore(old(memory[..]), memoryUsed, args, i);
        if args[i].Some? {
          memory[memoryUsed + i] := args[i].value;
        }
      }
      assert args[..|args|] == args;
    }

    /** interpret */
    method Interpret(info: Method, es: Events) returns (o: Outcome<()>, result: Value)
      modifies this, memory
      ensures Ends(o, FrameModel.Interpret(old(State()), info, es))
      ensures o.Done? ==> Returns(result, old(memoryUsed), info)
      decreases es, 3
    {
      result := 0;
      if exception.Some? {
        return Halt, result;
      }
      if !Fits(memoryUsed, memory.Length, info) {
        return BadEntry, result;
      }
      ghost var m := State();
      var f := NewFrame(memoryUsed, info, memoryUsed, true);
      memoryUsed := UsedBy(f);
      var activation := new Activation(this, f);
      ghost var s := activation.State();
      o := activation.Run(es);
      if !o.Done? {
        return;
      }
      if !activation.shouldExit {
        return NotARun, result;
      }
      RootFrameRemains(m, info, s, es);
      if info.returnSlots != 0 {
        result := memory[activation.frame.firstLocal];
      }
    }

    /** The value is what is left in the first local of the root frame. */
    ghost predicate Returns(result: Value, used: nat, info: Method)
      reads this, memory
    {
      && info.paramSlots <= used && (info.returnSlots > 0 ==> used - info.paramSlots < memory.Length)
      && result == ReturnValue(State(), used, info)
    }

    /** CALL_HELPER */
    method CallHelper(info: Method, args: seq<Option<Value>>, es: Events) returns (o: Outcome<()>, result: Value)
      modifies this, memory
      ensures Ends(o, FrameModel.CallHelper(old(State()), info, args, es))
      ensures o.Done? && old(memoryUsed) + info.paramSlots <= memory.Length ==>
                Returns(result, old(memoryUsed) + info.paramSlots, info)
      decreases es, 4
    {
      result := 0;
      if |args| != info.paramSlots {
        return NotARun, result;
      }
      var saved := memoryUsed;
      if saved + info.paramSlots > memory.Length {
        memoryUsed := saved + info.paramSlots;
        return if es.NoEvents? then Done(()) else NotARun, result;
      }
      PlaceArguments(args);
      memoryUsed := saved + info.paramSlots;
      o, result := Interpret(info, es);
      if o.Done? {
        memoryUsed := saved;
      }
    }

    method Enter(c: Entry) returns (o: Outcome<()>)
      modifies this, memory
      ensures Ends(o, ExecEntry(old(State()), c))
      decreases c, 0
    {
      match c
      case JniCall(info, args, events) =>
        var result: Value;
        o, result := CallHelper(info, args, events);
      case RunInitializer(info, events) =>
        if info.paramSlots != 0 || info.returnSlots != 0 {
          return NotARun;
        }
        var result: Value;
        o, result := Interpret(info, events);
      case SetException(exc) =>
        exception := exc;
        o := Done(());
    }

    /** Code outside the interpreter runs. */
    method RunOutside(cs: Entries) returns (o: Outcome<()>)
      modifies this, memory
      ensures Ends(o, ExecEntries(old(State()), cs))
      decreases cs, 1
    {
      var rest := cs;
      while rest.Entries?
        invariant ExecEntries(State(), rest) == ExecEntries(old(State()), cs)
        decreases rest
      {
        var _ :- Enter(rest.head);
        rest := rest.tail;
      }
      o := Done(());
    }
  }

  /** The variables of one activation of interpret. */
  class Activation {
    const thread: Thread
    var frame: Frame
    var shouldExit: bool

    constructor (thread: Thread, frame: Frame)
      ensures this.thread == thread && this.frame == frame && !shouldExit
    {
      this.thread, this.frame, shouldExit := thread, frame, false;
    }

    ghost function State(): Loop
      reads this, thread, thread.memory
    {
      Loop(thread.State(), frame, shouldExit)
    }

    /** The live part of the operand stack, bottom first. */
    ghost function Operands(): seq<Value>
      reads this, thread.memory
      requires InMemory()
    {
      thread.memory[..][frame.firstOperand..frame.firstOperand + frame.top]
    }

    ghost predicate InMemory()
      reads this, thread.memory
    {
      frame.firstOperand + frame.top <= thread.memory.Length
    }

    // ---- operands ----

    /** The operands from slot `first` on are `words` now, and no other word of the memory changed. */
    twostate predicate Rewrote(first: nat, words: seq<Value>)
      reads this, thread.memory
    {
      && frame == old(frame).(top := first + |words|)
      && InMemory()
      && thread.memory[..] == Write(old(thread.memory[..]), frame.firstOperand + first, words)
    }

    method PeekAt(offset: nat) returns (v: Value)
      requires InMemory() && offset < frame.top
      ensures v == Operands()[frame.top - 1 - offset]
    {
      v := thread.memory[frame.firstOperand + frame.top - 1 - offset];
    }

    method Pop() returns (v: Value)
      requires InMemory() && 0 < frame.top
      modifies this`frame
      ensures frame == old(frame).(top := old(frame.top) - 1)
      ensures v == thread.memory[frame.firstOperand + frame.top]
    {
      frame := frame.(top := frame.top - 1);
      v := thread.memory[frame.firstOperand + frame.top];
    }

    method Pop2() returns (v: Value)
      requires InMemory() && 2 <= frame.top
      modifies this`frame
      ensures frame == old(frame).(top := old(frame.top) - 2)
      ensures v == old(Operands())[frame.top]
      ensures Operands() == SlotStep(Discard(2), old(Operands()), 0)
    {
      frame := frame.(top := frame.top - 2);
      v := thread.memory[frame.firstOperand + frame.top];
    }

    method Push(v: Value)
      requires frame.firstOperand + frame.top < thread.memory.Length
      modifies this`frame, thread.memory
      ensures frame == old(frame).(top := old(frame.top) + 1)
      ensures thread.memory[..] == old(thread.memory[..])[old(frame.firstOperand + frame.top) := v]
    {
      thread.memory[frame.firstOperand + frame.top] := v;
      frame := frame.(top := frame.top + 1);
    }

    method PushAll(words: seq<Value>)
      requires frame.firstOperand + frame.top + |words| <= thread.memory.Length
      modifies this`frame, thread.memory
      ensures Rewrote(old(frame.top), words)
    {
      ghost var mem, at := thread.memory[..], frame.firstOperand + frame.top;
      for i := 0 to |words|
        invariant frame == old(frame).(top := old(frame.top) + i)
        invariant thread.memory[..] == Write(mem, at, words[..i])
      {
        Push(words[i]);
        assert words[..i + 1] == words[..i] + [words[i]];
        WriteMore(mem, at, words[..i], words[i]);
      }
      assert words[..|words|] == words;
    }

    method PopAll(n: nat)
      requires n <= frame.top && InMemory()
      modifies this`frame
      ensures frame == old(frame).(top := old(frame.top) - n)
    {
      for i := 0 to n
        invariant frame == old(frame).(top := old(frame.top) - i)
      {
        var _ := Pop();
      }
    }

    method Push2(v: Value)
      requires frame.firstOperand + frame.top + 1 < thread.memory.Length
      modifies this`frame, thread.memory
      ensures frame == old(frame).(top := old(frame.top) + 2)
      ensures thread.memory[..] == old(thread.memory[..])[old(frame.firstOperand + frame.top) := v]
      ensures Operands() ==
              SlotStep(StackOp.Push2(v), old(Operands()), old(thread.memory[frame.firstOperand + frame.top + 1]))
    {
      thread.memory[frame.firstOperand + frame.top] := v;
      frame := frame.(top := frame.top + 2);
    }

    method Clear()
      modifies this`frame
      ensures frame == old(frame).(top := 0)
    {
      frame := frame.(top := 0);
    }

    // ---- the untyped stack instructions ----

    /** The operand slots that the instruction needs are replaced by what it leaves. */
    twostate predicate Did(op: StackOp)
      reads this, thread.memory
      requires old(InMemory()) && Needs(op) <= old(frame.top)
    {
      Rewrote(old(frame.top) - Needs(op), Leaves(op, old(Operands()), 0))
    }

    method Dup()
      requires 1 <= frame.top && frame.firstOperand + frame.top + 1 <= thread.memory.Length
      modifies this`frame, thread.memory
      ensures Did(StackOp.Dup(1, 0))
    {
      ghost var slots := Operands();
      var value := Pop();
      DupLeaves10(slots, value);
      PushAll([value, value]);
    }

    method DupX1()
      requires 2 <= frame.top && frame.firstOperand + frame.top + 1 <= thread.memory.Length
      modifies this`frame, thread.memory
      ensures Did(StackOp.Dup(1, 1))
    {
      ghost var slots := Operands();
      var value1 := Pop();
      var value2 := Pop();
      DupLeaves11(slots, value1, value2);
      PushAll([value1, value2, value1]);
    }

    method DupX2()
      requires 3 <= frame.top && frame.firstOperand + frame.top + 1 <= thread.memory.Length
      modifies this`frame, thread.memory
      ensures Did(StackOp.Dup(1, 2))
    {
      ghost var slots := Operands();
      var value1 := Pop();
      var value2 := Pop();
      var value3 := Pop();
      DupLeaves12(slots, value1, value2, value3);
      PushAll([value1, value3, value2, value1]);
    }

    method Dup2()
      requires 2 <= frame.top && frame.firstOperand + frame.top + 2 <= thread.memory.Length
      modifies this`frame, thread.memory
      ensures Did(StackOp.Dup(2, 0))
    {
      ghost var slots := Operands();
      var value1 := Pop();
      var value2 := Pop();
      DupLeaves20(slots, value1, value2);
      PushAll([value2, value1, value2, value1]);
    }

    method Dup2X1()
      requires 3 <= frame.top && frame.firstOperand + frame.top + 2 <= thread.memory.Length
      modifies this`frame, thread.memory
      ensures Did(StackOp.Dup(2, 1))
    {
      ghost var slots := Operands();
      var value1 := Pop();
      var value2 := Pop();
      var value3 := Pop();
      DupLeaves21(slots, value1, value2, value3);
      PushAll([value2, value1, value3, value2, value1]);
    }

    method Dup2X2()
      requires 4 <= frame.top && frame.firstOperand + frame.top + 2 <= thread.memory.Length
      modifies this`frame, thread.memory
      ensures Did(StackOp.Dup(2, 2))
    {
      ghost var slots := Operands();
      var value1 := Pop();
      var value2 := Pop();
      var value3 := Pop();
      var value4 := Pop();
      assert frame.top == |slots| - 4;
      DupLeaves22(slots, value1, value2, value3, value4);
      PushAll([value2, value1, value4, value3, value2, value1]);
    }

    method Swap()
      requires 2 <= frame.top && frame.firstOperand + frame.top <= thread.memory.Length
      modifies this`frame, thread.memory
      ensures Did(StackOp.Swap)
    {
      var value1 := Pop();
      var value2 := Pop();
      PushAll([value1, value2]);
      assert Leaves(StackOp.Swap, old(Operands()), 0) == [value1, value2];
    }

    // ---- frames ----

    ghost predicate Ends(o: Outcome<()>, spec: Outcome<Loop>)
      reads this, thread, thread.memory
    {
      if o.Done? then spec == Done(State()) else spec.IsFailure() && o == spec.PropagateFailure<()>()
    }

    /** Stack::push_frame */
    method PushFrame(callee: Method) returns (o: Outcome<()>)
      modifies this, thread
      ensures Ends(o, FrameModel.PushFrame(old(State()), callee))
    {
      if !Invokes(frame, callee) {
        return NotARun;
      }
      if frame.top < callee.paramSlots {
        return Fault;
      }
      var f := NewFrame(thread.memoryUsed, callee, frame.firstOperand + frame.top, false);
      if UsedBy(f) > thread.memory.Length {
        return Halt;
      }
      thread.frames := thread.frames + [Suspended(frame, callee, InstrAt(frame).length)];
      thread.memoryUsed := UsedBy(f);
      frame := f;
      o := Done(());
    }

    /** The static function pop_frame of the interpreter. */
    method PopFrame()
      requires frame.isRoot || thread.frames != []
      modifies this, thread
      ensures State() == FrameModel.PopFrame(old(State()))
    {
      thread.memoryUsed := frame.prevUsage;
      if frame.isRoot {
        shouldExit := true;
      } else {
        frame := thread.PopFrame();
        if thread.exception.None? {
          frame := frame.(pc := frame.pc + frame.invokeLength);
        }
      }
    }

    method StoreLocal(index: nat, v: Value)
      requires frame.firstLocal + index < thread.memory.Length
      modifies thread.memory
      ensures thread.memory[..] == old(thread.memory[..])[frame.firstLocal + index := v]
    {
      thread.memory[frame.firstLocal + index] := v;
    }

    // ---- instructions ----

    method StoreLocals(stores: seq<(nat, Value)>)
      requires forall st :: st in stores ==> frame.firstLocal + st.0 < thread.memory.Length
      modifies thread.memory
      ensures thread.memory[..] == WriteLocals(old(thread.memory[..]), frame.firstLocal, stores)
    {
      for i := 0 to |stores|
        invariant WriteLocals(thread.memory[..], frame.firstLocal, stores[i..])
               == WriteLocals(old(thread.memory[..]), frame.firstLocal, stores)
      {
        assert stores[i] in stores && stores[i..][0] == stores[i] && stores[i..][1..] == stores[i + 1..];
        StoreLocal(stores[i].0, stores[i].1);
      }
    }

    /** Any instruction that only works on this frame. */
    method ExecuteSimple(e: Event) returns (o: Outcome<()>)
      requires e.Execute?
      modifies this, thread.memory
      ensures Ends(o, ExecSimple(old(State()), e))
    {
      if !HasInstr(frame) || !Allows(InstrAt(frame), e) {
        return NotARun;
      }
      var i := InstrAt(frame);
      if !StaysInside(frame, i, thread.memory.Length) {
        return Fault;
      }
      PopAll(i.pops);
      PushAll(e.pushed);
      StoreLocals(e.stores);
      frame := frame.(pc := e.next);
      o := Done(());
    }

    /** ?return */
    method ExecuteReturn() returns (o: Outcome<()>)
      modifies this, thread, thread.memory
      ensures Ends(o, ExecReturn(old(State())))
    {
      if !HasInstr(frame) || !InstrAt(frame).Return? || InstrAt(frame).slots > 2 {
        return NotARun;
      }
      var k := InstrAt(frame).slots;
      if frame.top < k || thread.memory.Length < frame.firstOperand + frame.top
         || (k > 0 && thread.memory.Length <= frame.firstLocal) || (!frame.isRoot && thread.frames == []) {
        return Fault;
      }
      if k == 2 {
        var v := Pop2();
        StoreLocal(0, v);
      } else if k == 1 {
        var v := Pop();
        StoreLocal(0, v);
      }
      PopFrame();
      o := Done(());
    }

    /** native_call */
    method NativeCall(callee: Method, calls: Entries, result: Value) returns (o: Outcome<()>)
      modifies this, thread, thread.memory
      ensures Ends(o, ExecNative(old(State()), callee, calls, result))
      decreases calls, 2
    {
      if callee.code.Some? {
        return NotARun;
      }
      var _ :- PushFrame(callee);
      thread.frames := thread.frames + [frame];
      ghost var entered := thread.State();
      var _ :- thread.RunOutside(calls);
      EntriesPreserve(entered, calls);
      o := Leave(result);
    }

    /** An instruction that has popped operands and moved pc has the VM run other code. */
    method Reenter(popped: nat, advance: nat, calls: Entries) returns (o: Outcome<()>)
      modifies this, thread, thread.memory
      ensures Ends(o, ExecReenter(old(State()), popped, advance, calls))
      decreases calls, 2
    {
      if !HasInstr(frame) || advance >= LengthOf(InstrAt(frame)) || popped > PopsOf(InstrAt(frame)) {
        return NotARun;
      }
      if frame.top < popped {
        return Fault;
      }
      var f := frame.(top := frame.top - popped, pc := frame.pc + advance);
      thread.frames := thread.frames + [f];
      var _ :- thread.RunOutside(calls);
      if thread.frames == [] {
        return Fault;
      }
      f := thread.PopFrame();
      if thread.exception.Some? {
        frame := f;
      }
      o := Done(());
    }

    method ExecuteInstruction(e: Event) returns (o: Outcome<()>)
      modifies this, thread, thread.memory
      ensures Ends(o, ExecEvent(old(State()), e))
      decreases e, 0
    {
      match e
      case Execute(_, _, _) => o := ExecuteSimple(e);
      case Call(callee) =>
        if callee.code.None? {
          return NotARun;
        }
        o := PushFrame(callee);
      case CallNative(callee, calls, result) => o := NativeCall(callee, calls, result);
      case ReturnFrom => o := ExecuteReturn();
      case Reenter(popped, advance, calls) => o := Reenter(popped, advance, calls);
    }

    // ---- exceptions ----

    /** std::find_if over the exception table */
    method FindHandler(handlers: seq<Handler>, pc: nat, exc: Exc) returns (h: Option<Handler>)
      ensures h == FrameModel.FindHandler(handlers, pc, exc)
    {
      for i := 0 to |handlers|
        invariant FrameModel.FindHandler(handlers, pc, exc) == FrameModel.FindHandler(handlers[i..], pc, exc)
      {
        if Matches(handlers[i], pc, exc) {
          return Some(handlers[i]);
        }
        assert handlers[i..][1..] == handlers[i + 1..];
      }
      h := None;
    }

    /** handle_throw */
    method HandleThrow() returns (o: Outcome<()>)
      requires thread.exception.Some? && !shouldExit
      modifies this, thread, thread.memory
      ensures Ends(o, FrameModel.HandleThrow(old(State())))
    {
      while true
        invariant thread.exception.Some? && !shouldExit
        invariant FrameModel.HandleThrow(State()) == FrameModel.HandleThrow(old(State()))
        decreases |thread.frames|
      {
        if frame.info.code.None? {
          return Fault;
        }
        var handler := FindHandler(frame.info.code.value.handlers, frame.pc, thread.exception.value);
        if handler.Some? {
          o := Catch(handler.value);
          return;
        }
        if !frame.isRoot && thread.frames == [] {
          return Fault;
        }
        PopFrame();
        if shouldExit {
          return Done(());
        }
      }
    }

    /** The exception is pushed on a cleared operand stack and normal execution continues. */
    method Catch(h: Handler) returns (o: Outcome<()>)
      requires frame.info.code.Some? && thread.exception.Some?
      modifies this, thread, thread.memory
      ensures Ends(o, EnterHandler(old(State()), h))
    {
      if frame.info.code.value.maxStack < 1 || thread.memory.Length <= frame.firstOperand {
        return Fault;
      }
      Clear();
      Push(thread.exception.value.reference);
      frame := frame.(pc := h.handlerPc);
      thread.exception := None;
      o := Done(());
    }

    /** The end of native_call. */
    method Leave(result: Value) returns (o: Outcome<()>)
      requires |thread.frames| < 2 || frame == thread.frames[|thread.frames| - 1]
      modifies this, thread, thread.memory
      ensures Ends(o, LeaveNative(old(thread.State()), result, old(shouldExit)))
    {
      if |thread.frames| < 2 || (frame.info.returnSlots > 0 && thread.memory.Length <= frame.firstLocal) {
        return Fault;
      }
      if frame.info.returnSlots != 0 {
        StoreLocal(0, result);
      }
      frame := thread.PopFrame();
      PopFrame();
      o := Done(());
    }

    /** The loop of interpret. */
    method Run(es: Events) returns (o: Outcome<()>)
      modifies this, thread, thread.memory
      ensures Ends(o, ExecLoop(old(State()), es))
      decreases es, 2
    {
      var rest := es;
      while !shouldExit && (thread.exception.Some? || rest.Events?)
        invariant ExecLoop(State(), rest) == ExecLoop(old(State()), es)
        decreases rest, if thread.exception.Some? && !shouldExit then 1 else 0
      {
        if thread.exception.Some? {
          var _ :- HandleThrow();
        } else {
          var _ :- ExecuteInstruction(rest.head);
          rest := rest.tail;
        }
      }
      o := if shouldExit && rest.Events? then NotARun else Done(());
    }
  }
}
